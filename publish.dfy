/**
 * What postOutputData publishes (src/mimicry_app.cpp:629-682): the
 * suppression rules, and the JSON frame as the block of assignments the
 * loops perform, one device after another in index order.
 */
module Publish {
  import opened Wrappers
  import opened Vocabulary
  import opened Tracking
  import opened Devices
  import opened Frame

  /** Whether a button publishes the value kind t: the flag is present and true. */
  predicate Enabled(b: Button, t: string)
  {
    t in b.valTypes && b.valTypes[t]
  }

  /** The value-kind keys of val_types in std::map order. */
  const TypeOrder: seq<string> := ["2d", "boolean", "pressure"]

  /** The assignments one enabled value kind makes below the button's name. */
  function KindOps(b: Button, t: string): seq<Op>
  {
    if !Enabled(b, t) then []
    else if t == "boolean" then [Op(["boolean"], Bool(b.pressed))]
    else if t == "pressure" then [Op(["pressure"], Num(b.pressure))]
    else if t == "2d" then [Op(["2d", "x"], Num(b.touchPos.x)), Op(["2d", "y"], Num(b.touchPos.y))]
    else []
  }

  /** The assignments of the first k value kinds. */
  function KindsOps(b: Button, k: nat): seq<Op>
    requires k <= |TypeOrder|
  {
    if k == 0 then [] else KindsOps(b, k - 1) + KindOps(b, TypeOrder[k - 1])
  }

  /** One button's entries: `j[dev][button][kind...] = value` for each enabled kind. */
  function ButtonOps(b: Button): seq<Op>
  {
    Prefixed(b.name, KindsOps(b, |TypeOrder|))
  }

  /** The buttons' entries, taking the ids of `ids` in order. */
  function ButtonsOps(bs: map<nat, Button>, ids: seq<nat>): seq<Op>
  {
    if ids == [] then []
    else ButtonsOps(bs, ids[..|ids| - 1]) + (if ids[|ids| - 1] in bs then ButtonOps(bs[ids[|ids| - 1]]) else [])
  }

  /** The role entry of a device. */
  function RoleOps(d: Device): seq<Op>
  {
    [Op(["role"], Str(RoleEnumToName(d.role)))]
  }

  /** The seven pose entries of a device: position x, y, z and orientation x, y, z, w. */
  function PoseOps(p: Pose): seq<Op>
  {
    [Op(["pose", "position", "x"], Num(p.pos.x)),
     Op(["pose", "position", "y"], Num(p.pos.y)),
     Op(["pose", "position", "z"], Num(p.pos.z)),
     Op(["pose", "orientation", "x"], Num(p.quat.x)),
     Op(["pose", "orientation", "y"], Num(p.quat.y)),
     Op(["pose", "orientation", "z"], Num(p.quat.z)),
     Op(["pose", "orientation", "w"], Num(p.quat.w))]
  }

  /** A device's record, below its name: role, pose, then its buttons in id order. */
  function RecordOps(d: Device): seq<Op>
  {
    RoleOps(d) + PoseOps(d.pose) + ButtonsOps(d.buttons, KnownIds)
  }

  /** A device's entries in the frame. */
  function DeviceOps(d: Device): seq<Op>
  {
    Prefixed(d.name, RecordOps(d))
  }

  /** The frame's assignments for the active devices at indices below k, in index order. */
  function FrameOps(devs: map<nat, Device>, k: nat): seq<Op>
  {
    if k == 0 then [] else FrameOps(devs, k - 1) + (if k - 1 in devs then DeviceOps(devs[k - 1]) else [])
  }

  /** What one call of postOutputData does. */
  datatype Outcome =
    | MissingDevices      // bimanual, and a hand is not active
    | NoActiveDevices     // nothing is active
    | Published(doc: Doc) // the frame sent on the socket
    | Thrown              // an assignment stepped through a leaf

  /**
   * postOutputData: suppressed when bimanual and either found flag is false,
   * then when no device is active; otherwise the frame built from the
   * active devices.
   */
  function Publish(bimanual: bool, leftFound: bool, rightFound: bool, devs: map<nat, Device>): (o: Outcome)
    ensures o == MissingDevices <==> bimanual && (!leftFound || !rightFound)
    ensures o == NoActiveDevices <==> !(bimanual && (!leftFound || !rightFound)) && devs == map[]
  {
    if bimanual && (!leftFound || !rightFound) then MissingDevices
    else if |devs| == 0 then NoActiveDevices
    else match Apply(map[], FrameOps(devs, MaxTrackedDeviceCount))
      case None => Thrown
      case Some(doc) => Published(doc)
  }

  // ---- The shape of the assignments ----

  /** The paths of a button block: a button name with an enabled kind, then a kind. */
  predicate ButtonShaped(ops: seq<Op>, names: set<string>)
  {
    forall i :: 0 <= i < |ops| ==>
      |ops[i].path| >= 2 && ops[i].path[0] in names && ops[i].path[1] in TypeOrder
  }

  lemma KindOpsShape(b: Button, t: string)
    requires t in TypeOrder
    ensures PrefixFree(KindOps(b, t))
    ensures HeadsIn(KindOps(b, t), {t})
    ensures forall i :: 0 <= i < |KindOps(b, t)| ==> KindOps(b, t)[i].path[0] == t
  {
    var ops := KindOps(b, t);
    if |ops| == 2 {
      DifferAt(ops[0].path, ops[1].path, 1);
      DifferAt(ops[1].path, ops[0].path, 1);
    }
  }

  lemma {:induction false} KindsOpsShape(b: Button, k: nat)
    requires k <= |TypeOrder|
    ensures PrefixFree(KindsOps(b, k))
    ensures HeadsIn(KindsOps(b, k), set i | 0 <= i < k :: TypeOrder[i])
  {
    if k > 0 {
      KindsOpsShape(b, k - 1);
      KindsOpsStep(b, k - 1);
    }
  }

  /** Appending kind n's entries to those of the kinds before it keeps them apart. */
  lemma KindsOpsStep(b: Button, n: nat)
    requires n < |TypeOrder|
    requires PrefixFree(KindsOps(b, n)) && HeadsIn(KindsOps(b, n), set i | 0 <= i < n :: TypeOrder[i])
    ensures PrefixFree(KindsOps(b, n + 1)) && HeadsIn(KindsOps(b, n + 1), set i | 0 <= i < n + 1 :: TypeOrder[i])
  {
    var a, t := KindsOps(b, n), TypeOrder[n];
    var earlier := set i | 0 <= i < n :: TypeOrder[i];
    assert KindsOps(b, n + 1) == a + KindOps(b, t);
    KindOpsShape(b, t);
    KindSetSnoc(n);
    HeadsApart(a, KindOps(b, t), earlier, {t});
    PrefixFreeConcat(a, KindOps(b, t));
  }

  /** The n-th kind is new among the kinds before it, and joins them. */
  lemma KindSetSnoc(n: nat)
    requires n < |TypeOrder|
    ensures TypeOrder[n] !in set i | 0 <= i < n :: TypeOrder[i]
    ensures (set i | 0 <= i < n :: TypeOrder[i]) + {TypeOrder[n]} == set i | 0 <= i < n + 1 :: TypeOrder[i]
  {
  }

  /** A button's entries never interfere with each other and sit below its name, then a kind. */
  lemma ButtonOpsShape(b: Button)
    ensures PrefixFree(ButtonOps(b))
    ensures ButtonOps(b) != [] ==> ButtonShaped(ButtonOps(b), {b.name})
    ensures ButtonOps(b) == [] ==> ButtonShaped(ButtonOps(b), {})
  {
    KindsOpsShape(b, |TypeOrder|);
    PrefixedPrefixFree(b.name, KindsOps(b, |TypeOrder|));
    var k := KindsOps(b, |TypeOrder|);
    assert (set i | 0 <= i < |TypeOrder| :: TypeOrder[i]) == {"2d", "boolean", "pressure"} by {
      assert TypeOrder[0] == "2d" && TypeOrder[1] == "boolean" && TypeOrder[2] == "pressure";
    }
    forall i | 0 <= i < |k|
      ensures |k[i].path| >= 1 && k[i].path[0] in TypeOrder
    {
    }
  }

  /** Whether a button publishes at least one entry. */
  predicate Publishes(b: Button)
  {
    exists t :: t in TypeOrder && Enabled(b, t)
  }

  /** The three kinds in std::map order. */
  lemma KindsOpsAll(b: Button)
    ensures KindsOps(b, |TypeOrder|) == KindOps(b, "2d") + KindOps(b, "boolean") + KindOps(b, "pressure")
  {
    assert KindsOps(b, 1) == [] + KindOps(b, "2d");
    assert KindsOps(b, 2) == KindsOps(b, 1) + KindOps(b, "boolean");
    assert KindsOps(b, 3) == KindsOps(b, 2) + KindOps(b, "pressure");
  }

  lemma PublishesNonEmpty(b: Button)
    ensures ButtonOps(b) != [] <==> Publishes(b)
  {
    KindsOpsAll(b);
  }

  /** The names of the buttons at ids that publish something. */
  function PublishingNames(bs: map<nat, Button>, ids: seq<nat>): set<string>
  {
    set i | 0 <= i < |ids| && ids[i] in bs && Publishes(bs[ids[i]]) :: bs[ids[i]].name
  }

  /** No id repeats. */
  predicate Distinct(ids: seq<nat>)
  {
    forall i, j :: 0 <= i < j < |ids| ==> ids[i] != ids[j]
  }

  /** The buttons' entries never interfere when names are unique, and each sits below a publishing button's name. */
  lemma {:induction false} ButtonsOpsShape(bs: map<nat, Button>, ids: seq<nat>)
    requires WellFormedButtons(bs) && Distinct(ids)
    ensures PrefixFree(ButtonsOps(bs, ids))
    ensures ButtonShaped(ButtonsOps(bs, ids), PublishingNames(bs, ids))
    decreases |ids|
  {
    if ids != [] {
      var front := ids[..|ids| - 1];
      var id := ids[|ids| - 1];
      assert Distinct(front);
      ButtonsOpsShape(bs, front);
      var a := ButtonsOps(bs, front);
      var names := PublishingNames(bs, front);
      PublishingNamesSnoc(bs, ids);
      if id in bs {
        var b := ButtonOps(bs[id]);
        ButtonOpsShape(bs[id]);
        PublishesNonEmpty(bs[id]);
        FreshName(bs, ids);
        HeadsApart(a, b, names, {bs[id].name});
        PrefixFreeConcat(a, b);
        ShapedConcat(a, b, names, if Publishes(bs[id]) then {bs[id].name} else {});
      } else {
        assert ButtonsOps(bs, ids) == a + [];
        ShapedConcat(a, [], names, {});
      }
    }
  }

  /** The publishing names grow by the last button's name when it publishes. */
  lemma PublishingNamesSnoc(bs: map<nat, Button>, ids: seq<nat>)
    requires ids != []
    ensures PublishingNames(bs, ids) == PublishingNames(bs, ids[..|ids| - 1])
      + (if ids[|ids| - 1] in bs && Publishes(bs[ids[|ids| - 1]]) then {bs[ids[|ids| - 1]].name} else {})
  {
    var front := ids[..|ids| - 1];
    forall i | 0 <= i < |front|
      ensures front[i] == ids[i]
    {
    }
  }

  /** With unique button names, the last button's name is not among the earlier ones. */
  lemma FreshName(bs: map<nat, Button>, ids: seq<nat>)
    requires WellFormedButtons(bs) && Distinct(ids) && ids != [] && ids[|ids| - 1] in bs
    ensures bs[ids[|ids| - 1]].name !in PublishingNames(bs, ids[..|ids| - 1])
  {
    var front := ids[..|ids| - 1];
    var id := ids[|ids| - 1];
    forall i | 0 <= i < |front| && front[i] in bs
      ensures bs[front[i]].name != bs[id].name
    {
      assert front[i] == ids[i];
    }
  }

  /** Two blocks shaped over two name sets make one shaped over their union. */
  lemma ShapedConcat(a: seq<Op>, b: seq<Op>, na: set<string>, nb: set<string>)
    requires ButtonShaped(a, na) && ButtonShaped(b, nb)
    ensures ButtonShaped(a + b, na + nb)
  {
    var c := a + b;
    forall i | 0 <= i < |c|
      ensures |c[i].path| >= 2 && c[i].path[0] in na + nb && c[i].path[1] in TypeOrder
    {
      if i < |a| {
        assert c[i] == a[i];
      } else {
        assert c[i] == b[i - |a|];
      }
    }
  }

  lemma PoseOpsShape(p: Pose)
    ensures PrefixFree(PoseOps(p))
    ensures forall i :: 0 <= i < |PoseOps(p)| ==>
      |PoseOps(p)[i].path| == 3 && PoseOps(p)[i].path[0] == "pose"
      && (PoseOps(p)[i].path[1] == "position" || PoseOps(p)[i].path[1] == "orientation")
  {
    var ops := PoseOps(p);
    forall i, j | 0 <= i < |ops| && 0 <= j < |ops| && i != j
      ensures Incomparable(ops[i].path, ops[j].path)
    {
      if ops[i].path[1] != ops[j].path[1] {
        DifferAt(ops[i].path, ops[j].path, 1);
      } else {
        DifferAt(ops[i].path, ops[j].path, 2);
      }
    }
  }

  /** No button named "role" publishes anything (otherwise the frame throws). */
  predicate NoRoleButton(d: Device)
  {
    forall id :: id in d.buttons && d.buttons[id].name == "role" ==> !Publishes(d.buttons[id])
  }

  lemma KnownIdsDistinct()
    ensures Distinct(KnownIds)
  {
  }

  /**
   * A device's record never interferes with itself when its button names
   * are unique and no button named "role" publishes: the role, the pose
   * and each button occupy disjoint paths (a button named "pose" shares the
   * first key with the pose but never a second one).
   */
  lemma RecordPrefixFree(d: Device)
    requires WellFormedButtons(d.buttons) && NoRoleButton(d)
    ensures PrefixFree(RecordOps(d))
    ensures HeadsIn(RecordOps(d), {"role", "pose"} + PublishingNames(d.buttons, KnownIds))
  {
    var r, p, b := RoleOps(d), PoseOps(d.pose), ButtonsOps(d.buttons, KnownIds);
    KnownIdsDistinct();
    PoseOpsShape(d.pose);
    ButtonsOpsShape(d.buttons, KnownIds);
    var names := PublishingNames(d.buttons, KnownIds);
    assert "role" !in names;
    HeadsApart(r, p, {"role"}, {"pose"});
    PrefixFreeConcat(r, p);
    forall i, j | 0 <= i < |r + p| && 0 <= j < |b|
      ensures Incomparable((r + p)[i].path, b[j].path)
    {
      if b[j].path[0] != (r + p)[i].path[0] {
        DifferAt((r + p)[i].path, b[j].path, 0);
      } else {
        assert i > 0 && (r + p)[i] == p[i - 1];
        DifferAt((r + p)[i].path, b[j].path, 1);
      }
    }
    PrefixFreeConcat(r + p, b);
    var all := r + p + b;
    forall i | 0 <= i < |all|
      ensures all[i].path[0] in {"role", "pose"} + names
    {
      if i == 0 {
      } else if i < 8 {
        assert all[i] == p[i - 1];
      } else {
        assert all[i] == b[i - 8];
      }
    }
  }

  /** The entries of the active devices never interfere when their names are unique. */
  predicate FramePre(devs: map<nat, Device>)
  {
    && (forall i, j :: i in devs && j in devs && i != j ==> devs[i].name != devs[j].name)
    && (forall i :: i in devs ==> WellFormedButtons(devs[i].buttons) && NoRoleButton(devs[i]))
  }

  lemma DeviceOpsShape(d: Device)
    requires WellFormedButtons(d.buttons) && NoRoleButton(d)
    ensures PrefixFree(DeviceOps(d)) && HeadsIn(DeviceOps(d), {d.name})
  {
    RecordPrefixFree(d);
    PrefixedPrefixFree(d.name, RecordOps(d));
  }

  /** The names of the devices at indices below k. */
  function NamesBelow(devs: map<nat, Device>, k: nat): set<string>
  {
    set i | 0 <= i < k && i in devs :: devs[i].name
  }

  lemma {:induction false} FramePrefixFree(devs: map<nat, Device>, k: nat)
    requires FramePre(devs)
    ensures PrefixFree(FrameOps(devs, k)) && HeadsIn(FrameOps(devs, k), NamesBelow(devs, k))
  {
    if k > 0 {
      FramePrefixFree(devs, k - 1);
      var a := FrameOps(devs, k - 1);
      var names := NamesBelow(devs, k - 1);
      if k - 1 in devs {
        var d := devs[k - 1];
        DeviceOpsShape(d);
        assert d.name !in names;
        HeadsApart(a, DeviceOps(d), names, {d.name});
        PrefixFreeConcat(a, DeviceOps(d));
        var c := a + DeviceOps(d);
        forall i | 0 <= i < |c|
          ensures c[i].path[0] in NamesBelow(devs, k)
        {
          if i < |a| {
            assert c[i] == a[i];
          } else {
            assert c[i] == DeviceOps(d)[i - |a|];
          }
        }
      } else {
        assert a + [] == a;
        assert NamesBelow(devs, k) == names;
      }
    }
  }

  /** The block of the device at an index is part of the frame. */
  lemma {:induction false} DeviceInFrame(devs: map<nat, Device>, k: nat, ix: nat, o: Op)
    requires ix in devs && ix < k && o in DeviceOps(devs[ix])
    ensures o in FrameOps(devs, k)
  {
    if ix < k - 1 {
      DeviceInFrame(devs, k - 1, ix, o);
    }
  }

  /** An entry of a record below the device's name. */
  lemma InDevice(d: Device, o: Op)
    requires o in RecordOps(d)
    ensures Op([d.name] + o.path, o.value) in DeviceOps(d)
  {
    var i :| 0 <= i < |RecordOps(d)| && RecordOps(d)[i] == o;
    assert DeviceOps(d)[i] == Op([d.name] + o.path, o.value);
  }

  /** The entries of a button are part of the buttons' block. */
  lemma {:induction false} ButtonInButtons(bs: map<nat, Button>, ids: seq<nat>, k: nat, o: Op)
    requires 0 <= k < |ids| && ids[k] in bs && o in ButtonOps(bs[ids[k]])
    ensures o in ButtonsOps(bs, ids)
    decreases |ids|
  {
    if k < |ids| - 1 {
      assert ids[..|ids| - 1][k] == ids[k];
      ButtonInButtons(bs, ids[..|ids| - 1], k, o);
    }
  }

  /** The entry of one enabled kind is part of the button's block. */
  lemma KindInButton(b: Button, t: string, o: Op)
    requires o in KindOps(b, t) && t in TypeOrder
    ensures Op([b.name] + o.path, o.value) in ButtonOps(b)
  {
    var ks := KindsOps(b, |TypeOrder|);
    KindsOpsAll(b);
    assert o in ks;
    var i :| 0 <= i < |ks| && ks[i] == o;
    assert ButtonOps(b)[i] == Op([b.name] + o.path, o.value);
  }

  /** The frame holds the entries of one enabled kind of a button. */
  predicate ButtonEntry(doc: Doc, dn: string, b: Button)
  {
    && (Enabled(b, "boolean") ==> [dn, b.name, "boolean"] in doc && doc[[dn, b.name, "boolean"]] == Bool(b.pressed))
    && (Enabled(b, "pressure") ==> [dn, b.name, "pressure"] in doc && doc[[dn, b.name, "pressure"]] == Num(b.pressure))
    && (Enabled(b, "2d") ==>
          [dn, b.name, "2d", "x"] in doc && doc[[dn, b.name, "2d", "x"]] == Num(b.touchPos.x)
          && [dn, b.name, "2d", "y"] in doc && doc[[dn, b.name, "2d", "y"]] == Num(b.touchPos.y))
  }

  /** The frame holds a device's role, its seven pose values and every enabled button value. */
  predicate DeviceEntry(doc: Doc, d: Device)
  {
    && [d.name, "role"] in doc && doc[[d.name, "role"]] == Str(RoleEnumToName(d.role))
    && [d.name, "pose", "position", "x"] in doc && doc[[d.name, "pose", "position", "x"]] == Num(d.pose.pos.x)
    && [d.name, "pose", "position", "y"] in doc && doc[[d.name, "pose", "position", "y"]] == Num(d.pose.pos.y)
    && [d.name, "pose", "position", "z"] in doc && doc[[d.name, "pose", "position", "z"]] == Num(d.pose.pos.z)
    && [d.name, "pose", "orientation", "x"] in doc && doc[[d.name, "pose", "orientation", "x"]] == Num(d.pose.quat.x)
    && [d.name, "pose", "orientation", "y"] in doc && doc[[d.name, "pose", "orientation", "y"]] == Num(d.pose.quat.y)
    && [d.name, "pose", "orientation", "z"] in doc && doc[[d.name, "pose", "orientation", "z"]] == Num(d.pose.quat.z)
    && [d.name, "pose", "orientation", "w"] in doc && doc[[d.name, "pose", "orientation", "w"]] == Num(d.pose.quat.w)
    && forall id :: id in d.buttons ==> ButtonEntry(doc, d.name, d.buttons[id])
  }

  /** Each entry a record makes lands in the frame. */
  lemma RecordInFrame(devs: map<nat, Device>, ix: nat, o: Op)
    requires FramePre(devs) && ix in devs && ix < MaxTrackedDeviceCount && o in RecordOps(devs[ix])
    ensures var doc := OpsMap(FrameOps(devs, MaxTrackedDeviceCount));
      [devs[ix].name] + o.path in doc && doc[[devs[ix].name] + o.path] == o.value
  {
    InDevice(devs[ix], o);
    DeviceInFrame(devs, MaxTrackedDeviceCount, ix, Op([devs[ix].name] + o.path, o.value));
    FramePrefixFree(devs, MaxTrackedDeviceCount);
    InBlock(FrameOps(devs, MaxTrackedDeviceCount), Op([devs[ix].name] + o.path, o.value));
  }

  /** One enabled kind's entry of a button lands in the frame, below device and button name. */
  lemma KindInFrame(devs: map<nat, Device>, ix: nat, id: nat, t: string, o: Op)
    requires FramePre(devs) && ix in devs && ix < MaxTrackedDeviceCount && id in devs[ix].buttons
    requires t in TypeOrder && o in KindOps(devs[ix].buttons[id], t)
    ensures var doc := OpsMap(FrameOps(devs, MaxTrackedDeviceCount));
      var p := [devs[ix].name, devs[ix].buttons[id].name] + o.path;
      p in doc && doc[p] == o.value
  {
    var d := devs[ix];
    var b := d.buttons[id];
    var k := KnownIdIndex(id);
    var o' := Op([b.name] + o.path, o.value);
    NestedPath(d.name, b.name, o.path);
    KindInButton(b, t, o);
    ButtonInButtons(d.buttons, KnownIds, k, o');
    ButtonsInRecord(d, o');
    RecordInFrame(devs, ix, o');
  }

  /** A path below a button below a device. */
  lemma NestedPath(dn: string, bn: string, p: seq<string>)
    ensures [dn] + ([bn] + p) == [dn, bn] + p
  {
  }

  /** The position of a known id in the id order. */
  lemma KnownIdIndex(id: nat) returns (k: nat)
    requires id in KnownIds
    ensures k < |KnownIds| && KnownIds[k] == id
  {
    k :| k < |KnownIds| && KnownIds[k] == id;
  }

  /** The buttons' entries are part of a device's record. */
  lemma ButtonsInRecord(d: Device, o: Op)
    requires o in ButtonsOps(d.buttons, KnownIds)
    ensures o in RecordOps(d)
  {
    var a := RoleOps(d) + PoseOps(d.pose);
    var c := ButtonsOps(d.buttons, KnownIds);
    var i :| 0 <= i < |c| && c[i] == o;
    assert (a + c)[|a| + i] == o;
  }

  lemma BooleanInFrame(devs: map<nat, Device>, ix: nat, id: nat)
    requires FramePre(devs) && ix in devs && ix < MaxTrackedDeviceCount && id in devs[ix].buttons
    ensures var doc := OpsMap(FrameOps(devs, MaxTrackedDeviceCount));
      var dn, b := devs[ix].name, devs[ix].buttons[id];
      Enabled(b, "boolean") ==> [dn, b.name, "boolean"] in doc && doc[[dn, b.name, "boolean"]] == Bool(b.pressed)
  {
    var dn, b := devs[ix].name, devs[ix].buttons[id];
    if Enabled(b, "boolean") {
      KindInFrame(devs, ix, id, "boolean", Op(["boolean"], Bool(b.pressed)));
      assert [dn, b.name] + ["boolean"] == [dn, b.name, "boolean"];
    }
  }

  lemma PressureInFrame(devs: map<nat, Device>, ix: nat, id: nat)
    requires FramePre(devs) && ix in devs && ix < MaxTrackedDeviceCount && id in devs[ix].buttons
    ensures var doc := OpsMap(FrameOps(devs, MaxTrackedDeviceCount));
      var dn, b := devs[ix].name, devs[ix].buttons[id];
      Enabled(b, "pressure") ==> [dn, b.name, "pressure"] in doc && doc[[dn, b.name, "pressure"]] == Num(b.pressure)
  {
    var dn, b := devs[ix].name, devs[ix].buttons[id];
    if Enabled(b, "pressure") {
      KindInFrame(devs, ix, id, "pressure", Op(["pressure"], Num(b.pressure)));
      assert [dn, b.name] + ["pressure"] == [dn, b.name, "pressure"];
    }
  }

  lemma TouchInFrame(devs: map<nat, Device>, ix: nat, id: nat)
    requires FramePre(devs) && ix in devs && ix < MaxTrackedDeviceCount && id in devs[ix].buttons
    ensures var doc := OpsMap(FrameOps(devs, MaxTrackedDeviceCount));
      var dn, b := devs[ix].name, devs[ix].buttons[id];
      Enabled(b, "2d") ==>
        [dn, b.name, "2d", "x"] in doc && doc[[dn, b.name, "2d", "x"]] == Num(b.touchPos.x)
        && [dn, b.name, "2d", "y"] in doc && doc[[dn, b.name, "2d", "y"]] == Num(b.touchPos.y)
  {
    var dn, b := devs[ix].name, devs[ix].buttons[id];
    if Enabled(b, "2d") {
      KindInFrame(devs, ix, id, "2d", Op(["2d", "x"], Num(b.touchPos.x)));
      assert [dn, b.name] + ["2d", "x"] == [dn, b.name, "2d", "x"];
      KindInFrame(devs, ix, id, "2d", Op(["2d", "y"], Num(b.touchPos.y)));
      assert [dn, b.name] + ["2d", "y"] == [dn, b.name, "2d", "y"];
    }
  }

  lemma ButtonInFrame(devs: map<nat, Device>, ix: nat, id: nat)
    requires FramePre(devs) && ix in devs && ix < MaxTrackedDeviceCount && id in devs[ix].buttons
    ensures ButtonEntry(OpsMap(FrameOps(devs, MaxTrackedDeviceCount)), devs[ix].name, devs[ix].buttons[id])
  {
    BooleanInFrame(devs, ix, id);
    PressureInFrame(devs, ix, id);
    TouchInFrame(devs, ix, id);
  }

  /** The i-th role-or-pose entry of a record lands in the frame. */
  lemma HeaderInFrame(devs: map<nat, Device>, ix: nat, i: nat)
    requires FramePre(devs) && ix in devs && ix < MaxTrackedDeviceCount && i < 8
    ensures var doc := OpsMap(FrameOps(devs, MaxTrackedDeviceCount));
      var o := (RoleOps(devs[ix]) + PoseOps(devs[ix].pose))[i];
      [devs[ix].name] + o.path in doc && doc[[devs[ix].name] + o.path] == o.value
  {
    var d := devs[ix];
    var h := RoleOps(d) + PoseOps(d.pose);
    assert RecordOps(d)[i] == h[i];
    RecordInFrame(devs, ix, h[i]);
  }

  lemma HeaderEntries(devs: map<nat, Device>, ix: nat)
    requires FramePre(devs) && ix in devs && ix < MaxTrackedDeviceCount
    ensures var doc := OpsMap(FrameOps(devs, MaxTrackedDeviceCount));
      var d := devs[ix];
      && [d.name, "role"] in doc && doc[[d.name, "role"]] == Str(RoleEnumToName(d.role))
      && [d.name, "pose", "position", "x"] in doc && doc[[d.name, "pose", "position", "x"]] == Num(d.pose.pos.x)
      && [d.name, "pose", "position", "y"] in doc && doc[[d.name, "pose", "position", "y"]] == Num(d.pose.pos.y)
      && [d.name, "pose", "position", "z"] in doc && doc[[d.name, "pose", "position", "z"]] == Num(d.pose.pos.z)
      && [d.name, "pose", "orientation", "x"] in doc && doc[[d.name, "pose", "orientation", "x"]] == Num(d.pose.quat.x)
      && [d.name, "pose", "orientation", "y"] in doc && doc[[d.name, "pose", "orientation", "y"]] == Num(d.pose.quat.y)
      && [d.name, "pose", "orientation", "z"] in doc && doc[[d.name, "pose", "orientation", "z"]] == Num(d.pose.quat.z)
      && [d.name, "pose", "orientation", "w"] in doc && doc[[d.name, "pose", "orientation", "w"]] == Num(d.pose.quat.w)
  {
    var d := devs[ix];
    var h := RoleOps(d) + PoseOps(d.pose);
    HeaderInFrame(devs, ix, 0);
    assert [d.name] + h[0].path == [d.name, "role"];
    HeaderInFrame(devs, ix, 1);
    assert [d.name] + h[1].path == [d.name, "pose", "position", "x"];
    HeaderInFrame(devs, ix, 2);
    assert [d.name] + h[2].path == [d.name, "pose", "position", "y"];
    HeaderInFrame(devs, ix, 3);
    assert [d.name] + h[3].path == [d.name, "pose", "position", "z"];
    HeaderInFrame(devs, ix, 4);
    assert [d.name] + h[4].path == [d.name, "pose", "orientation", "x"];
    HeaderInFrame(devs, ix, 5);
    assert [d.name] + h[5].path == [d.name, "pose", "orientation", "y"];
    HeaderInFrame(devs, ix, 6);
    assert [d.name] + h[6].path == [d.name, "pose", "orientation", "z"];
    HeaderInFrame(devs, ix, 7);
    assert [d.name] + h[7].path == [d.name, "pose", "orientation", "w"];
  }

  lemma DeviceInDoc(devs: map<nat, Device>, ix: nat)
    requires FramePre(devs) && ix in devs && ix < MaxTrackedDeviceCount
    ensures DeviceEntry(OpsMap(FrameOps(devs, MaxTrackedDeviceCount)), devs[ix])
  {
    HeaderEntries(devs, ix);
    forall id | id in devs[ix].buttons
      ensures ButtonEntry(OpsMap(FrameOps(devs, MaxTrackedDeviceCount)), devs[ix].name, devs[ix].buttons[id])
    {
      ButtonInFrame(devs, ix, id);
    }
  }

  /** The names of the active devices. */
  function DeviceNames(devs: map<nat, Device>): set<string>
  {
    set ix | ix in devs :: devs[ix].name
  }

  /**
   * What a published frame holds. When not suppressed, with unique device
   * names, well-formed buttons, every index below k_unMaxTrackedDeviceCount
   * and no publishing button named "role", postOutputData publishes; the
   * frame has one top-level entry per active device and nothing else, and
   * that entry holds the role name, the seven pose values and one value per
   * enabled kind of every button, and nothing more.
   */
  lemma PublishedFrame(bimanual: bool, leftFound: bool, rightFound: bool, devs: map<nat, Device>)
    requires !(bimanual && (!leftFound || !rightFound)) && devs != map[]
    requires FramePre(devs) && forall ix :: ix in devs ==> ix < MaxTrackedDeviceCount
    ensures Publish(bimanual, leftFound, rightFound, devs).Published?
    ensures FrameDoc(Publish(bimanual, leftFound, rightFound, devs).doc, devs)
  {
    PublishIsOpsMap(bimanual, leftFound, rightFound, devs);
    FrameContents(devs);
  }

  /**
   * What a published frame of the active devices holds: its top-level keys
   * are active device names, it holds every active device's entry, and
   * nothing else.
   */
  predicate FrameDoc(doc: Doc, devs: map<nat, Device>)
  {
    TopKeysActive(doc, devs) && HoldsDevices(doc, devs) && OnlyDeviceEntries(doc, devs)
  }

  /** Every top-level key of the document is an active device's name. */
  predicate TopKeysActive(doc: Doc, devs: map<nat, Device>)
  {
    forall p :: p in doc ==> p[0] in DeviceNames(devs)
  }

  /** The document holds every active device's entry. */
  predicate HoldsDevices(doc: Doc, devs: map<nat, Device>)
  {
    forall ix :: ix in devs ==> DeviceEntry(doc, devs[ix])
  }

  /** The document of the frame's block is a published frame of the active devices. */
  lemma FrameContents(devs: map<nat, Device>)
    requires FramePre(devs) && forall ix :: ix in devs ==> ix < MaxTrackedDeviceCount
    ensures FrameDoc(OpsMap(FrameOps(devs, MaxTrackedDeviceCount)), devs)
  {
    var doc := OpsMap(FrameOps(devs, MaxTrackedDeviceCount));
    FrameKeys(devs);
    assert TopKeysActive(doc, devs);
    DevicesInDoc(devs);
    assert HoldsDevices(doc, devs);
    FrameOnlyDeviceEntries(devs);
  }

  /** The frame holds every active device's entry. */
  lemma DevicesInDoc(devs: map<nat, Device>)
    requires FramePre(devs) && forall ix :: ix in devs ==> ix < MaxTrackedDeviceCount
    ensures forall ix :: ix in devs ==> DeviceEntry(OpsMap(FrameOps(devs, MaxTrackedDeviceCount)), devs[ix])
  {
    forall ix | ix in devs
      ensures DeviceEntry(OpsMap(FrameOps(devs, MaxTrackedDeviceCount)), devs[ix])
    {
      DeviceInDoc(devs, ix);
    }
  }

  /** An unsuppressed frame of non-interfering devices is published, and it is the block's document. */
  lemma PublishIsOpsMap(bimanual: bool, leftFound: bool, rightFound: bool, devs: map<nat, Device>)
    requires !(bimanual && (!leftFound || !rightFound)) && devs != map[] && FramePre(devs)
    ensures Publish(bimanual, leftFound, rightFound, devs) == Published(OpsMap(FrameOps(devs, MaxTrackedDeviceCount)))
  {
    FramePrefixFree(devs, MaxTrackedDeviceCount);
    ApplyPrefixFreeEmpty(FrameOps(devs, MaxTrackedDeviceCount));
    assert |devs| != 0;
  }

  /** Every top-level key of the frame is an active device's name. */
  lemma FrameKeys(devs: map<nat, Device>)
    requires FramePre(devs)
    ensures forall p :: p in OpsMap(FrameOps(devs, MaxTrackedDeviceCount)) ==> p[0] in DeviceNames(devs)
  {
    var ops := FrameOps(devs, MaxTrackedDeviceCount);
    FramePrefixFree(devs, MaxTrackedDeviceCount);
    OpsMapKeys(ops);
    forall p | p in OpsMap(ops)
      ensures p[0] in DeviceNames(devs)
    {
      var i :| 0 <= i < |ops| && ops[i].path == p;
      assert p[0] in NamesBelow(devs, MaxTrackedDeviceCount);
    }
  }

  // ---- Nothing else is published ----

  /** A path an enabled kind of button b writes below the device name dn. */
  predicate KindPath(dn: string, b: Button, p: seq<string>)
  {
    || (Enabled(b, "boolean") && p == [dn, b.name, "boolean"])
    || (Enabled(b, "pressure") && p == [dn, b.name, "pressure"])
    || (Enabled(b, "2d") && (p == [dn, b.name, "2d", "x"] || p == [dn, b.name, "2d", "y"]))
  }

  /** A path of device d's entry: its role, one of its seven pose values, or an enabled kind of one of its buttons. */
  predicate DevicePath(d: Device, p: seq<string>)
  {
    || p == [d.name, "role"]
    || p == [d.name, "pose", "position", "x"] || p == [d.name, "pose", "position", "y"]
    || p == [d.name, "pose", "position", "z"]
    || p == [d.name, "pose", "orientation", "x"] || p == [d.name, "pose", "orientation", "y"]
    || p == [d.name, "pose", "orientation", "z"] || p == [d.name, "pose", "orientation", "w"]
    || exists id :: id in d.buttons && KindPath(d.name, d.buttons[id], p)
  }

  /** Every leaf of the document is a path of some active device's entry. */
  predicate OnlyDeviceEntries(doc: Doc, devs: map<nat, Device>)
  {
    forall p :: p in doc ==> exists ix :: ix in devs && DevicePath(devs[ix], p)
  }

  /** An assignment of one value kind writes a path that kind is allowed, and only when it is enabled. */
  lemma KindOpPath(dn: string, b: Button, t: string, q: Op)
    requires q in KindOps(b, t)
    ensures KindPath(dn, b, [dn, b.name] + q.path)
  {
    if t == "boolean" {
      assert [dn, b.name] + ["boolean"] == [dn, b.name, "boolean"];
    } else if t == "pressure" {
      assert [dn, b.name] + ["pressure"] == [dn, b.name, "pressure"];
    } else {
      assert [dn, b.name] + ["2d", "x"] == [dn, b.name, "2d", "x"];
      assert [dn, b.name] + ["2d", "y"] == [dn, b.name, "2d", "y"];
    }
  }

  /** Every assignment of a button's block, below the device name, writes an enabled kind's path. */
  lemma ButtonOpPath(dn: string, b: Button, o: Op)
    requires o in ButtonOps(b)
    ensures KindPath(dn, b, [dn] + o.path)
  {
    var ks := KindsOps(b, |TypeOrder|);
    KindsOpsAll(b);
    var i :| 0 <= i < |ButtonOps(b)| && ButtonOps(b)[i] == o;
    var q := ks[i];
    NestedPath(dn, b.name, q.path);
    var a, c, e := KindOps(b, "2d"), KindOps(b, "boolean"), KindOps(b, "pressure");
    if i < |a| {
      assert q == a[i];
      KindOpPath(dn, b, "2d", q);
    } else if i < |a| + |c| {
      assert q == c[i - |a|];
      KindOpPath(dn, b, "boolean", q);
    } else {
      assert q == e[i - |a| - |c|];
      KindOpPath(dn, b, "pressure", q);
    }
  }

  /** Every assignment of the buttons' block belongs to one button. */
  lemma {:induction false} ButtonsOpsFrom(bs: map<nat, Button>, ids: seq<nat>, o: Op)
    requires o in ButtonsOps(bs, ids)
    ensures exists id :: id in bs && o in ButtonOps(bs[id])
    decreases |ids|
  {
    if ids != [] {
      var front := ids[..|ids| - 1];
      if o in ButtonsOps(bs, front) {
        ButtonsOpsFrom(bs, front, o);
      } else {
        assert ids[|ids| - 1] in bs && o in ButtonOps(bs[ids[|ids| - 1]]);
      }
    }
  }

  /** The i-th role-or-pose entry of a record, below the device name, is a path of its entry. */
  lemma HeaderPath(d: Device, i: nat)
    requires i < 8
    ensures DevicePath(d, [d.name] + (RoleOps(d) + PoseOps(d.pose))[i].path)
  {
    var h := RoleOps(d) + PoseOps(d.pose);
    if i == 0 {
      assert [d.name] + h[0].path == [d.name, "role"];
    } else if i == 1 {
      assert [d.name] + h[1].path == [d.name, "pose", "position", "x"];
    } else if i == 2 {
      assert [d.name] + h[2].path == [d.name, "pose", "position", "y"];
    } else if i == 3 {
      assert [d.name] + h[3].path == [d.name, "pose", "position", "z"];
    } else if i == 4 {
      assert [d.name] + h[4].path == [d.name, "pose", "orientation", "x"];
    } else if i == 5 {
      assert [d.name] + h[5].path == [d.name, "pose", "orientation", "y"];
    } else if i == 6 {
      assert [d.name] + h[6].path == [d.name, "pose", "orientation", "z"];
    } else {
      assert [d.name] + h[7].path == [d.name, "pose", "orientation", "w"];
    }
  }

  /** Every assignment of a device's block writes a path of its entry. */
  lemma DeviceOpPath(d: Device, o: Op)
    requires o in DeviceOps(d)
    ensures DevicePath(d, o.path)
  {
    var rec := RecordOps(d);
    var i :| 0 <= i < |rec| && DeviceOps(d)[i] == o;
    var r := rec[i];
    var h := RoleOps(d) + PoseOps(d.pose);
    if i < 8 {
      assert r == h[i];
      HeaderPath(d, i);
    } else {
      var bs := ButtonsOps(d.buttons, KnownIds);
      assert r == bs[i - 8];
      ButtonsOpsFrom(d.buttons, KnownIds, r);
      var id :| id in d.buttons && r in ButtonOps(d.buttons[id]);
      ButtonOpPath(d.name, d.buttons[id], r);
    }
  }

  /** Every assignment of the frame writes a path of some active device's entry. */
  lemma {:induction false} FrameOpPath(devs: map<nat, Device>, k: nat, o: Op)
    requires o in FrameOps(devs, k)
    ensures exists ix :: ix in devs && DevicePath(devs[ix], o.path)
  {
    if k > 0 {
      if o in FrameOps(devs, k - 1) {
        FrameOpPath(devs, k - 1, o);
      } else {
        assert k - 1 in devs && o in DeviceOps(devs[k - 1]);
        DeviceOpPath(devs[k - 1], o);
      }
    }
  }

  /**
   * The frame holds nothing but device entries: each leaf is a device's
   * role, one of its pose values, or a value of an enabled kind of one of
   * its buttons; a disabled kind writes nothing.
   */
  lemma FrameOnlyDeviceEntries(devs: map<nat, Device>)
    ensures OnlyDeviceEntries(OpsMap(FrameOps(devs, MaxTrackedDeviceCount)), devs)
  {
    var ops := FrameOps(devs, MaxTrackedDeviceCount);
    OpsMapKeys(ops);
    forall p | p in OpsMap(ops)
      ensures exists ix :: ix in devs && DevicePath(devs[ix], p)
    {
      var i :| 0 <= i < |ops| && ops[i].path == p;
      FrameOpPath(devs, MaxTrackedDeviceCount, ops[i]);
    }
  }

  // ---- The loops of postOutputData ----

  /** The assignments of one value kind of a button, written out below device and button names. */
  lemma KindOpsAt(dn: string, b: Button, t: string)
    ensures var ops := Prefixed(dn, Prefixed(b.name, KindOps(b, t)));
      && (!Enabled(b, t) || !(t in TypeOrder) ==> ops == [])
      && (Enabled(b, t) && t == "boolean" ==> ops == [Op([dn, b.name, "boolean"], Bool(b.pressed))])
      && (Enabled(b, t) && t == "pressure" ==> ops == [Op([dn, b.name, "pressure"], Num(b.pressure))])
      && (Enabled(b, t) && t == "2d" ==>
            ops == [Op([dn, b.name, "2d", "x"], Num(b.touchPos.x)), Op([dn, b.name, "2d", "y"], Num(b.touchPos.y))])
  {
    var ops := Prefixed(dn, Prefixed(b.name, KindOps(b, t)));
    if Enabled(b, t) && t == "boolean" {
      assert [dn] + ([b.name] + ["boolean"]) == [dn, b.name, "boolean"];
    } else if Enabled(b, t) && t == "pressure" {
      assert [dn] + ([b.name] + ["pressure"]) == [dn, b.name, "pressure"];
    } else if Enabled(b, t) && t == "2d" {
      assert [dn] + ([b.name] + ["2d", "x"]) == [dn, b.name, "2d", "x"];
      assert [dn] + ([b.name] + ["2d", "y"]) == [dn, b.name, "2d", "y"];
    }
  }

  /** The assignments of one value kind of one button: `j[dn][button][kind...] = value`. */
  method WriteKind(r0: Option<Doc>, dn: string, b: Button, t: string) returns (r: Option<Doc>)
    ensures r == ApplyOpt(r0, Prefixed(dn, Prefixed(b.name, KindOps(b, t))))
  {
    KindOpsAt(dn, b, t);
    ApplyOptEmpty(r0);
    r := r0;
    if Enabled(b, t) {
      if t == "boolean" {
        var o := Op([dn, b.name, "boolean"], Bool(b.pressed));
        r := Step(r, o);
        StepOnly(r0, o);
      } else if t == "pressure" {
        var o := Op([dn, b.name, "pressure"], Num(b.pressure));
        r := Step(r, o);
        StepOnly(r0, o);
      } else if t == "2d" {
        var o1 := Op([dn, b.name, "2d", "x"], Num(b.touchPos.x));
        var o2 := Op([dn, b.name, "2d", "y"], Num(b.touchPos.y));
        r := Step(r, o1);
        StepOnly(r0, o1);
        r := Step(r, o2);
        ApplyOptSnoc(r0, [o1], o2);
        assert [o1] + [o2] == [o1, o2];
      }
    }
  }

  /** The type loop for one button, over val_types in key order. */
  method WriteButton(r0: Option<Doc>, dn: string, b: Button) returns (r: Option<Doc>)
    ensures r == ApplyOpt(r0, Prefixed(dn, ButtonOps(b)))
  {
    r := r0;
    if r0.Some? {
      assert Apply(r0.value, []) == r0;
    }
    for k := 0 to |TypeOrder|
      invariant r == ApplyOpt(r0, Prefixed(dn, Prefixed(b.name, KindsOps(b, k))))
    {
      var t := TypeOrder[k];
      var before := Prefixed(dn, Prefixed(b.name, KindsOps(b, k)));
      var step := Prefixed(dn, Prefixed(b.name, KindOps(b, t)));
      ghost var mid := r;
      r := WriteKind(r, dn, b, t);
      PrefixedConcat(b.name, KindsOps(b, k), KindOps(b, t));
      PrefixedConcat(dn, Prefixed(b.name, KindsOps(b, k)), Prefixed(b.name, KindOps(b, t)));
      ApplyOptConcat(r0, before, step);
    }
  }

  /** The role and pose assignments of one device. */
  function HeaderOps(d: Device): seq<Op>
  {
    Prefixed(d.name, RoleOps(d) + PoseOps(d.pose))
  }

  /** The role and pose assignments of a device, written out. */
  lemma HeaderAt(d: Device)
    ensures var h := HeaderOps(d);
      |h| == 8
      && h[0] == Op([d.name, "role"], Str(RoleEnumToName(d.role)))
      && h[1] == Op([d.name, "pose", "position", "x"], Num(d.pose.pos.x))
      && h[2] == Op([d.name, "pose", "position", "y"], Num(d.pose.pos.y))
      && h[3] == Op([d.name, "pose", "position", "z"], Num(d.pose.pos.z))
      && h[4] == Op([d.name, "pose", "orientation", "x"], Num(d.pose.quat.x))
      && h[5] == Op([d.name, "pose", "orientation", "y"], Num(d.pose.quat.y))
      && h[6] == Op([d.name, "pose", "orientation", "z"], Num(d.pose.quat.z))
      && h[7] == Op([d.name, "pose", "orientation", "w"], Num(d.pose.quat.w))
  {
    var h := HeaderOps(d);
    var rp := RoleOps(d) + PoseOps(d.pose);
    assert [d.name] + rp[0].path == [d.name, "role"];
    assert [d.name] + rp[1].path == [d.name, "pose", "position", "x"];
    assert [d.name] + rp[2].path == [d.name, "pose", "position", "y"];
    assert [d.name] + rp[3].path == [d.name, "pose", "position", "z"];
    assert [d.name] + rp[4].path == [d.name, "pose", "orientation", "x"];
    assert [d.name] + rp[5].path == [d.name, "pose", "orientation", "y"];
    assert [d.name] + rp[6].path == [d.name, "pose", "orientation", "z"];
    assert [d.name] + rp[7].path == [d.name, "pose", "orientation", "w"];
  }

  /** The role assignment of one device. */
  method WriteRole(r0: Option<Doc>, d: Device) returns (r: Option<Doc>)
    ensures r == ApplyOpt(r0, HeaderOps(d)[..1])
  {
    var h := HeaderOps(d);
    HeaderAt(d);
    r := Step(r0, Op([d.name, "role"], Str(RoleEnumToName(d.role))));
    assert h[..1] == [h[0]];
    StepOnly(r0, h[0]);
  }

  /** The position assignments of one device, after its role. */
  method WritePosition(r0: Option<Doc>, d: Device, mid: Option<Doc>) returns (r: Option<Doc>)
    requires mid == ApplyOpt(r0, HeaderOps(d)[..1])
    ensures r == ApplyOpt(r0, HeaderOps(d)[..4])
  {
    var h := HeaderOps(d);
    var p := d.pose;
    HeaderAt(d);
    r := Step(mid, Op([d.name, "pose", "position", "x"], Num(p.pos.x)));
    StepInto(r0, h, 1);
    r := Step(r, Op([d.name, "pose", "position", "y"], Num(p.pos.y)));
    StepInto(r0, h, 2);
    r := Step(r, Op([d.name, "pose", "position", "z"], Num(p.pos.z)));
    StepInto(r0, h, 3);
  }

  /** The orientation assignments of one device, after its role and position. */
  method WriteOrientation(r0: Option<Doc>, d: Device, mid: Option<Doc>) returns (r: Option<Doc>)
    requires mid == ApplyOpt(r0, HeaderOps(d)[..4])
    ensures r == ApplyOpt(r0, HeaderOps(d))
  {
    var h := HeaderOps(d);
    var p := d.pose;
    HeaderAt(d);
    r := Step(mid, Op([d.name, "pose", "orientation", "x"], Num(p.quat.x)));
    StepInto(r0, h, 4);
    r := Step(r, Op([d.name, "pose", "orientation", "y"], Num(p.quat.y)));
    StepInto(r0, h, 5);
    r := Step(r, Op([d.name, "pose", "orientation", "z"], Num(p.quat.z)));
    StepInto(r0, h, 6);
    r := Step(r, Op([d.name, "pose", "orientation", "w"], Num(p.quat.w)));
    StepInto(r0, h, 7);
    assert h[..8] == h;
  }

  /** One more id of the button loop. */
  lemma ButtonsOpsSnoc(h: seq<Op>, bs: map<nat, Button>, ids: seq<nat>, k: nat)
    requires k < |ids|
    ensures h + ButtonsOps(bs, ids[..k + 1])
      == (h + ButtonsOps(bs, ids[..k])) + (if ids[k] in bs then ButtonOps(bs[ids[k]]) else [])
  {
    assert ids[..k + 1][..k] == ids[..k];
  }

  /** The record of one device: role, pose, then the button loop in id order. */
  method WriteDevice(r0: Option<Doc>, d: Device) returns (r: Option<Doc>)
    ensures r == ApplyOpt(r0, DeviceOps(d))
  {
    var h := RoleOps(d) + PoseOps(d.pose);
    var afterRole := WriteRole(r0, d);
    var afterPosition := WritePosition(r0, d, afterRole);
    r := WriteOrientation(r0, d, afterPosition);
    assert h + ButtonsOps(d.buttons, KnownIds[..0]) == h;
    assert Prefixed(d.name, h) == HeaderOps(d);
    for k := 0 to |KnownIds|
      invariant r == ApplyOpt(r0, Prefixed(d.name, h + ButtonsOps(d.buttons, KnownIds[..k])))
    {
      var id := KnownIds[k];
      var front := h + ButtonsOps(d.buttons, KnownIds[..k]);
      var step := if id in d.buttons then ButtonOps(d.buttons[id]) else [];
      ButtonsOpsSnoc(h, d.buttons, KnownIds, k);
      PrefixedConcat(d.name, front, step);
      ApplyOptConcat(r0, Prefixed(d.name, front), Prefixed(d.name, step));
      if id in d.buttons {
        r := WriteButton(r, d.name, d.buttons[id]);
      } else {
        assert Prefixed(d.name, step) == [];
        ApplyOptEmpty(r);
      }
    }
    assert KnownIds[..|KnownIds|] == KnownIds;
  }

  /** The device loop of postOutputData, over the active map in index order. */
  method BuildFrame(devs: map<nat, Device>) returns (r: Option<Doc>)
    ensures r == Apply(map[], FrameOps(devs, MaxTrackedDeviceCount))
  {
    r := Some(map[]);
    for ix := 0 to MaxTrackedDeviceCount
      invariant r == ApplyOpt(Some(map[]), FrameOps(devs, ix))
    {
      var step := if ix in devs then DeviceOps(devs[ix]) else [];
      ApplyOptConcat(Some(map[]), FrameOps(devs, ix), step);
      if ix in devs {
        r := WriteDevice(r, devs[ix]);
      } else if r.Some? {
        assert Apply(r.value, []) == r;
      }
    }
  }
}
