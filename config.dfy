/**
 * The configuration file as readParameters sees it once parsed, the
 * rejection checks it applies, and the inactive devices it builds
 * (src/mimicry_app.cpp:291-420).
 */
module Config {
  import opened Vocabulary
  import opened Tracking
  import opened Devices
  import opened DeviceRegistry
  import opened Text

  /** One entry of a device's "buttons" object: its "name" and its "types" flags. */
  datatype ButtonRecord = ButtonRecord(name: string, types: map<string, bool>)

  /** One "devN" object: "_name", "_track_pose", "_role" and "buttons" keyed by button key. */
  datatype DeviceRecord = DeviceRecord(
    name: string,
    trackPose: bool,
    role: string,
    buttons: map<string, ButtonRecord>)

  /** The parsed parameter file: the five top-level fields and the device objects by key. */
  datatype ParamFile = ParamFile(
    bimanual: bool,
    numDevices: int,
    outAddr: string,
    outPort: int,
    updateFreq: int,
    records: map<string, DeviceRecord>)

  /** VRParams. */
  datatype Params = Params(numDevices: int, bimanual: bool, outAddr: string, outPort: int, updateFreq: int)

  /** `m_params = {}`. */
  const EmptyParams: Params := Params(0, false, "", 0, 0)

  /** The key of the i-th device object: "dev" followed by i in decimal. */
  function DevKey(i: nat): (k: string)
    ensures |k| > 3 && k[..3] == "dev"
  {
    "dev" + NatToString(i)
  }

  /** Distinct devices have distinct keys. */
  lemma DevKeyInjective(i: nat, j: nat)
    ensures DevKey(i) == DevKey(j) ==> i == j
  {
    if DevKey(i) == DevKey(j) {
      assert NatToString(i) == DevKey(i)[3..];
      assert NatToString(j) == DevKey(j)[3..];
      NatToStringInjective(i, j);
    }
  }

  /** The three value kinds a button may publish. */
  predicate IsTypeName(t: string)
  {
    t == "boolean" || t == "pressure" || t == "2d"
  }

  /** Every type key of a button is a known value kind. */
  predicate TypesOk(types: map<string, bool>)
  {
    forall t :: t in types ==> IsTypeName(t)
  }

  /** Every button key is in KEY_TO_ID with valid types, and no two buttons share a name. */
  predicate ButtonsOk(bs: map<string, ButtonRecord>)
  {
    && (forall k :: k in bs ==> k in KeyToId && TypesOk(bs[k].types))
    && (forall k, k' :: k in bs && k' in bs && k != k' ==> bs[k].name != bs[k'].name)
  }

  /** A freshly read button: value-initialised state and the types copied from the file. */
  function BuildButton(id: nat, b: ButtonRecord): (r: Button)
    ensures r.id == id && r.name == b.name && r.valTypes == b.types
    ensures !r.pressed && r.pressure == 0.0 && r.touchPos == Vec2(0.0, 0.0)
  {
    Button(id, b.name, false, 0.0, Vec2(0.0, 0.0), b.types)
  }

  /** The button map of a device, keyed by the OpenVR id of each button key. */
  function BuildButtons(bs: map<string, ButtonRecord>): map<nat, Button>
  {
    ButtonsFrom(bs, 0)
  }

  /** The buttons of the ids KnownIds[j..] whose keys have a record. */
  function ButtonsFrom(bs: map<string, ButtonRecord>, j: nat): map<nat, Button>
    decreases |KnownIds| - j
  {
    if j >= |KnownIds| then map[]
    else
      var id := KnownIds[j];
      var rest := ButtonsFrom(bs, j + 1);
      if IdToKey(id) in bs then rest[id := BuildButton(id, bs[IdToKey(id)])] else rest
  }

  /** ButtonsFrom holds exactly the ids of KnownIds[j..] with a record, each built from its record. */
  lemma {:induction false} ButtonsFromAt(bs: map<string, ButtonRecord>, j: nat)
    requires j <= |KnownIds|
    ensures forall id :: id in ButtonsFrom(bs, j) <==> id in KnownIds && id in KnownIds[j..] && IdToKey(id) in bs
    ensures forall id :: id in ButtonsFrom(bs, j) ==> ButtonsFrom(bs, j)[id] == BuildButton(id, bs[IdToKey(id)])
    decreases |KnownIds| - j
  {
    if j < |KnownIds| {
      ButtonsFromAt(bs, j + 1);
      assert KnownIds[j..] == [KnownIds[j]] + KnownIds[j + 1..];
    }
  }

  /** One id of a device's button map: present exactly when it is known and its key has a record. */
  lemma BuildButtonsAtId(bs: map<string, ButtonRecord>, id: nat)
    ensures id in BuildButtons(bs) <==> id in KnownIds && IdToKey(id) in bs
    ensures id in BuildButtons(bs) ==> BuildButtons(bs)[id] == BuildButton(id, bs[IdToKey(id)])
  {
    BuildButtonsAt(bs);
  }

  /** A device's button map holds exactly the known ids whose keys have a record, each built from it. */
  lemma BuildButtonsAt(bs: map<string, ButtonRecord>)
    ensures forall id :: id in BuildButtons(bs) <==> id in KnownIds && IdToKey(id) in bs
    ensures forall id :: id in BuildButtons(bs) ==> BuildButtons(bs)[id] == BuildButton(id, bs[IdToKey(id)])
  {
    ButtonsFromAt(bs, 0);
    assert KnownIds[0..] == KnownIds;
  }

  /** Every button key lands under its id, and nothing else is in the map. */
  lemma BuildButtonsShape(bs: map<string, ButtonRecord>)
    requires forall k :: k in bs ==> k in KeyToId
    ensures forall k :: k in bs ==>
      (KeyToId[k] in BuildButtons(bs) && BuildButtons(bs)[KeyToId[k]] == BuildButton(KeyToId[k], bs[k]))
    ensures forall id :: id in BuildButtons(bs) ==> id in KnownIds && IdToKey(id) in bs
  {
    BuildButtonsAt(bs);
    forall k | k in bs
      ensures KeyToId[k] in KnownIds && IdToKey(KeyToId[k]) == k
    {
      IdToKeyInverts(k);
    }
  }

  /** Valid button records build a well-formed button map. */
  lemma BuildButtonsWellFormed(bs: map<string, ButtonRecord>)
    requires ButtonsOk(bs)
    ensures WellFormedButtons(BuildButtons(bs))
  {
    var r := BuildButtons(bs);
    BuildButtonsAt(bs);
    forall i, j | i in r && j in r && i != j
      ensures r[i].name != r[j].name
    {
      assert r[i].name == bs[IdToKey(i)].name && r[j].name == bs[IdToKey(j)].name;
      assert KeyToId[IdToKey(i)] == i && KeyToId[IdToKey(j)] == j;
    }
  }

  /** A freshly read device: inactive, zero pose, its buttons built from the record. */
  function BuildDevice(rec: DeviceRecord): (d: Device)
    ensures d.name == rec.name && d.trackPose == rec.trackPose && d.role == RoleNameToEnum(rec.role)
    ensures d.pose == ZeroPose && d.buttons == BuildButtons(rec.buttons)
  {
    Device(rec.name, rec.trackPose, RoleNameToEnum(rec.role), ZeroPose, BuildButtons(rec.buttons))
  }

  /** The first k device objects are present. */
  predicate RecordsPresent(f: ParamFile, k: nat)
  {
    forall i :: 0 <= i < k ==> DevKey(i) in f.records
  }

  /** The i-th device object. */
  function Rec(f: ParamFile, i: nat): DeviceRecord
    requires DevKey(i) in f.records
  {
    f.records[DevKey(i)]
  }

  /** The role the i-th device object declares. */
  function RoleAt(f: ParamFile, i: nat): DeviceRole
    requires DevKey(i) in f.records
  {
    RoleNameToEnum(Rec(f, i).role)
  }

  /**
   * The per-device checks over the first k objects: valid roles and buttons,
   * unique names, and LEFT and RIGHT each declared at most once.
   */
  predicate DevicesOk(f: ParamFile, k: nat)
    requires RecordsPresent(f, k)
  {
    EachOk(f, k) && NamesUnique(f, k) && HandsOnce(f, k)
  }

  /** Each of the first k objects has a valid role and valid buttons. */
  predicate EachOk(f: ParamFile, k: nat)
    requires RecordsPresent(f, k)
  {
    forall i :: 0 <= i < k ==> RoleAt(f, i) != Invalid && ButtonsOk(Rec(f, i).buttons)
  }

  /** The first k objects carry pairwise distinct names. */
  predicate NamesUnique(f: ParamFile, k: nat)
    requires RecordsPresent(f, k)
  {
    forall i, j :: 0 <= i < j < k ==> Rec(f, i).name != Rec(f, j).name
  }

  /** Among the first k objects only TRACKER is declared twice. */
  predicate HandsOnce(f: ParamFile, k: nat)
    requires RecordsPresent(f, k)
  {
    forall i, j :: 0 <= i < j < k && RoleAt(f, i) == RoleAt(f, j) ==> RoleAt(f, i) == Tracker
  }

  /** Some of the first k objects declares the role. */
  predicate Declares(f: ParamFile, k: nat, role: DeviceRole)
    requires RecordsPresent(f, k)
  {
    exists i :: 0 <= i < k && RoleAt(f, i) == role
  }

  /**
   * Everything readParameters demands of a file: a device count in
   * 1..k_unMaxTrackedDeviceCount, at least two devices and both hands when
   * bimanual, and every per-device check on the declared devices.
   */
  predicate ConfigValid(f: ParamFile)
  {
    && 0 < f.numDevices <= MaxTrackedDeviceCount
    && !(f.bimanual && f.numDevices < 2)
    && RecordsPresent(f, f.numDevices)
    && DevicesOk(f, f.numDevices)
    && (f.bimanual ==> Declares(f, f.numDevices, Left) && Declares(f, f.numDevices, Right))
  }

  /** m_inactive_dev after the first k objects were read: each device stored under its name. */
  function Configured(f: ParamFile, k: nat): map<string, Device>
    requires RecordsPresent(f, k)
  {
    if k == 0 then map[] else Configured(f, k - 1)[Rec(f, k - 1).name := BuildDevice(Rec(f, k - 1))]
  }

  /** The configured devices' roles by name. */
  function RolesOf(m: map<string, Device>): (roles: map<string, DeviceRole>)
    ensures roles.Keys == m.Keys && forall n :: n in m ==> roles[n] == m[n].role
  {
    map n | n in m :: m[n].role
  }

  /** Every name in Configured comes from one of the first k objects. */
  lemma {:induction false} ConfiguredFrom(f: ParamFile, k: nat, n: string)
    requires RecordsPresent(f, k) && n in Configured(f, k)
    ensures exists i :: 0 <= i < k && Rec(f, i).name == n && Configured(f, k)[n] == BuildDevice(Rec(f, i))
  {
    var prev := Configured(f, k - 1);
    assert Configured(f, k) == prev[Rec(f, k - 1).name := BuildDevice(Rec(f, k - 1))];
    if Rec(f, k - 1).name != n {
      assert RecordsPresent(f, k - 1) && n in prev;
      ConfiguredFrom(f, k - 1, n);
      var i :| 0 <= i < k - 1 && Rec(f, i).name == n && prev[n] == BuildDevice(Rec(f, i));
      assert Configured(f, k)[n] == prev[n];
    } else {
      assert Configured(f, k)[n] == BuildDevice(Rec(f, k - 1));
    }
  }

  /** With unique names, each of the first k objects is stored, as built, under its name. */
  lemma {:induction false} ConfiguredAt(f: ParamFile, k: nat, i: nat)
    requires RecordsPresent(f, k) && i < k
    requires forall a, b :: 0 <= a < b < k ==> Rec(f, a).name != Rec(f, b).name
    ensures Rec(f, i).name in Configured(f, k) && Configured(f, k)[Rec(f, i).name] == BuildDevice(Rec(f, i))
  {
    var last, rec := Rec(f, k - 1), Rec(f, i);
    var m := Configured(f, k - 1);
    var m' := Configured(f, k);
    assert m' == m[last.name := BuildDevice(last)];
    if i < k - 1 {
      assert RecordsPresent(f, k - 1);
      ConfiguredAt(f, k - 1, i);
      assert rec.name != last.name && rec.name in m && m[rec.name] == BuildDevice(rec);
      assert m'[rec.name] == m[rec.name];
    } else {
      assert rec == last;
    }
  }

  /** A name is configured exactly when one of the first k objects carries it. */
  lemma ConfiguredKeys(f: ParamFile, k: nat, n: string)
    requires RecordsPresent(f, k)
    ensures n in Configured(f, k) <==> exists i :: 0 <= i < k && Rec(f, i).name == n
  {
    if n in Configured(f, k) {
      ConfiguredFrom(f, k, n);
    }
    if exists i :: 0 <= i < k && Rec(f, i).name == n {
      var i :| 0 <= i < k && Rec(f, i).name == n;
      ConfiguredMono(f, i + 1, k);
    }
  }

  /** Reading more objects never drops a name. */
  lemma {:induction false} ConfiguredMono(f: ParamFile, k: nat, k': nat)
    requires RecordsPresent(f, k') && 0 < k <= k'
    ensures Rec(f, k - 1).name in Configured(f, k')
    decreases k' - k
  {
    if k < k' {
      ConfiguredMono(f, k, k' - 1);
    }
  }

  /** The inactive map of an accepted file: its keys are the device names. */
  lemma ConfiguredInactiveOk(f: ParamFile)
    requires ConfigValid(f)
    ensures InactiveOk(Registry(Configured(f, f.numDevices), map[], false, false), RolesOf(Configured(f, f.numDevices)))
  {
    var m := Configured(f, f.numDevices);
    forall n | n in m
      ensures m[n].name == n && WellFormedButtons(m[n].buttons)
    {
      ConfiguredFrom(f, f.numDevices, n);
      var i :| 0 <= i < f.numDevices && Rec(f, i).name == n && m[n] == BuildDevice(Rec(f, i));
      BuildButtonsWellFormed(Rec(f, i).buttons);
    }
  }

  /** An accepted file configures a hand role at most once. */
  lemma ConfiguredAtMostOne(f: ParamFile, role: DeviceRole)
    requires ConfigValid(f) && role != Tracker
    ensures AtMostOne(RolesOf(Configured(f, f.numDevices)), role)
  {
    var m := Configured(f, f.numDevices);
    var roles := RolesOf(m);
    forall a, b | a in roles && b in roles && roles[a] == role && roles[b] == role
      ensures a == b
    {
      ConfiguredFrom(f, f.numDevices, a);
      ConfiguredFrom(f, f.numDevices, b);
      var i :| 0 <= i < f.numDevices && Rec(f, i).name == a && m[a] == BuildDevice(Rec(f, i));
      var j :| 0 <= j < f.numDevices && Rec(f, j).name == b && m[b] == BuildDevice(Rec(f, j));
      assert RoleAt(f, i) == role && RoleAt(f, j) == role;
      OneIndexPerHand(f, i, j, role);
    }
  }

  /** In an accepted file two objects declaring the same hand are the same object. */
  lemma OneIndexPerHand(f: ParamFile, i: nat, j: nat, role: DeviceRole)
    requires ConfigValid(f) && role != Tracker && i < f.numDevices && j < f.numDevices
    requires RoleAt(f, i) == role && RoleAt(f, j) == role
    ensures i == j
  {
    assert HandsOnce(f, f.numDevices);
  }

  /** An accepted file configures LEFT and RIGHT at most once each. */
  lemma ConfiguredRolesOk(f: ParamFile)
    requires ConfigValid(f)
    ensures RolesOk(RolesOf(Configured(f, f.numDevices)))
  {
    ConfiguredAtMostOne(f, Left);
    ConfiguredAtMostOne(f, Right);
  }

  /**
   * The registry an accepted file produces (all devices inactive, no flag
   * set) satisfies the registry invariant over the configured roles.
   */
  lemma ConfiguredValid(f: ParamFile)
    requires ConfigValid(f)
    ensures Valid(Registry(Configured(f, f.numDevices), map[], false, false), RolesOf(Configured(f, f.numDevices)))
  {
    var r := Registry(Configured(f, f.numDevices), map[], false, false);
    ConfiguredInactiveOk(f);
    ConfiguredRolesOk(f);
    assert ActiveNames(r) == {};
    assert !HasActive(r, Left) && !HasActive(r, Right);
  }

  /** An accepted file configures exactly one inactive device per declared object. */
  lemma ConfiguredDevicesMatch(f: ParamFile)
    requires ConfigValid(f)
    ensures forall i :: 0 <= i < f.numDevices ==>
      Rec(f, i).name in Configured(f, f.numDevices) && Configured(f, f.numDevices)[Rec(f, i).name] == BuildDevice(Rec(f, i))
    ensures forall n :: n in Configured(f, f.numDevices) ==> exists i :: 0 <= i < f.numDevices && Rec(f, i).name == n
  {
    forall i | 0 <= i < f.numDevices
      ensures Rec(f, i).name in Configured(f, f.numDevices) && Configured(f, f.numDevices)[Rec(f, i).name] == BuildDevice(Rec(f, i))
    {
      ConfiguredAt(f, f.numDevices, i);
    }
    forall n | n in Configured(f, f.numDevices)
      ensures exists i :: 0 <= i < f.numDevices && Rec(f, i).name == n
    {
      ConfiguredFrom(f, f.numDevices, n);
    }
  }

  /** The checks readParameters makes on the i-th object, in terms of the objects before it. */
  predicate RecordOk(f: ParamFile, i: nat)
    requires RecordsPresent(f, i) && DevKey(i) in f.records
  {
    && Rec(f, i).name !in Configured(f, i)
    && RoleAt(f, i) != Invalid
    && (RoleAt(f, i) == Left ==> !Declares(f, i, Left))
    && (RoleAt(f, i) == Right ==> !Declares(f, i, Right))
    && ButtonsOk(Rec(f, i).buttons)
  }

  /** The state of the device loop of readParameters once the first k objects were accepted. */
  predicate ReadSoFar(f: ParamFile, k: nat, inactive: map<string, Device>, leftConfig: bool, rightConfig: bool)
  {
    && RecordsPresent(f, k) && DevicesOk(f, k)
    && inactive == Configured(f, k)
    && leftConfig == Declares(f, k, Left) && rightConfig == Declares(f, k, Right)
  }

  /** Before the device loop nothing is read: the state of an empty prefix. */
  lemma ReadNothing(f: ParamFile)
    ensures ReadSoFar(f, 0, map[], false, false)
  {
  }

  /** An object that passes its checks extends the accepted prefix by one. */
  lemma ReadAccepts(f: ParamFile, i: nat)
    requires RecordsPresent(f, i) && DevicesOk(f, i) && DevKey(i) in f.records && RecordOk(f, i)
    ensures RecordsPresent(f, i + 1) && DevicesOk(f, i + 1)
    ensures Configured(f, i + 1) == Configured(f, i)[Rec(f, i).name := BuildDevice(Rec(f, i))]
    ensures Declares(f, i + 1, Left) == (Declares(f, i, Left) || RoleAt(f, i) == Left)
    ensures Declares(f, i + 1, Right) == (Declares(f, i, Right) || RoleAt(f, i) == Right)
  {
    PresentNext(f, i);
    ReadAcceptsNames(f, i);
    ReadAcceptsRoles(f, i);
    DeclaresNext(f, i, Left);
    DeclaresNext(f, i, Right);
  }

  lemma PresentNext(f: ParamFile, i: nat)
    requires RecordsPresent(f, i) && DevKey(i) in f.records
    ensures RecordsPresent(f, i + 1)
  {
  }

  lemma ReadAcceptsNames(f: ParamFile, i: nat)
    requires RecordsPresent(f, i + 1) && Rec(f, i).name !in Configured(f, i)
    ensures forall a :: 0 <= a < i ==> Rec(f, a).name != Rec(f, i).name
  {
    forall a | 0 <= a < i
      ensures Rec(f, a).name != Rec(f, i).name
    {
      ConfiguredKeys(f, i, Rec(f, a).name);
    }
  }

  lemma ReadAcceptsRoles(f: ParamFile, i: nat)
    requires RecordsPresent(f, i + 1) && DevicesOk(f, i) && RecordOk(f, i)
    requires forall a :: 0 <= a < i ==> Rec(f, a).name != Rec(f, i).name
    ensures DevicesOk(f, i + 1)
  {
    EachNext(f, i);
    NamesNext(f, i);
    HandsNext(f, i);
  }

  lemma EachNext(f: ParamFile, i: nat)
    requires RecordsPresent(f, i + 1) && EachOk(f, i)
    requires RoleAt(f, i) != Invalid && ButtonsOk(Rec(f, i).buttons)
    ensures EachOk(f, i + 1)
  {
  }

  lemma NamesNext(f: ParamFile, i: nat)
    requires RecordsPresent(f, i + 1) && NamesUnique(f, i)
    requires forall a :: 0 <= a < i ==> Rec(f, a).name != Rec(f, i).name
    ensures NamesUnique(f, i + 1)
  {
    forall a, b | 0 <= a < b < i + 1
      ensures Rec(f, a).name != Rec(f, b).name
    {
      if b < i {
        assert 0 <= a < b < i;
      }
    }
  }

  lemma HandsNext(f: ParamFile, i: nat)
    requires RecordsPresent(f, i + 1) && HandsOnce(f, i)
    requires RoleAt(f, i) != Invalid
    requires RoleAt(f, i) == Left ==> !Declares(f, i, Left)
    requires RoleAt(f, i) == Right ==> !Declares(f, i, Right)
    ensures HandsOnce(f, i + 1)
  {
    forall a, b | 0 <= a < b < i + 1 && RoleAt(f, a) == RoleAt(f, b)
      ensures RoleAt(f, a) == Tracker
    {
      if b == i {
        assert RoleAt(f, i) != Left && RoleAt(f, i) != Right;
      }
    }
  }

  lemma DeclaresNext(f: ParamFile, i: nat, role: DeviceRole)
    requires RecordsPresent(f, i + 1)
    ensures Declares(f, i + 1, role) == (Declares(f, i, role) || RoleAt(f, i) == role)
  {
    if RoleAt(f, i) == role {
      assert Declares(f, i + 1, role);
    }
  }

  /** A missing i-th object rejects the whole file. */
  lemma MissingRejects(f: ParamFile, i: nat)
    requires i < f.numDevices && DevKey(i) !in f.records
    ensures !ConfigValid(f)
  {
  }

  /** An i-th object that fails its checks rejects the whole file. */
  lemma FailedRejects(f: ParamFile, i: nat)
    requires i < f.numDevices && RecordsPresent(f, i) && DevKey(i) in f.records && !RecordOk(f, i)
    ensures !ConfigValid(f)
  {
    var n := f.numDevices;
    if RecordsPresent(f, n) {
      if Rec(f, i).name in Configured(f, i) {
        ConfiguredKeys(f, i, Rec(f, i).name);
        var j :| 0 <= j < i && Rec(f, j).name == Rec(f, i).name;
        assert !DevicesOk(f, n);
      } else if RoleAt(f, i) == Left && Declares(f, i, Left) {
        var j :| 0 <= j < i && RoleAt(f, j) == Left;
        assert !DevicesOk(f, n);
      } else if RoleAt(f, i) == Right && Declares(f, i, Right) {
        var j :| 0 <= j < i && RoleAt(f, j) == Right;
        assert !DevicesOk(f, n);
      } else {
        assert !DevicesOk(f, n);
      }
    }
  }

  /**
   * The type loop of readParameters: every type key is checked against the
   * three value kinds and its flag copied.
   */
  method ReadTypes(types: map<string, bool>) returns (ok: bool, valTypes: map<string, bool>)
    ensures ok <==> TypesOk(types)
    ensures ok ==> valTypes == types
  {
    valTypes := map[];
    var todo := types.Keys;
    while todo != {}
      invariant todo <= types.Keys
      invariant forall t :: t in types && t !in todo ==> IsTypeName(t)
      invariant valTypes.Keys == types.Keys - todo
      invariant forall t :: t in valTypes ==> valTypes[t] == types[t]
      decreases todo
    {
      var t :| t in todo;
      if !IsTypeName(t) {
        return false, valTypes;
      }
      valTypes := valTypes[t := types[t]];
      todo := todo - {t};
    }
    ok := true;
  }

  /**
   * The button loop of readParameters for one device: every key must be in
   * KEY_TO_ID, a button's name must differ from every button already read,
   * and its types must be valid; the buttons are collected by id. Object
   * keys are taken in an unspecified order, which cannot change the verdict.
   */
  method ReadButtons(bs: map<string, ButtonRecord>) returns (ok: bool, buttons: map<nat, Button>)
    ensures ok <==> ButtonsOk(bs)
    ensures ok ==> buttons == BuildButtons(bs)
  {
    buttons := map[];
    var todo := bs.Keys;
    NoButtonsRead(bs);
    while todo != {}
      invariant ButtonsSoFar(bs, todo, buttons)
      decreases todo
    {
      var key :| key in todo;
      ok, buttons := ReadButton(bs, todo, buttons, key);
      if !ok {
        return;
      }
      todo := todo - {key};
    }
    ButtonsAllRead(bs, buttons);
    ok := true;
  }

  /** The loop invariant of ReadButtons: the keys read so far are valid and built. */
  predicate ButtonsSoFar(bs: map<string, ButtonRecord>, todo: set<string>, buttons: map<nat, Button>)
  {
    todo <= bs.Keys && ButtonsOk(Read(bs, todo)) && buttons == BuildButtons(Read(bs, todo))
  }

  /** Before the loop nothing is read and nothing is built. */
  lemma NoButtonsRead(bs: map<string, ButtonRecord>)
    ensures ButtonsSoFar(bs, bs.Keys, map[])
  {
    var none: map<string, ButtonRecord> := map[];
    assert Read(bs, bs.Keys) == none;
    assert BuildButtons(none) == map[] by {
      assert forall id :: id !in BuildButtons(none);
    }
  }

  /** With nothing left to do, the loop has checked and built every button. */
  lemma ButtonsAllRead(bs: map<string, ButtonRecord>, buttons: map<nat, Button>)
    requires ButtonsSoFar(bs, {}, buttons)
    ensures ButtonsOk(bs) && buttons == BuildButtons(bs)
  {
    assert Read(bs, {}) == bs;
  }

  /** One pass of the button loop: the key, the name against earlier names, then the types. */
  method ReadButton(bs: map<string, ButtonRecord>, todo: set<string>, buttons: map<nat, Button>, key: string)
    returns (ok: bool, buttons': map<nat, Button>)
    requires ButtonsSoFar(bs, todo, buttons) && key in todo
    ensures !ok ==> !ButtonsOk(bs)
    ensures ok ==> ButtonsSoFar(bs, todo - {key}, buttons')
  {
    buttons' := buttons;
    if key !in KeyToId {
      return false, buttons;
    }
    var id := KeyToId[key];
    var name := bs[key].name;
    var dup := NameTaken(buttons, name);
    if dup {
      DuplicateRejects(bs, todo, key);
      return false, buttons;
    }
    var typesOk, valTypes := ReadTypes(bs[key].types);
    if !typesOk {
      return false, buttons;
    }
    ButtonsStep(bs, todo, key);
    buttons' := buttons[id := BuildButton(id, bs[key])];
    ok := true;
  }

  /** The button records of the keys read so far: all but those still to do. */
  function Read(bs: map<string, ButtonRecord>, todo: set<string>): (m: map<string, ButtonRecord>)
    ensures m.Keys == bs.Keys - todo
    ensures forall k :: k in m ==> m[k] == bs[k]
  {
    map k | k in bs && k !in todo :: bs[k]
  }

  /** A button whose name an earlier button of the same device already has makes the records invalid. */
  lemma DuplicateRejects(bs: map<string, ButtonRecord>, todo: set<string>, key: string)
    requires key in bs && key in todo && ButtonsOk(Read(bs, todo))
    requires exists id :: id in BuildButtons(Read(bs, todo)) && BuildButtons(Read(bs, todo))[id].name == bs[key].name
    ensures !ButtonsOk(bs)
  {
    var p := Read(bs, todo);
    BuildButtonsAt(p);
    var id :| id in BuildButtons(p) && BuildButtons(p)[id].name == bs[key].name;
    var k := IdToKey(id);
    assert k in p && k != key && bs[k].name == bs[key].name;
  }

  /** Reading one more valid, freshly named button extends the map under its id. */
  lemma ButtonsStep(bs: map<string, ButtonRecord>, todo: set<string>, key: string)
    requires key in bs && key in todo && key in KeyToId && TypesOk(bs[key].types)
    requires ButtonsOk(Read(bs, todo))
    requires !exists id :: id in BuildButtons(Read(bs, todo)) && BuildButtons(Read(bs, todo))[id].name == bs[key].name
    ensures ButtonsOk(Read(bs, todo - {key}))
    ensures BuildButtons(Read(bs, todo - {key}))
         == BuildButtons(Read(bs, todo))[KeyToId[key] := BuildButton(KeyToId[key], bs[key])]
  {
    var p := Read(bs, todo);
    assert Read(bs, todo - {key}) == p[key := bs[key]];
    FreshName(p, bs[key].name);
    ButtonsOkSnoc(p, key, bs[key]);
    BuildButtonsSnoc(p, key, bs[key]);
  }

  /** A name that no built button has is the name of no record. */
  lemma FreshName(p: map<string, ButtonRecord>, name: string)
    requires ButtonsOk(p)
    requires !exists id :: id in BuildButtons(p) && BuildButtons(p)[id].name == name
    ensures forall k :: k in p ==> p[k].name != name
  {
    BuildButtonsShape(p);
    forall k | k in p
      ensures p[k].name != name
    {
      assert KeyToId[k] in BuildButtons(p);
    }
  }

  /** Adding a valid record with a fresh key and a fresh name keeps the records valid. */
  lemma ButtonsOkSnoc(p: map<string, ButtonRecord>, key: string, b: ButtonRecord)
    requires ButtonsOk(p) && key !in p && key in KeyToId && TypesOk(b.types)
    requires forall k :: k in p ==> p[k].name != b.name
    ensures ButtonsOk(p[key := b])
  {
  }

  /** Adding a record under a fresh key adds its button under the key's id. */
  lemma BuildButtonsSnoc(p: map<string, ButtonRecord>, key: string, b: ButtonRecord)
    requires key !in p && key in KeyToId
    ensures BuildButtons(p[key := b]) == BuildButtons(p)[KeyToId[key] := BuildButton(KeyToId[key], b)]
  {
    var q := p[key := b];
    var l, r := BuildButtons(q), BuildButtons(p)[KeyToId[key] := BuildButton(KeyToId[key], b)];
    IdToKeyInverts(key);
    forall id
      ensures (id in l <==> id in r) && (id in l ==> l[id] == r[id])
    {
      BuildButtonsAtId(p, id);
      BuildButtonsAtId(q, id);
      if id in KnownIds {
        KeyOfIdInverts(id);
      }
    }
  }

  /** The duplicate-name scan over the buttons read so far. */
  method NameTaken(buttons: map<nat, Button>, name: string) returns (taken: bool)
    ensures taken <==> exists id :: id in buttons && buttons[id].name == name
  {
    var todo := buttons.Keys;
    while todo != {}
      invariant todo <= buttons.Keys
      invariant forall id :: id in buttons && id !in todo ==> buttons[id].name != name
      decreases todo
    {
      var id :| id in todo;
      if buttons[id].name == name {
        return true;
      }
      todo := todo - {id};
    }
    taken := false;
  }

  /**
   * One pass of the device loop of readParameters over the i-th object, on
   * the inactive map and the two config flags it updates: rejected when the
   * object is missing, reuses a name, repeats LEFT or RIGHT, has an INVALID
   * role or a bad button; otherwise stored inactive under its name.
   */
  method ReadDevice(f: ParamFile, i: nat, inactive: map<string, Device>, leftConfig: bool, rightConfig: bool)
    returns (ok: bool, inactive': map<string, Device>, leftConfig': bool, rightConfig': bool)
    requires i < f.numDevices && ReadSoFar(f, i, inactive, leftConfig, rightConfig)
    ensures !ok ==> !ConfigValid(f)
    ensures ok ==> ReadSoFar(f, i + 1, inactive', leftConfig', rightConfig')
  {
    inactive', leftConfig', rightConfig' := inactive, leftConfig, rightConfig;
    var key := DevKey(i);
    if key !in f.records {
      MissingRejects(f, i);
      return false, inactive', leftConfig', rightConfig';
    }
    var rec := f.records[key];
    var role := RoleNameToEnum(rec.role);
    if rec.name in inactive {
      FailedRejects(f, i);
      return false, inactive', leftConfig', rightConfig';
    }
    if role == Left {
      if leftConfig {
        FailedRejects(f, i);
        return false, inactive', leftConfig', rightConfig';
      }
      leftConfig' := true;
    } else if role == Right {
      if rightConfig {
        FailedRejects(f, i);
        return false, inactive', leftConfig', rightConfig';
      }
      rightConfig' := true;
    } else if role == Invalid {
      FailedRejects(f, i);
      return false, inactive', leftConfig', rightConfig';
    }
    var buttonsOk, buttons := ReadButtons(rec.buttons);
    if !buttonsOk {
      FailedRejects(f, i);
      return false, inactive', leftConfig', rightConfig';
    }
    ReadAccepts(f, i);
    inactive' := inactive[rec.name := Device(rec.name, rec.trackPose, role, ZeroPose, buttons)];
    ok := true;
  }

  /**
   * The device loop of readParameters: the declared objects in order from an
   * empty inactive map, stopping at the first rejected one.
   */
  method ReadDevices(f: ParamFile) returns (ok: bool, inactive: map<string, Device>, leftConfig: bool, rightConfig: bool)
    requires 0 < f.numDevices
    ensures !ok ==> !ConfigValid(f)
    ensures ok ==> ReadSoFar(f, f.numDevices, inactive, leftConfig, rightConfig)
  {
    inactive, leftConfig, rightConfig := map[], false, false;
    ReadNothing(f);
    var n: nat := f.numDevices;
    for i := 0 to n
      invariant ReadSoFar(f, i, inactive, leftConfig, rightConfig)
    {
      var deviceOk;
      deviceOk, inactive, leftConfig, rightConfig := ReadDevice(f, i, inactive, leftConfig, rightConfig);
      if !deviceOk {
        return false, inactive, leftConfig, rightConfig;
      }
    }
    ok := true;
  }

  /** The device loop of readParameters followed by its bimanual check. */
  method ReadConfig(f: ParamFile) returns (ok: bool, inactive: map<string, Device>, leftConfig: bool, rightConfig: bool)
    requires 0 < f.numDevices <= MaxTrackedDeviceCount && !(f.bimanual && f.numDevices < 2)
    ensures ok <==> ConfigValid(f)
    ensures ok ==> inactive == Configured(f, f.numDevices)
    ensures ok ==> leftConfig == Declares(f, f.numDevices, Left) && rightConfig == Declares(f, f.numDevices, Right)
  {
    ok, inactive, leftConfig, rightConfig := ReadDevices(f);
    if ok && f.bimanual && (!leftConfig || !rightConfig) {
      ok := false;
    }
  }
}
