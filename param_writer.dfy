/**
 * The configuration-file writer (src/param_writer.cpp) without its
 * terminal: the role answer, the list of value types typed for a button,
 * the yes/no pass over the seven buttons, and the JSON document written to
 * params.json. The records are those of include/mimicry_openvr/param_info.hpp.
 */
module ParamWriter {
  import opened Wrappers
  import opened Vocabulary
  import opened Text
  import opened Entry
  import opened Frame
  import Config

  // ---- param_info.hpp ----

  /** ButtonInfo::BUT_NUM. */
  const ButNum: nat := 7

  /** ButtonInfo::BUT_NAMES, indexed by ButtonID. */
  const ButNames: seq<string> := ["APP_MENU", "GRIP", "AXIS0", "AXIS1", "AXIS2", "AXIS3", "AXIS4"]

  /** ButtonInfo::BUT_TYPE_NAMES, indexed by ButtonType. */
  const ButTypeNames: seq<string> := ["boolean", "pressure", "2d"]

  /** ButtonInfo::ButtonID: APP_MENU = 0, ..., AXIS4 = 6. */
  type ButtonId = x: nat | x < 7

  /** ButtonInfo::val_types: one flag per value type. */
  type TypeFlags = s: seq<bool> | |s| == 3 witness [false, false, false]

  /** val_types as value-initialised: no type chosen. */
  const NoTypes: TypeFlags := [false, false, false]

  /** ButtonInfo. */
  datatype ButtonInfo = ButtonInfo(name: string, id: ButtonId, configured: bool, valTypes: TypeFlags)

  /** DeviceInfo. */
  datatype DeviceInfo = DeviceInfo(name: string, trackPose: bool, role: DeviceRole, buttons: seq<ButtonInfo>)

  /** ParamList. */
  datatype ParamList = ParamList(numDevices: int, allRequired: bool, updateFreq: int, devices: seq<DeviceInfo>)

  /** Every button name the writer can emit is a key the runtime's KEY_TO_ID knows, and no two coincide. */
  lemma ButtonNamesAreKeys()
    ensures forall k :: 0 <= k < ButNum ==> ButNames[k] in KeyToId
    ensures forall k, l :: 0 <= k < ButNum && 0 <= l < ButNum && k != l ==> ButNames[k] != ButNames[l]
  {
  }

  // ---- checkRole and roleEnumToName ----

  /**
   * checkRole: the role for a menu answer 1, 2 or 3. Its only caller passes
   * an answer promptUser accepted as an integer of at most 3; any other value
   * would leave the role uninitialised.
   */
  function CheckRole(entry: string): (r: DeviceRole)
    requires Accepts(entry, IntegerEntry, 3)
    ensures r == Left <==> DecimalValue(entry) == 1
    ensures r == Right <==> DecimalValue(entry) == 2
    ensures r == Tracker <==> DecimalValue(entry) == 3
  {
    var v := DecimalValue(entry);
    if v == 1 then Left else if v == 2 then Right else Tracker
  }

  /** The writer's own roleEnumToName: as the runtime's for the three roles, but "" for INVALID. */
  function WriterRoleName(role: DeviceRole): (s: string)
    ensures role != Invalid ==> s == RoleEnumToName(role)
    ensures role == Invalid ==> s == ""
  {
    match role
    case Left => "left"
    case Right => "right"
    case Tracker => "tracker"
    case Invalid => ""
  }

  /** The runtime's roleNameToEnum reads back every role name the writer emits, INVALID's "" included. */
  lemma WriterRoleReadBack(role: DeviceRole)
    ensures RoleNameToEnum(WriterRoleName(role)) == role
  {
  }

  /** A role chosen from the menu is never INVALID and is written and read back unchanged. */
  lemma ChosenRoleReadBack(entry: string)
    requires Accepts(entry, IntegerEntry, 3)
    ensures CheckRole(entry) != Invalid
    ensures RoleNameToEnum(WriterRoleName(CheckRole(entry))) == CheckRole(entry)
    ensures WriterRoleName(CheckRole(entry)) in {"left", "right", "tracker"}
  {
    WriterRoleReadBack(CheckRole(entry));
  }

  // ---- The type list of promptButtonTypes ----

  /** A character that may separate the type numbers. */
  predicate IsSeparator(c: char)
  {
    IsSpace(c) || c == ','
  }

  /**
   * Where the parse stops: a digit followed by something other than a
   * separator, a digit outside 1..3, or any other character that is not a
   * separator.
   */
  predicate BadAt(e: string, i: nat)
    requires i < |e|
  {
    if IsDigit(e[i]) then
      (i + 1 < |e| && !IsSeparator(e[i + 1])) || DigitValue(e[i]) == 0 || DigitValue(e[i]) > 3
    else !IsSeparator(e[i])
  }

  /** The first position from i on where the parse stops, or the end. */
  function StopFrom(e: string, i: nat): (n: nat)
    requires i <= |e|
    ensures i <= n <= |e|
    decreases |e| - i
  {
    if i == |e| then |e| else if BadAt(e, i) then i else StopFrom(e, i + 1)
  }

  /** The first position where the parse stops, or the end. */
  function Stop(e: string): nat
  {
    StopFrom(e, 0)
  }

  /** Some character before n is a digit. */
  predicate DigitBefore(e: string, n: nat)
    requires n <= |e|
  {
    exists i :: 0 <= i < n && IsDigit(e[i])
  }

  /** Type k (0-based) is named by a digit before n. */
  predicate Marks(e: string, n: nat, k: nat)
    requires n <= |e|
  {
    exists i :: 0 <= i < n && IsDigit(e[i]) && DigitValue(e[i]) == k + 1
  }

  /**
   * One attempt of promptButtonTypes's parse of a (lower-cased) answer. Each
   * accepted digit d sets val_types[d - 1]; the first bad position ends the
   * attempt as invalid, keeping the flags set before it; an answer with no
   * bad position is valid when it names at least one type.
   */
  method ParseTypes(entry: string, valTypes: TypeFlags) returns (valid: bool, valTypes': TypeFlags)
    ensures valid <==> Stop(entry) == |entry| && DigitBefore(entry, |entry|)
    ensures forall k :: 0 <= k < 3 ==> valTypes'[k] == (valTypes[k] || Marks(entry, Stop(entry), k))
  {
    valid, valTypes' := false, valTypes;
    var i := 0;
    while i < |entry|
      invariant i <= |entry| && Stop(entry) == StopFrom(entry, i)
      invariant valid <==> DigitBefore(entry, i)
      invariant forall k :: 0 <= k < 3 ==> valTypes'[k] == (valTypes[k] || Marks(entry, i, k))
    {
      var c := entry[i];
      ParseStep(entry, i);
      if IsDigit(c) {
        if i + 1 < |entry| && !IsSpace(entry[i + 1]) && entry[i + 1] != ',' {
          return false, valTypes';
        }
        var val := DigitValue(c);
        if val == 0 || val > 3 {
          return false, valTypes';
        }
        valTypes' := valTypes'[val - 1 := true];
        valid := true;
      } else if IsSpace(c) || c == ',' {
      } else {
        return false, valTypes';
      }
      i := i + 1;
    }
  }

  /** Moving past position i: what the parse has seen grows by that one character. */
  lemma ParseStep(e: string, i: nat)
    requires i < |e|
    ensures DigitBefore(e, i + 1) <==> DigitBefore(e, i) || IsDigit(e[i])
    ensures forall k: nat :: Marks(e, i + 1, k) <==> Marks(e, i, k) || (IsDigit(e[i]) && DigitValue(e[i]) == k + 1)
    ensures !BadAt(e, i) ==> StopFrom(e, i) == StopFrom(e, i + 1)
    ensures BadAt(e, i) ==> StopFrom(e, i) == i
  {
    forall k: nat | Marks(e, i + 1, k)
      ensures Marks(e, i, k) || (IsDigit(e[i]) && DigitValue(e[i]) == k + 1)
    {
      var j :| 0 <= j < i + 1 && IsDigit(e[j]) && DigitValue(e[j]) == k + 1;
      if j < i {
        assert Marks(e, i, k);
      }
    }
  }

  /** A character an accepted list may hold: a digit 1..3 followed by the end or a separator, or a separator. */
  predicate GoodAt(e: string, i: nat)
    requires i < |e|
  {
    if IsDigit(e[i]) then 1 <= DigitValue(e[i]) <= 3 && (i + 1 == |e| || IsSeparator(e[i + 1]))
    else IsSeparator(e[i])
  }

  /** The accepted type lists in plain words: at least one digit, and every character good. */
  predicate TypeListOk(e: string)
  {
    DigitBefore(e, |e|) && forall i :: 0 <= i < |e| ==> GoodAt(e, i)
  }

  /** The parse runs to the end exactly when no position from i on is bad. */
  lemma {:induction false} StopFromEnd(e: string, i: nat)
    requires i <= |e|
    ensures StopFrom(e, i) == |e| <==> forall j :: i <= j < |e| ==> !BadAt(e, j)
    decreases |e| - i
  {
    if i < |e| {
      StopFromEnd(e, i + 1);
    }
  }

  /**
   * An answer is valid exactly when it has a digit, every digit is 1..3 and
   * followed by the end or a separator, and every other character is a
   * separator. A valid answer chooses at least one type.
   */
  lemma TypesVerdict(e: string)
    ensures Stop(e) == |e| && DigitBefore(e, |e|) <==> TypeListOk(e)
    ensures TypeListOk(e) ==> exists k: nat :: k < 3 && Marks(e, |e|, k)
  {
    StopFromEnd(e, 0);
    forall j | 0 <= j < |e|
      ensures !BadAt(e, j) <==> GoodAt(e, j)
    {
    }
    if TypeListOk(e) {
      var i :| 0 <= i < |e| && IsDigit(e[i]);
      assert GoodAt(e, i);
      assert Marks(e, |e|, DigitValue(e[i]) - 1);
    }
  }

  // ---- promptButtons ----

  /**
   * The answers given while one button is set up: the yes/no answer, and for
   * a yes the custom name and the types promptUser and promptButtonTypes
   * returned.
   */
  datatype Reply = Reply(answer: string, name: string, types: TypeFlags)

  /** A button answered with no: only `configured` is set; its id is left indeterminate (0 here). */
  const Unconfigured: ButtonInfo := ButtonInfo("", 0, false, NoTypes)

  /**
   * The buttons pushed while the replies are consumed from button i on: a
   * yes configures button i, a no leaves it unconfigured, a "q" ends the
   * tool, and any other answer asks for button i again.
   */
  function Collected(rs: seq<Reply>, i: nat): seq<ButtonInfo>
    decreases |rs|
  {
    if i >= ButNum || rs == [] then []
    else if CheckTrue(rs[0].answer) then [ButtonInfo(rs[0].name, i, true, rs[0].types)] + Collected(rs[1..], i + 1)
    else if CheckFalse(rs[0].answer) then [Unconfigured] + Collected(rs[1..], i + 1)
    else if CheckHelp(rs[0].answer) == Quit then []
    else Collected(rs[1..], i)
  }

  /** The yes or no answers before the first "q". */
  function Decided(rs: seq<Reply>): nat
    decreases |rs|
  {
    if rs == [] then 0
    else if CheckTrue(rs[0].answer) || CheckFalse(rs[0].answer) then 1 + Decided(rs[1..])
    else if CheckHelp(rs[0].answer) == Quit then 0
    else Decided(rs[1..])
  }

  function Min(a: nat, b: nat): nat
  {
    if a <= b then a else b
  }

  /**
   * promptButtons: one button after another, each pushed once its yes/no
   * answer is given, until all seven are set up (or the replies end, or the
   * user quits). It reports whether all seven were set up.
   */
  method PromptButtons(dev: DeviceInfo, replies: seq<Reply>) returns (dev': DeviceInfo, finished: bool)
    ensures dev' == dev.(buttons := dev.buttons + Collected(replies, 0))
    ensures finished <==> |Collected(replies, 0)| == ButNum
  {
    var i, used, quit := 0, 0, false;
    var added: seq<ButtonInfo> := [];
    while i < ButNum && used < |replies| && !quit
      invariant i <= ButNum && used <= |replies| && |added| == i
      invariant !quit ==> added + Collected(replies[used..], i) == Collected(replies, 0)
      invariant quit ==> added == Collected(replies, 0)
      decreases |replies| - used
    {
      var r := replies[used];
      PromptStep(replies, used, i, added);
      used := used + 1;
      if CheckTrue(r.answer) {
        added := added + [ButtonInfo(r.name, i, true, r.types)];
        i := i + 1;
      } else if CheckFalse(r.answer) {
        added := added + [Unconfigured];
        i := i + 1;
      } else if CheckHelp(r.answer) == Quit {
        quit := true;
      }
    }
    if !quit {
      assert Collected(replies[used..], i) == [];
    }
    dev' := dev.(buttons := dev.buttons + added);
    finished := i == ButNum;
  }

  /** One reply of promptButtons' loop: what it pushes, and what remains to be collected. */
  lemma PromptStep(rs: seq<Reply>, used: nat, i: nat, added: seq<ButtonInfo>)
    requires used < |rs| && i < ButNum && added + Collected(rs[used..], i) == Collected(rs, 0)
    ensures var a := rs[used].answer;
      && (CheckTrue(a) ==>
            (added + [ButtonInfo(rs[used].name, i, true, rs[used].types)]) + Collected(rs[used + 1..], i + 1) == Collected(rs, 0))
      && (!CheckTrue(a) && CheckFalse(a) ==> (added + [Unconfigured]) + Collected(rs[used + 1..], i + 1) == Collected(rs, 0))
      && (!CheckTrue(a) && !CheckFalse(a) && CheckHelp(a) == Quit ==> added == Collected(rs, 0))
      && (!CheckTrue(a) && !CheckFalse(a) && CheckHelp(a) != Quit ==> added + Collected(rs[used + 1..], i) == Collected(rs, 0))
  {
    assert rs[used..][1..] == rs[used + 1..];
    var a := rs[used].answer;
    if CheckTrue(a) {
      var b := [ButtonInfo(rs[used].name, i, true, rs[used].types)];
      assert (added + b) + Collected(rs[used + 1..], i + 1) == added + (b + Collected(rs[used + 1..], i + 1));
    } else if CheckFalse(a) {
      assert (added + [Unconfigured]) + Collected(rs[used + 1..], i + 1) == added + ([Unconfigured] + Collected(rs[used + 1..], i + 1));
    } else if CheckHelp(a) == Quit {
      assert added + [] == added;
    }
  }

  /**
   * The buttons collected from button i on: one per yes or no answer, up to
   * the seven buttons; entry k is button i + k, and a configured one carries
   * that id.
   */
  lemma {:induction false} CollectedShape(rs: seq<Reply>, i: nat)
    requires i <= ButNum
    ensures |Collected(rs, i)| == Min(ButNum - i, Decided(rs))
    ensures forall k :: 0 <= k < |Collected(rs, i)| && Collected(rs, i)[k].configured ==> Collected(rs, i)[k].id == i + k
    decreases |rs|
  {
    if i < ButNum && rs != [] {
      CollectedShape(rs[1..], if CheckTrue(rs[0].answer) || CheckFalse(rs[0].answer) then i + 1 else i);
    }
  }

  /** Once seven yes or no answers are given, promptButtons has pushed exactly one entry per button, in button order. */
  lemma SevenAnswersFinish(rs: seq<Reply>)
    requires Decided(rs) >= ButNum
    ensures |Collected(rs, 0)| == ButNum
    ensures forall k :: 0 <= k < ButNum && Collected(rs, 0)[k].configured ==> Collected(rs, 0)[k].id == k
  {
    CollectedShape(rs, 0);
  }

  // ---- outputToFile ----

  /** The three top-level keys of params.json, in the order they are written. */
  const TopKeys: seq<string> := ["_num_devices", "_update_freq", "_all_required"]

  /** The top-level assignments: `j["_num_devices"]`, `j["_update_freq"]`, `j["_all_required"]`. */
  function TopOps(params: ParamList): seq<Op>
  {
    [Op(["_num_devices"], Int(params.numDevices)),
     Op(["_update_freq"], Int(params.updateFreq)),
     Op(["_all_required"], Bool(params.allRequired))]
  }

  /** A button's record below its button name: its custom name, then one flag per value type. */
  function ButtonBody(b: ButtonInfo): seq<Op>
  {
    [Op(["name"], Str(b.name)),
     Op(["types", ButTypeNames[0]], Bool(b.valTypes[0])),
     Op(["types", ButTypeNames[1]], Bool(b.valTypes[1])),
     Op(["types", ButTypeNames[2]], Bool(b.valTypes[2]))]
  }

  /** One button's assignments below "buttons": none when it is not configured. */
  function ButtonOps(b: ButtonInfo): seq<Op>
  {
    if b.configured then Prefixed(ButNames[b.id], ButtonBody(b)) else []
  }

  /** The buttons' assignments, in the order the device lists them. */
  function ButtonsOps(bs: seq<ButtonInfo>): seq<Op>
  {
    if bs == [] then [] else ButtonsOps(bs[..|bs| - 1]) + ButtonOps(bs[|bs| - 1])
  }

  /** A device's name, pose flag and role, below its "devN" key. */
  function HeaderBody(d: DeviceInfo): seq<Op>
  {
    [Op(["_name"], Str(d.name)),
     Op(["_pose"], Bool(d.trackPose)),
     Op(["_role"], Str(WriterRoleName(d.role)))]
  }

  /** A device's record below its "devN" key. */
  function DeviceBody(d: DeviceInfo): seq<Op>
  {
    HeaderBody(d) + Prefixed("buttons", ButtonsOps(d.buttons))
  }

  /** The i-th device's assignments. */
  function DeviceOps(i: nat, d: DeviceInfo): seq<Op>
  {
    Prefixed(Config.DevKey(i), DeviceBody(d))
  }

  /** The assignments of the first k devices. */
  function DevicesOps(ds: seq<DeviceInfo>, k: nat): seq<Op>
    requires k <= |ds|
  {
    if k == 0 then [] else DevicesOps(ds, k - 1) + DeviceOps(k - 1, ds[k - 1])
  }

  /** Every assignment outputToFile makes, in program order. */
  function WriterOps(params: ParamList): seq<Op>
  {
    TopOps(params) + DevicesOps(params.devices, |params.devices|)
  }

  /** A button's assignments, written out in full below its device's key. */
  lemma ButtonAt(dk: string, b: ButtonInfo)
    requires b.configured
    ensures var ops := Prefixed(dk, Prefixed("buttons", ButtonOps(b)));
      var bk := ButNames[b.id];
      |ops| == 4
      && ops[0] == Op([dk, "buttons", bk, "name"], Str(b.name))
      && forall v :: 0 <= v < 3 ==> ops[v + 1] == Op([dk, "buttons", bk, "types", ButTypeNames[v]], Bool(b.valTypes[v]))
  {
    var bk := ButNames[b.id];
    var body := ButtonBody(b);
    assert [dk] + (["buttons"] + ([bk] + body[0].path)) == [dk, "buttons", bk, "name"];
    forall v | 0 <= v < 3
      ensures [dk] + (["buttons"] + ([bk] + body[v + 1].path)) == [dk, "buttons", bk, "types", ButTypeNames[v]]
    {
    }
  }

  /** The inner loop for one button: skipped unless configured, then its name and one flag per type. */
  method WriteButton(r0: Option<Doc>, dk: string, b: ButtonInfo) returns (r: Option<Doc>)
    ensures r == ApplyOpt(r0, Prefixed(dk, Prefixed("buttons", ButtonOps(b))))
  {
    ghost var ops := Prefixed(dk, Prefixed("buttons", ButtonOps(b)));
    if !b.configured {
      ApplyOptEmpty(r0);
      return r0;
    }
    var bk := ButNames[b.id];
    ButtonAt(dk, b);
    r := Step(r0, Op([dk, "buttons", bk, "name"], Str(b.name)));
    StepOnly(r0, ops[0]);
    assert ops[..1] == [ops[0]];
    for v := 0 to 3
      invariant r == ApplyOpt(r0, ops[..v + 1])
    {
      r := Step(r, Op([dk, "buttons", bk, "types", ButTypeNames[v]], Bool(b.valTypes[v])));
      StepInto(r0, ops, v + 1);
    }
    assert ops[..4] == ops;
  }

  /** The device header, written out in full. */
  lemma HeaderAt(dk: string, d: DeviceInfo)
    ensures var h := Prefixed(dk, HeaderBody(d));
      |h| == 3
      && h[0] == Op([dk, "_name"], Str(d.name))
      && h[1] == Op([dk, "_pose"], Bool(d.trackPose))
      && h[2] == Op([dk, "_role"], Str(WriterRoleName(d.role)))
  {
    var hb := HeaderBody(d);
    assert [dk] + hb[0].path == [dk, "_name"];
    assert [dk] + hb[1].path == [dk, "_pose"];
    assert [dk] + hb[2].path == [dk, "_role"];
  }

  /** The device's name assignment. */
  method WriteName(r0: Option<Doc>, dk: string, d: DeviceInfo) returns (r: Option<Doc>)
    ensures r == ApplyOpt(r0, Prefixed(dk, HeaderBody(d))[..1])
  {
    ghost var h := Prefixed(dk, HeaderBody(d));
    HeaderAt(dk, d);
    r := Step(r0, Op([dk, "_name"], Str(d.name)));
    StepOnly(r0, h[0]);
    assert h[..1] == [h[0]];
  }

  /** The header assignments of one device: its name, pose flag and role. */
  method WriteHeader(r0: Option<Doc>, dk: string, d: DeviceInfo) returns (r: Option<Doc>)
    ensures r == ApplyOpt(r0, Prefixed(dk, HeaderBody(d)))
  {
    ghost var h := Prefixed(dk, HeaderBody(d));
    r := WriteName(r0, dk, d);
    HeaderAt(dk, d);
    r := Step(r, Op([dk, "_pose"], Bool(d.trackPose)));
    StepInto(r0, h, 1);
    r := Step(r, Op([dk, "_role"], Str(WriterRoleName(d.role))));
    StepInto(r0, h, 2);
    assert h[..3] == h;
  }

  /** The buttons of the first k + 1 entries: those of the first k, then entry k's. */
  lemma ButtonsOpsSnoc(bs: seq<ButtonInfo>, k: nat)
    requires k < |bs|
    ensures ButtonsOps(bs[..k + 1]) == ButtonsOps(bs[..k]) + ButtonOps(bs[k])
  {
    assert bs[..k + 1][..k] == bs[..k];
  }

  /** A device's record up to its first k buttons. */
  function DevicePart(d: DeviceInfo, k: nat): seq<Op>
    requires k <= |d.buttons|
  {
    HeaderBody(d) + Prefixed("buttons", ButtonsOps(d.buttons[..k]))
  }

  /** Before the button loop the record is the header; after it, the whole body. */
  lemma DevicePartEnds(d: DeviceInfo)
    ensures DevicePart(d, 0) == HeaderBody(d)
    ensures DevicePart(d, |d.buttons|) == DeviceBody(d)
  {
    assert d.buttons[..0] == [];
    assert HeaderBody(d) + [] == HeaderBody(d);
    assert d.buttons[..|d.buttons|] == d.buttons;
  }

  /** Writing button k after the first k extends the record by that button's block. */
  lemma DevicePartStep(r0: Option<Doc>, dk: string, d: DeviceInfo, k: nat)
    requires k < |d.buttons|
    ensures ApplyOpt(ApplyOpt(r0, Prefixed(dk, DevicePart(d, k))), Prefixed(dk, Prefixed("buttons", ButtonOps(d.buttons[k]))))
         == ApplyOpt(r0, Prefixed(dk, DevicePart(d, k + 1)))
  {
    var before := DevicePart(d, k);
    var step := Prefixed("buttons", ButtonOps(d.buttons[k]));
    DevicePartSnoc(d, k);
    PrefixedConcat(dk, before, step);
    ApplyOptConcat(r0, Prefixed(dk, before), Prefixed(dk, step));
  }

  /** The record up to k + 1 buttons is the record up to k, then button k's block. */
  lemma DevicePartSnoc(d: DeviceInfo, k: nat)
    requires k < |d.buttons|
    ensures DevicePart(d, k + 1) == DevicePart(d, k) + Prefixed("buttons", ButtonOps(d.buttons[k]))
  {
    ButtonsOpsSnoc(d.buttons, k);
    PrefixedConcat("buttons", ButtonsOps(d.buttons[..k]), ButtonOps(d.buttons[k]));
  }

  /** One pass of the device loop: the header, then every button of the device in order. */
  method WriteDevice(r0: Option<Doc>, i: nat, d: DeviceInfo) returns (r: Option<Doc>)
    ensures r == ApplyOpt(r0, DeviceOps(i, d))
  {
    var dk := Config.DevKey(i);
    r := WriteHeader(r0, dk, d);
    DevicePartEnds(d);
    for k := 0 to |d.buttons|
      invariant r == ApplyOpt(r0, Prefixed(dk, DevicePart(d, k)))
    {
      r := WriteButton(r, dk, d.buttons[k]);
      DevicePartStep(r0, dk, d, k);
    }
  }

  /** The first top-level assignment, `j["_num_devices"]`. */
  method WriteCount(r0: Option<Doc>, params: ParamList) returns (r: Option<Doc>)
    ensures r == ApplyOpt(r0, TopOps(params)[..1])
  {
    ghost var t := TopOps(params);
    r := Step(r0, Op(["_num_devices"], Int(params.numDevices)));
    StepOnly(r0, t[0]);
    assert t[..1] == [t[0]];
  }

  /** The top-level assignments, written out. */
  method WriteTop(r0: Option<Doc>, params: ParamList) returns (r: Option<Doc>)
    ensures r == ApplyOpt(r0, TopOps(params))
  {
    ghost var t := TopOps(params);
    r := WriteCount(r0, params);
    r := Step(r, Op(["_update_freq"], Int(params.updateFreq)));
    StepInto(r0, t, 1);
    r := Step(r, Op(["_all_required"], Bool(params.allRequired)));
    StepInto(r0, t, 2);
    assert t[..3] == t;
  }

  /** The device loop of outputToFile: each device in order under "dev0", "dev1", ... */
  method WriteDevices(r0: Option<Doc>, ds: seq<DeviceInfo>) returns (r: Option<Doc>)
    ensures r == ApplyOpt(r0, DevicesOps(ds, |ds|))
  {
    r := r0;
    ApplyOptEmpty(r0);
    for i := 0 to |ds|
      invariant r == ApplyOpt(r0, DevicesOps(ds, i))
    {
      r := WriteDevice(r, i, ds[i]);
      ApplyOptConcat(r0, DevicesOps(ds, i), DeviceOps(i, ds[i]));
    }
  }

  /**
   * outputToFile, up to the dump: the top-level values, then the devices;
   * the result is the document written to params.json, or None where an
   * assignment would throw.
   */
  method OutputToFile(params: ParamList) returns (doc: Option<Doc>)
    ensures doc == Apply(map[], WriterOps(params))
  {
    var r0: Option<Doc> := Some(map[]);
    doc := WriteTop(r0, params);
    doc := WriteDevices(doc, params.devices);
    ApplyOptConcat(r0, TopOps(params), DevicesOps(params.devices, |params.devices|));
  }

  // ---- What params.json holds ----

  /** No two configured buttons of a device share an id, as promptButtons guarantees. */
  predicate DistinctConfigured(bs: seq<ButtonInfo>)
  {
    forall a, b :: 0 <= a < b < |bs| && bs[a].configured && bs[b].configured ==> bs[a].id != bs[b].id
  }

  /** The button names of the configured buttons. */
  function ConfiguredNames(bs: seq<ButtonInfo>): set<string>
  {
    set k | 0 <= k < |bs| && bs[k].configured :: ButNames[bs[k].id]
  }

  /** The "devN" keys of the first k devices. */
  function DevKeys(k: nat): set<string>
  {
    set i | 0 <= i < k :: Config.DevKey(i)
  }

  /** Buttons configured through promptButtons carry distinct ids. */
  lemma CollectedDistinct(rs: seq<Reply>)
    ensures DistinctConfigured(Collected(rs, 0))
  {
    CollectedShape(rs, 0);
  }

  lemma ButtonBodyShape(b: ButtonInfo)
    ensures PrefixFree(ButtonBody(b)) && HeadsIn(ButtonBody(b), {"name", "types"})
  {
    var ops := ButtonBody(b);
    forall i, j | 0 <= i < |ops| && 0 <= j < |ops| && i != j
      ensures Incomparable(ops[i].path, ops[j].path)
    {
      if ops[i].path[0] != ops[j].path[0] {
        DifferAt(ops[i].path, ops[j].path, 0);
      } else {
        DifferAt(ops[i].path, ops[j].path, 1);
      }
    }
  }

  lemma ButtonOpsShape(b: ButtonInfo)
    ensures PrefixFree(ButtonOps(b))
    ensures HeadsIn(ButtonOps(b), if b.configured then {ButNames[b.id]} else {})
  {
    if b.configured {
      ButtonBodyShape(b);
      PrefixedPrefixFree(ButNames[b.id], ButtonBody(b));
      PrefixedHeads(ButNames[b.id], ButtonBody(b));
    }
  }

  /** The configured names grow by the last button's name when it is configured. */
  lemma ConfiguredNamesSnoc(bs: seq<ButtonInfo>)
    requires bs != []
    ensures ConfiguredNames(bs) == ConfiguredNames(bs[..|bs| - 1])
      + (if bs[|bs| - 1].configured then {ButNames[bs[|bs| - 1].id]} else {})
  {
    var front := bs[..|bs| - 1];
    forall k | 0 <= k < |front|
      ensures front[k] == bs[k]
    {
    }
  }

  /** With distinct ids, the last configured button's name is new. */
  lemma FreshButtonName(bs: seq<ButtonInfo>)
    requires bs != [] && DistinctConfigured(bs) && bs[|bs| - 1].configured
    ensures ButNames[bs[|bs| - 1].id] !in ConfiguredNames(bs[..|bs| - 1])
  {
    ButtonNamesAreKeys();
    var front := bs[..|bs| - 1];
    var last := bs[|bs| - 1];
    forall k | 0 <= k < |front| && front[k].configured
      ensures ButNames[front[k].id] != ButNames[last.id]
    {
      assert front[k] == bs[k];
    }
  }

  lemma {:induction false} ButtonsOpsShape(bs: seq<ButtonInfo>)
    requires DistinctConfigured(bs)
    ensures PrefixFree(ButtonsOps(bs)) && HeadsIn(ButtonsOps(bs), ConfiguredNames(bs))
    decreases |bs|
  {
    if bs != [] {
      var front := bs[..|bs| - 1];
      var last := bs[|bs| - 1];
      assert DistinctConfigured(front);
      ButtonsOpsShape(front);
      ButtonOpsShape(last);
      ConfiguredNamesSnoc(bs);
      var mine := if last.configured then {ButNames[last.id]} else {};
      if last.configured {
        FreshButtonName(bs);
      }
      HeadsApart(ButtonsOps(front), ButtonOps(last), ConfiguredNames(front), mine);
      PrefixFreeConcat(ButtonsOps(front), ButtonOps(last));
      HeadsInConcat(ButtonsOps(front), ButtonOps(last), ConfiguredNames(front), mine);
    }
  }

  lemma HeaderBodyShape(d: DeviceInfo)
    ensures PrefixFree(HeaderBody(d)) && HeadsIn(HeaderBody(d), {"_name", "_pose", "_role"})
  {
    var h := HeaderBody(d);
    forall i, j | 0 <= i < |h| && 0 <= j < |h| && i != j
      ensures Incomparable(h[i].path, h[j].path)
    {
      DifferAt(h[i].path, h[j].path, 0);
    }
  }

  lemma DeviceBodyShape(d: DeviceInfo)
    requires DistinctConfigured(d.buttons)
    ensures PrefixFree(DeviceBody(d)) && HeadsIn(DeviceBody(d), {"_name", "_pose", "_role", "buttons"})
  {
    var h := HeaderBody(d);
    var b := Prefixed("buttons", ButtonsOps(d.buttons));
    HeaderBodyShape(d);
    ButtonsOpsShape(d.buttons);
    PrefixedPrefixFree("buttons", ButtonsOps(d.buttons));
    PrefixedHeads("buttons", ButtonsOps(d.buttons));
    HeadsApart(h, b, {"_name", "_pose", "_role"}, {"buttons"});
    PrefixFreeConcat(h, b);
    HeadsInConcat(h, b, {"_name", "_pose", "_role"}, {"buttons"});
  }

  /** Every device's configured buttons carry distinct ids. */
  predicate WriterPre(params: ParamList)
  {
    forall i :: 0 <= i < |params.devices| ==> DistinctConfigured(params.devices[i].buttons)
  }

  lemma {:induction false} DevicesOpsShape(ds: seq<DeviceInfo>, k: nat)
    requires k <= |ds|
    requires forall i :: 0 <= i < |ds| ==> DistinctConfigured(ds[i].buttons)
    ensures PrefixFree(DevicesOps(ds, k)) && HeadsIn(DevicesOps(ds, k), DevKeys(k))
  {
    if k > 0 {
      DevicesOpsShape(ds, k - 1);
      DevicesOpsStep(ds, k - 1);
    }
  }

  /** Appending device n's block to the blocks of devices 0..n-1 keeps them apart. */
  lemma DevicesOpsStep(ds: seq<DeviceInfo>, n: nat)
    requires n < |ds| && DistinctConfigured(ds[n].buttons)
    requires PrefixFree(DevicesOps(ds, n)) && HeadsIn(DevicesOps(ds, n), DevKeys(n))
    ensures PrefixFree(DevicesOps(ds, n + 1)) && HeadsIn(DevicesOps(ds, n + 1), DevKeys(n + 1))
  {
    var d := ds[n];
    var a := DevicesOps(ds, n);
    var b := DeviceOps(n, d);
    assert DevicesOps(ds, n + 1) == a + b;
    var dk := Config.DevKey(n);
    DeviceBodyShape(d);
    PrefixedPrefixFree(dk, DeviceBody(d));
    PrefixedHeads(dk, DeviceBody(d));
    DevKeysSnoc(n);
    HeadsApart(a, b, DevKeys(n), {dk});
    PrefixFreeConcat(a, b);
    HeadsInConcat(a, b, DevKeys(n), {dk});
  }

  /** The key of device n is new, and with it the keys of devices 0..n. */
  lemma DevKeysSnoc(n: nat)
    ensures DevKeys(n) !! {Config.DevKey(n)}
    ensures DevKeys(n) + {Config.DevKey(n)} == DevKeys(n + 1)
  {
    forall i | 0 <= i < n
      ensures Config.DevKey(i) != Config.DevKey(n)
    {
      Config.DevKeyInjective(i, n);
    }
  }

  /** The three top-level keys of params.json. */
  const TopKeySet: set<string> := {"_num_devices", "_update_freq", "_all_required"}

  lemma TopOpsShape(params: ParamList)
    ensures PrefixFree(TopOps(params)) && HeadsIn(TopOps(params), TopKeySet)
  {
    var t := TopOps(params);
    forall i, j | 0 <= i < |t| && 0 <= j < |t| && i != j
      ensures Incomparable(t[i].path, t[j].path)
    {
      DifferAt(t[i].path, t[j].path, 0);
    }
  }

  /** A "devN" key is never one of the top-level keys. */
  lemma DevKeysApart(n: nat)
    ensures DevKeys(n) !! TopKeySet
  {
    forall i | 0 <= i < n
      ensures Config.DevKey(i) !in TopKeySet
    {
      var dk := Config.DevKey(i);
      assert dk[..3] == "dev";
    }
  }

  /** outputToFile's assignments never interfere when each device's configured ids are distinct. */
  lemma WriterOpsShape(params: ParamList)
    requires WriterPre(params)
    ensures PrefixFree(WriterOps(params))
    ensures HeadsIn(WriterOps(params), TopKeySet + DevKeys(|params.devices|))
  {
    var t := TopOps(params);
    var n := |params.devices|;
    var ds := DevicesOps(params.devices, n);
    TopOpsShape(params);
    DevicesOpsShape(params.devices, n);
    DevKeysApart(n);
    HeadsApart(t, ds, TopKeySet, DevKeys(n));
    PrefixFreeConcat(t, ds);
    HeadsInConcat(t, ds, TopKeySet, DevKeys(n));
  }

  /** The block of the device at index i is part of the first k devices' block. */
  lemma {:induction false} DeviceInDevices(ds: seq<DeviceInfo>, k: nat, i: nat, o: Op)
    requires i < k <= |ds| && o in DeviceOps(i, ds[i])
    ensures o in DevicesOps(ds, k)
  {
    if i < k - 1 {
      DeviceInDevices(ds, k - 1, i, o);
    }
  }

  /** The block of button k is part of the buttons' block. */
  lemma {:induction false} ButtonInButtons(bs: seq<ButtonInfo>, k: nat, o: Op)
    requires k < |bs| && o in ButtonOps(bs[k])
    ensures o in ButtonsOps(bs)
    decreases |bs|
  {
    if k < |bs| - 1 {
      assert bs[..|bs| - 1][k] == bs[k];
      ButtonInButtons(bs[..|bs| - 1], k, o);
    }
  }

  /** An entry of device i's record lands in outputToFile's block below "devi". */
  lemma InWriter(params: ParamList, i: nat, o: Op)
    requires i < |params.devices| && o in DeviceBody(params.devices[i])
    ensures Op([Config.DevKey(i)] + o.path, o.value) in WriterOps(params)
  {
    InPrefixed(Config.DevKey(i), DeviceBody(params.devices[i]), o);
    DeviceInDevices(params.devices, |params.devices|, i, Op([Config.DevKey(i)] + o.path, o.value));
  }

  /** With distinct configured ids the file cannot throw, and it is the block's document. */
  lemma WriterDocument(params: ParamList)
    requires WriterPre(params)
    ensures Apply(map[], WriterOps(params)) == Some(OpsMap(WriterOps(params)))
  {
    WriterOpsShape(params);
    ApplyPrefixFreeEmpty(WriterOps(params));
  }

  /** An assignment of the block is what the file holds at its path. */
  lemma WrittenAt(params: ParamList, o: Op)
    requires WriterPre(params) && o in WriterOps(params)
    ensures o.path in OpsMap(WriterOps(params)) && OpsMap(WriterOps(params))[o.path] == o.value
  {
    WriterOpsShape(params);
    InBlock(WriterOps(params), o);
  }

  /** The file records a device's name, pose flag and role below "devN". */
  predicate HeaderWritten(doc: Doc, dk: string, d: DeviceInfo)
  {
    && [dk, "_name"] in doc && doc[[dk, "_name"]] == Str(d.name)
    && [dk, "_pose"] in doc && doc[[dk, "_pose"]] == Bool(d.trackPose)
    && [dk, "_role"] in doc && doc[[dk, "_role"]] == Str(WriterRoleName(d.role))
  }

  /** The file records a configured button's custom name and its three type flags below its button name. */
  predicate ButtonWritten(doc: Doc, dk: string, b: ButtonInfo)
  {
    var bk := ButNames[b.id];
    && [dk, "buttons", bk, "name"] in doc && doc[[dk, "buttons", bk, "name"]] == Str(b.name)
    && forall v :: 0 <= v < 3 ==>
         [dk, "buttons", bk, "types", ButTypeNames[v]] in doc
         && doc[[dk, "buttons", bk, "types", ButTypeNames[v]]] == Bool(b.valTypes[v])
  }

  /** An entry of device i's record is what the file holds below "devi". */
  lemma BodyInFile(params: ParamList, i: nat, o: Op)
    requires WriterPre(params) && i < |params.devices| && o in DeviceBody(params.devices[i])
    ensures var p := [Config.DevKey(i)] + o.path;
      p in OpsMap(WriterOps(params)) && OpsMap(WriterOps(params))[p] == o.value
  {
    InWriter(params, i, o);
    WrittenAt(params, Op([Config.DevKey(i)] + o.path, o.value));
  }

  /** A document holding every header entry below dk records the header. */
  lemma HeaderRecorded(doc: Doc, dk: string, d: DeviceInfo)
    requires forall o :: o in HeaderBody(d) ==> var p := [dk] + o.path; p in doc && doc[p] == o.value
    ensures HeaderWritten(doc, dk, d)
  {
    var h := HeaderBody(d);
    assert h[0] in h && h[1] in h && h[2] in h;
    assert [dk] + h[0].path == [dk, "_name"];
    assert [dk] + h[1].path == [dk, "_pose"];
    assert [dk] + h[2].path == [dk, "_role"];
  }

  lemma HeaderInFile(params: ParamList, i: nat)
    requires WriterPre(params) && i < |params.devices|
    ensures HeaderWritten(OpsMap(WriterOps(params)), Config.DevKey(i), params.devices[i])
  {
    var d := params.devices[i];
    var doc := OpsMap(WriterOps(params));
    forall o | o in HeaderBody(d)
      ensures var p := [Config.DevKey(i)] + o.path; p in doc && doc[p] == o.value
    {
      BodyInFile(params, i, o);
    }
    HeaderRecorded(doc, Config.DevKey(i), d);
  }

  /** An entry of a configured button's record lands in its device's record. */
  lemma ButtonEntryInDevice(d: DeviceInfo, k: nat, o: Op)
    requires k < |d.buttons| && d.buttons[k].configured && o in ButtonBody(d.buttons[k])
    ensures Op(["buttons", ButNames[d.buttons[k].id]] + o.path, o.value) in DeviceBody(d)
  {
    var b := d.buttons[k];
    var bk := ButNames[b.id];
    InPrefixed(bk, ButtonBody(b), o);
    var o1 := Op([bk] + o.path, o.value);
    ButtonInButtons(d.buttons, k, o1);
    InPrefixed("buttons", ButtonsOps(d.buttons), o1);
    assert ["buttons"] + o1.path == ["buttons", bk] + o.path;
  }

  lemma ButtonFieldInFile(params: ParamList, i: nat, k: nat, o: Op)
    requires WriterPre(params) && i < |params.devices|
    requires k < |params.devices[i].buttons| && params.devices[i].buttons[k].configured
    requires o in ButtonBody(params.devices[i].buttons[k])
    ensures var p := [Config.DevKey(i), "buttons", ButNames[params.devices[i].buttons[k].id]] + o.path;
      p in OpsMap(WriterOps(params)) && OpsMap(WriterOps(params))[p] == o.value
  {
    var bk := ButNames[params.devices[i].buttons[k].id];
    ButtonEntryInDevice(params.devices[i], k, o);
    var o1 := Op(["buttons", bk] + o.path, o.value);
    ButtonPath(Config.DevKey(i), bk, o.path);
    BodyInFile(params, i, o1);
  }

  /** A path below a button key below a device key. */
  lemma ButtonPath(dk: string, bk: string, p: seq<string>)
    ensures [dk] + (["buttons", bk] + p) == [dk, "buttons", bk] + p
  {
  }

  /** A document holding every entry of a button's record below its button name records that button. */
  lemma ButtonRecorded(doc: Doc, dk: string, b: ButtonInfo)
    requires forall o :: o in ButtonBody(b) ==>
      var p := [dk, "buttons", ButNames[b.id]] + o.path; p in doc && doc[p] == o.value
    ensures ButtonWritten(doc, dk, b)
  {
    var bk := ButNames[b.id];
    var body := ButtonBody(b);
    assert body[0] in body;
    assert [dk, "buttons", bk] + body[0].path == [dk, "buttons", bk, "name"];
    forall v | 0 <= v < 3
      ensures var p := [dk, "buttons", bk, "types", ButTypeNames[v]]; p in doc && doc[p] == Bool(b.valTypes[v])
    {
      assert body[v + 1] in body;
      assert [dk, "buttons", bk] + body[v + 1].path == [dk, "buttons", bk, "types", ButTypeNames[v]];
    }
  }

  lemma ButtonInFile(params: ParamList, i: nat, k: nat)
    requires WriterPre(params) && i < |params.devices|
    requires k < |params.devices[i].buttons| && params.devices[i].buttons[k].configured
    ensures ButtonWritten(OpsMap(WriterOps(params)), Config.DevKey(i), params.devices[i].buttons[k])
  {
    var b := params.devices[i].buttons[k];
    var doc := OpsMap(WriterOps(params));
    forall o | o in ButtonBody(b)
      ensures var p := [Config.DevKey(i), "buttons", ButNames[b.id]] + o.path; p in doc && doc[p] == o.value
    {
      ButtonFieldInFile(params, i, k, o);
    }
    ButtonRecorded(doc, Config.DevKey(i), b);
  }

  lemma TopInFile(params: ParamList)
    requires WriterPre(params)
    ensures var doc := OpsMap(WriterOps(params));
      && ["_num_devices"] in doc && doc[["_num_devices"]] == Int(params.numDevices)
      && ["_update_freq"] in doc && doc[["_update_freq"]] == Int(params.updateFreq)
      && ["_all_required"] in doc && doc[["_all_required"]] == Bool(params.allRequired)
  {
    var t := TopOps(params);
    assert forall m :: 0 <= m < 3 ==> WriterOps(params)[m] == t[m];
    WrittenAt(params, t[0]);
    WrittenAt(params, t[1]);
    WrittenAt(params, t[2]);
  }

  /** Every top-level key of the file is one of the three values or a device's "devN" key. */
  lemma FileKeys(params: ParamList)
    requires WriterPre(params)
    ensures forall p :: p in OpsMap(WriterOps(params)) ==> p[0] in TopKeySet + DevKeys(|params.devices|)
  {
    var ops := WriterOps(params);
    WriterOpsShape(params);
    OpsMapKeys(ops);
  }

  /**
   * What outputToFile writes to params.json when each device's configured
   * ids are distinct: it does not throw; the file holds the three top-level
   * values; below "devN" it holds device N's name, pose flag and role name,
   * and for each configured button, below that button's name, its custom
   * name and all three type flags; and it has no other top-level key.
   */
  lemma WrittenDoc(params: ParamList)
    requires WriterPre(params)
    ensures Apply(map[], WriterOps(params)).Some?
    ensures var doc := Apply(map[], WriterOps(params)).value;
      && ["_num_devices"] in doc && doc[["_num_devices"]] == Int(params.numDevices)
      && ["_update_freq"] in doc && doc[["_update_freq"]] == Int(params.updateFreq)
      && ["_all_required"] in doc && doc[["_all_required"]] == Bool(params.allRequired)
      && (forall i :: 0 <= i < |params.devices| ==> HeaderWritten(doc, Config.DevKey(i), params.devices[i]))
      && (forall i, k ::
            0 <= i < |params.devices| && 0 <= k < |params.devices[i].buttons| && params.devices[i].buttons[k].configured ==>
            ButtonWritten(doc, Config.DevKey(i), params.devices[i].buttons[k]))
      && (forall p :: p in doc ==> p[0] in TopKeySet + DevKeys(|params.devices|))
  {
    WriterDocument(params);
    TopInFile(params);
    FileKeys(params);
    forall i | 0 <= i < |params.devices|
      ensures HeaderWritten(OpsMap(WriterOps(params)), Config.DevKey(i), params.devices[i])
    {
      HeaderInFile(params, i);
    }
    forall i, k | 0 <= i < |params.devices| && 0 <= k < |params.devices[i].buttons| && params.devices[i].buttons[k].configured
      ensures ButtonWritten(OpsMap(WriterOps(params)), Config.DevKey(i), params.devices[i].buttons[k])
    {
      ButtonInFile(params, i, k);
    }
  }

  /** In a block, every path below "devi" and "buttons" names a configured button of device i. */
  predicate ButtonKeysConfigured(ops: seq<Op>, ds: seq<DeviceInfo>)
  {
    forall m, i ::
      (0 <= m < |ops| && 0 <= i < |ds| && |ops[m].path| >= 3
       && ops[m].path[0] == Config.DevKey(i) && ops[m].path[1] == "buttons") ==>
      ops[m].path[2] in ConfiguredNames(ds[i].buttons)
  }

  /** Within one device's block, only configured buttons appear below "buttons". */
  lemma DeviceButtonKeys(i: nat, d: DeviceInfo)
    requires DistinctConfigured(d.buttons)
    ensures forall m ::
      (0 <= m < |DeviceOps(i, d)| && |DeviceOps(i, d)[m].path| >= 3 && DeviceOps(i, d)[m].path[1] == "buttons") ==>
      DeviceOps(i, d)[m].path[2] in ConfiguredNames(d.buttons)
  {
    var ops := DeviceOps(i, d);
    var body := DeviceBody(d);
    var bs := ButtonsOps(d.buttons);
    ButtonsOpsShape(d.buttons);
    forall m | 0 <= m < |ops| && |ops[m].path| >= 3 && ops[m].path[1] == "buttons"
      ensures ops[m].path[2] in ConfiguredNames(d.buttons)
    {
      assert ops[m].path == [Config.DevKey(i)] + body[m].path;
      assert m >= 3;
      assert body[m] == Prefixed("buttons", bs)[m - 3];
      assert ops[m].path[2] == bs[m - 3].path[0];
    }
  }

  lemma {:induction false} DevicesButtonKeys(ds: seq<DeviceInfo>, k: nat)
    requires k <= |ds|
    requires forall i :: 0 <= i < |ds| ==> DistinctConfigured(ds[i].buttons)
    ensures ButtonKeysConfigured(DevicesOps(ds, k), ds)
  {
    if k > 0 {
      DevicesButtonKeys(ds, k - 1);
      var a := DevicesOps(ds, k - 1);
      var b := DeviceOps(k - 1, ds[k - 1]);
      DeviceButtonKeys(k - 1, ds[k - 1]);
      PrefixedHeads(Config.DevKey(k - 1), DeviceBody(ds[k - 1]));
      var c := a + b;
      forall m, i | 0 <= m < |c| && 0 <= i < |ds| && |c[m].path| >= 3
        && c[m].path[0] == Config.DevKey(i) && c[m].path[1] == "buttons"
        ensures c[m].path[2] in ConfiguredNames(ds[i].buttons)
      {
        if m < |a| {
          assert c[m] == a[m];
        } else {
          assert c[m] == b[m - |a|];
          Config.DevKeyInjective(i, k - 1);
        }
      }
    }
  }

  /** The top-level values add no button paths. */
  lemma WriterButtonKeys(params: ParamList)
    requires WriterPre(params)
    ensures ButtonKeysConfigured(WriterOps(params), params.devices)
  {
    var t := TopOps(params);
    var rest := DevicesOps(params.devices, |params.devices|);
    DevicesButtonKeys(params.devices, |params.devices|);
    var ops := t + rest;
    forall m, i | 0 <= m < |ops| && 0 <= i < |params.devices| && |ops[m].path| >= 3
      && ops[m].path[0] == Config.DevKey(i) && ops[m].path[1] == "buttons"
      ensures ops[m].path[2] in ConfiguredNames(params.devices[i].buttons)
    {
      assert m >= 3 && ops[m] == rest[m - 3];
    }
  }

  /** A document's keys under a block whose button paths name configured buttons. */
  lemma KeysConfigured(ops: seq<Op>, ds: seq<DeviceInfo>)
    requires ButtonKeysConfigured(ops, ds)
    ensures forall p, i ::
      (p in OpsMap(ops) && 0 <= i < |ds| && |p| >= 3 && p[0] == Config.DevKey(i) && p[1] == "buttons") ==>
      p[2] in ConfiguredNames(ds[i].buttons)
  {
    OpsMapKeys(ops);
  }

  /**
   * Buttons that are not configured are skipped: below "devN" and
   * "buttons", the file only names buttons configured on device N.
   */
  lemma OnlyConfiguredButtons(params: ParamList)
    requires WriterPre(params)
    ensures forall p, i ::
      (p in OpsMap(WriterOps(params)) && 0 <= i < |params.devices| && |p| >= 3
       && p[0] == Config.DevKey(i) && p[1] == "buttons") ==>
      p[2] in ConfiguredNames(params.devices[i].buttons)
  {
    WriterButtonKeys(params);
    KeysConfigured(WriterOps(params), params.devices);
  }
}
