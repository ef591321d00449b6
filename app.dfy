/**
 * The MimicryApp object (include/mimicry_openvr/mimicry_app.hpp:72-109,
 * src/mimicry_app.cpp): its fields, updated in place by the registry moves,
 * by readParameters and by handleInput, and read by postOutputData. The
 * OpenVR system is a snapshot of the 64 hardware indices taken for the tick.
 */
module App {
  import opened Wrappers
  import opened Vocabulary
  import opened Tracking
  import opened Devices
  import opened DeviceRegistry
  import opened Config
  import opened Frame
  import opened Publish

  /** Which configured role a hardware index asks for, from its class and controller role. */
  function ControllerTarget(cls: DeviceClass, role: VrRole): (t: Option<DeviceRole>)
    ensures t == Some(Left) <==> cls == Controller && role == LeftHand
    ensures t == Some(Right) <==> cls == Controller && role == RightHand
    ensures t == Some(Tracker) <==> cls == GenericTracker
    ensures t != Some(Invalid)
  {
    if cls == Controller then
      if role == LeftHand then Some(Left) else if role == RightHand then Some(Right) else None
    else if cls == GenericTracker then Some(Tracker)
    else None
  }

  /**
   * The class test of activateDevice as written: `dev_class = Controller`
   * assigns instead of comparing, and the assigned value is non-zero, so the
   * test always holds and only the controller role counts.
   */
  function ControllerTargetAsWritten(cls: DeviceClass, role: VrRole): (t: Option<DeviceRole>)
    ensures t == Some(Left) <==> role == LeftHand
    ensures t == Some(Right) <==> role == RightHand
  {
    if role == LeftHand then Some(Left) else if role == RightHand then Some(Right) else None
  }

  /** As written, the tracker branch is unreachable: no index ever asks for a TRACKER. */
  lemma AsWrittenNeverTracker(cls: DeviceClass, role: VrRole)
    ensures ControllerTargetAsWritten(cls, role) != Some(Tracker)
    ensures ControllerTargetAsWritten(cls, role) == ControllerTargetAsWritten(Controller, role)
  {
  }

  /** A generic tracker (which has no hand role) is activated by the intended test and not by the written one. */
  lemma TrackerCounterexample()
    ensures ControllerTarget(GenericTracker, VrInvalid) == Some(Tracker)
    ensures ControllerTargetAsWritten(GenericTracker, VrInvalid) == None
  {
  }

  /** The two tests agree exactly on controllers. */
  lemma AsWrittenAgreesOnControllers(role: VrRole)
    ensures ControllerTargetAsWritten(Controller, role) == ControllerTarget(Controller, role)
  {
  }

  /**
   * The two readings of activateDevice's class test: as the program is
   * written (an assignment, so only the controller role counts) and as it
   * is evidently meant (a comparison).
   */
  datatype ClassTest = AsWritten | Intended

  /** The role an index asks for under a reading of the class test. */
  function Target(test: ClassTest, cls: DeviceClass, role: VrRole): Option<DeviceRole>
  {
    match test
    case AsWritten => ControllerTargetAsWritten(cls, role)
    case Intended => ControllerTarget(cls, role)
  }

  /** An index handleInput considers: connected, with a valid pose. */
  predicate Qualified(e: IndexState)
  {
    e.connected && e.poseValid
  }

  /** No device of the map holds the role. */
  predicate NoneLeft(m: map<string, Device>, role: DeviceRole)
  {
    forall n :: n in m ==> m[n].role != role
  }

  /**
   * Every active device sits at an index below the bound that is qualified
   * and asks for its role, and is the pre-tick device under its name with
   * this index's sample written in.
   */
  predicate ActiveSampled(r: Registry, byName: map<string, Device>, snap: seq<IndexState>, bound: nat, test: ClassTest)
  {
    forall j :: j in r.devices ==>
      && j < bound && j < |snap| && Qualified(snap[j])
      && Target(test, snap[j].deviceClass, snap[j].controllerRole) == Some(r.devices[j].role)
      && r.devices[j].name in byName
      && r.devices[j] == SampleDevice(byName[r.devices[j].name], snap[j])
  }

  /** Every inactive device is the pre-tick device under its name, untouched. */
  predicate InactiveKept(r: Registry, byName: map<string, Device>)
  {
    forall n :: n in r.inactive ==> n in byName && r.inactive[n] == byName[n]
  }

  /** A qualified index below the bound that stayed empty found no inactive device of the role it asks for. */
  predicate Exhausted(r: Registry, snap: seq<IndexState>, bound: nat, test: ClassTest)
  {
    forall j :: (0 <= j < bound && j < |snap| && j !in r.devices && Qualified(snap[j])
                 && Target(test, snap[j].deviceClass, snap[j].controllerRole).Some?) ==>
      NoneLeft(r.inactive, Target(test, snap[j].deviceClass, snap[j].controllerRole).value)
  }

  /** A device went to the lowest index that asks for its role: every qualified index before it asking for that role is taken. */
  predicate LowestFirst(r: Registry, snap: seq<IndexState>, test: ClassTest)
  {
    forall j, k ::
      (j in r.devices && 0 <= k < j && k < |snap| && Qualified(snap[k])
       && Target(test, snap[k].deviceClass, snap[k].controllerRole) == Some(r.devices[j].role)) ==> k in r.devices
  }

  /** Active devices of one role sit in ascending name order along the indices. */
  predicate NameOrdered(r: Registry)
  {
    forall j, k :: j in r.devices && k in r.devices && j < k && r.devices[j].role == r.devices[k].role ==>
      StrLess(r.devices[j].name, r.devices[k].name)
  }

  /** Every active device's name comes before the name of every inactive device of its role. */
  predicate AheadOfInactive(r: Registry)
  {
    forall j, n :: j in r.devices && n in r.inactive && r.inactive[n].role == r.devices[j].role ==>
      StrLess(r.devices[j].name, n)
  }

  /** What handleInput promises about the indices below the bound. */
  predicate TickDone(r: Registry, byName: map<string, Device>, snap: seq<IndexState>, bound: nat, test: ClassTest)
  {
    && ActiveSampled(r, byName, snap, bound, test) && InactiveKept(r, byName) && Exhausted(r, snap, bound, test)
    && LowestFirst(r, snap, test) && NameOrdered(r) && AheadOfInactive(r)
  }

  /** The invariant of the index loop of handleInput once the indices below the bound are done. */
  ghost predicate TickInv(r: Registry, roles: map<string, DeviceRole>, byName: map<string, Device>,
                          snap: seq<IndexState>, bound: nat, test: ClassTest)
  {
    DeviceRegistry.Valid(r, roles) && TickDone(r, byName, snap, bound, test)
  }

  /** What activateDevice may hand back for an index: nothing, or the first inactive device of the role asked for. */
  ghost predicate Chosen(r: Registry, e: IndexState, dev: Option<Device>, test: ClassTest)
  {
    if Qualified(e) && Target(test, e.deviceClass, e.controllerRole).Some? then
      var role := Target(test, e.deviceClass, e.controllerRole).value;
      && (dev.None? <==> NoneLeft(r.inactive, role))
      && (dev.Some? ==> exists n :: IsFirstByName(r.inactive, role, n) && dev.value == r.inactive[n])
    else dev.None?
  }

  /** The registry after handleInput has dealt with one index. */
  function AfterIndex(r: Registry, e: IndexState, ix: nat, dev: Option<Device>): Registry
  {
    if dev.None? then r
    else
      var r1 := DeviceRegistry.AddDeviceToIndex(r, dev, ix);
      r1.(devices := r1.devices[ix := SampleDevice(dev.value, e)])
  }

  /** Before the index loop nothing is active and every device is as it was. */
  lemma TickStart(r: Registry, roles: map<string, DeviceRole>, snap: seq<IndexState>, test: ClassTest)
    requires DeviceRegistry.Valid(r, roles) && r.devices == map[]
    ensures TickInv(r, roles, r.inactive, snap, 0, test)
  {
  }

  /** Dealing with index ix keeps the loop invariant, now up to ix + 1. */
  lemma TickStep(r: Registry, roles: map<string, DeviceRole>, byName: map<string, Device>,
                 snap: seq<IndexState>, ix: nat, dev: Option<Device>, test: ClassTest)
    requires IsSnapshot(snap) && ix < MaxTrackedDeviceCount
    requires TickInv(r, roles, byName, snap, ix, test) && Chosen(r, snap[ix], dev, test)
    ensures TickInv(AfterIndex(r, snap[ix], ix, dev), roles, byName, snap, ix + 1, test)
  {
    var e := snap[ix];
    assert ix !in r.devices;
    if dev.None? {
      TickNone(r, byName, snap, ix, test);
    } else {
      var d := dev.value;
      var role := Target(test, e.deviceClass, e.controllerRole).value;
      var n :| IsFirstByName(r.inactive, role, n) && d == r.inactive[n];
      assert d.name == n && d.role == role;
      TickValid(r, roles, e, ix, d);
      TickSampled(r, byName, snap, ix, d, test);
      TickKept(r, byName, e, ix, d);
      TickExhausted(r, snap, ix, d, test);
      TickLowest(r, snap, ix, d, test);
      TickOrdered(r, e, ix, d);
    }
  }

  /** An index that activates nothing: no device moves and the index is exhausted. */
  lemma TickNone(r: Registry, byName: map<string, Device>, snap: seq<IndexState>, ix: nat, test: ClassTest)
    requires ix < |snap| && ActiveSampled(r, byName, snap, ix, test) && Exhausted(r, snap, ix, test)
    requires Chosen(r, snap[ix], None, test)
    ensures ActiveSampled(r, byName, snap, ix + 1, test) && Exhausted(r, snap, ix + 1, test)
  {
    assert ix !in r.devices;
  }

  lemma TickValid(r: Registry, roles: map<string, DeviceRole>, e: IndexState, ix: nat, d: Device)
    requires DeviceRegistry.Valid(r, roles) && Owned(r, d) && ix < MaxTrackedDeviceCount && ix !in r.devices
    ensures DeviceRegistry.Valid(AfterIndex(r, e, ix, Some(d)), roles)
  {
    AddPreservesValid(r, roles, d, ix);
    UpdateActivePreservesValid(DeviceRegistry.AddDeviceToIndex(r, Some(d), ix), roles, ix, SampleDevice(d, e));
  }

  /** The device taken at index ix is the pre-tick device under its name, with the index's sample written in. */
  lemma TickSampled(r: Registry, byName: map<string, Device>, snap: seq<IndexState>, ix: nat, d: Device, test: ClassTest)
    requires ix < |snap| && ActiveSampled(r, byName, snap, ix, test) && InactiveKept(r, byName) && Owned(r, d)
    requires Qualified(snap[ix]) && Target(test, snap[ix].deviceClass, snap[ix].controllerRole) == Some(d.role)
    ensures ActiveSampled(AfterIndex(r, snap[ix], ix, Some(d)), byName, snap, ix + 1, test)
  {
    var r2 := AfterIndex(r, snap[ix], ix, Some(d));
    assert ix !in r.devices;
    assert r2.devices == r.devices[ix := SampleDevice(d, snap[ix])];
    assert d.name in byName && byName[d.name] == d;
    SampledInsert(r, r2, byName, snap, ix, d, test);
  }

  /** ActiveSampled survives putting at index ix, which asks for d's role, d with that index's sample. */
  lemma SampledInsert(r: Registry, r2: Registry, byName: map<string, Device>, snap: seq<IndexState>, ix: nat, d: Device, test: ClassTest)
    requires ix < |snap| && ix !in r.devices && ActiveSampled(r, byName, snap, ix, test)
    requires Qualified(snap[ix]) && Target(test, snap[ix].deviceClass, snap[ix].controllerRole) == Some(d.role)
    requires d.name in byName && byName[d.name] == d && r2.devices == r.devices[ix := SampleDevice(d, snap[ix])]
    ensures ActiveSampled(r2, byName, snap, ix + 1, test)
  {
    var m := r2.devices;
    forall j | j in m
      ensures j < ix + 1 && j < |snap| && Qualified(snap[j])
      ensures Target(test, snap[j].deviceClass, snap[j].controllerRole) == Some(m[j].role)
      ensures m[j].name in byName && m[j] == SampleDevice(byName[m[j].name], snap[j])
    {
      if j != ix {
        assert j in r.devices && m[j] == r.devices[j];
      }
    }
  }

  lemma TickKept(r: Registry, byName: map<string, Device>, e: IndexState, ix: nat, d: Device)
    requires InactiveKept(r, byName)
    ensures InactiveKept(AfterIndex(r, e, ix, Some(d)), byName)
  {
  }

  /** Taking a device at index ix leaves the earlier empty indices exhausted. */
  lemma TickExhausted(r: Registry, snap: seq<IndexState>, ix: nat, d: Device, test: ClassTest)
    requires ix < |snap| && Exhausted(r, snap, ix, test) && ix !in r.devices
    ensures Exhausted(AfterIndex(r, snap[ix], ix, Some(d)), snap, ix + 1, test)
  {
    var r2 := AfterIndex(r, snap[ix], ix, Some(d));
    forall j | (0 <= j < ix + 1 && j < |snap| && j !in r2.devices && Qualified(snap[j])
               && Target(test, snap[j].deviceClass, snap[j].controllerRole).Some?)
      ensures NoneLeft(r2.inactive, Target(test, snap[j].deviceClass, snap[j].controllerRole).value)
    {
      assert j < ix && j !in r.devices;
    }
  }

  /**
   * The device taken at index ix was still inactive when every earlier
   * index was dealt with, so none of those that asks for its role is empty.
   */
  lemma TickLowest(r: Registry, snap: seq<IndexState>, ix: nat, d: Device, test: ClassTest)
    requires ix < |snap| && ix !in r.devices && LowestFirst(r, snap, test) && Exhausted(r, snap, ix, test)
    requires d.name in r.inactive && r.inactive[d.name].role == d.role
    ensures LowestFirst(AfterIndex(r, snap[ix], ix, Some(d)), snap, test)
  {
    var r2 := AfterIndex(r, snap[ix], ix, Some(d));
    var s := SampleDevice(d, snap[ix]);
    assert r2.devices == r.devices[ix := s] && s.role == d.role;
    assert !NoneLeft(r.inactive, d.role);
    LowestInsert(r, r2, snap, ix, s, test);
  }

  /** LowestFirst survives putting at index ix a device of a role some inactive device still holds. */
  lemma LowestInsert(r: Registry, r2: Registry, snap: seq<IndexState>, ix: nat, s: Device, test: ClassTest)
    requires ix < |snap| && ix !in r.devices && LowestFirst(r, snap, test) && Exhausted(r, snap, ix, test)
    requires !NoneLeft(r.inactive, s.role) && r2.devices == r.devices[ix := s]
    ensures LowestFirst(r2, snap, test)
  {
    var m := r2.devices;
    forall j, k | j in m && 0 <= k < j && k < |snap| && Qualified(snap[k])
      && Target(test, snap[k].deviceClass, snap[k].controllerRole) == Some(m[j].role)
      ensures k in m
    {
      if j != ix {
        assert j in r.devices && m[j] == r.devices[j];
      }
    }
  }

  /**
   * The device taken at index ix comes first by name among the inactive
   * devices of its role, and after every device of that role already active.
   */
  lemma TickOrdered(r: Registry, e: IndexState, ix: nat, d: Device)
    requires ix !in r.devices && forall j :: j in r.devices ==> j < ix
    requires NameOrdered(r) && AheadOfInactive(r) && IsFirstByName(r.inactive, d.role, d.name) && r.inactive[d.name] == d
    ensures NameOrdered(AfterIndex(r, e, ix, Some(d))) && AheadOfInactive(AfterIndex(r, e, ix, Some(d)))
  {
    var r2 := AfterIndex(r, e, ix, Some(d));
    var m := r2.devices;
    assert m == r.devices[ix := SampleDevice(d, e)];
    assert r2.inactive == r.inactive - {d.name};
    forall j, k | j in m && k in m && j < k && m[j].role == m[k].role
      ensures StrLess(m[j].name, m[k].name)
    {
      if k == ix {
        assert j in r.devices && m[j] == r.devices[j];
      } else {
        assert k in r.devices && j != ix;
      }
    }
  }

  /** The fields of the app outside the registry. */
  datatype Settings = Settings(running: bool, leftConfig: bool, rightConfig: bool, socket: int, params: Params)

  class MimicryApp {
    var running: bool
    var leftFound: bool
    var rightFound: bool
    var leftConfig: bool
    var rightConfig: bool
    var socket: int
    var params: Params
    var inactive: map<string, Device>
    var devices: map<nat, Device>
    /** The configured devices' roles by name, fixed once the parameters are read. */
    ghost var roles: map<string, DeviceRole>

    /** The registry part of the state. */
    function State(): Registry
      reads this
    {
      Registry(inactive, devices, leftFound, rightFound)
    }

    /** The rest of the state. */
    function Rest(): Settings
      reads this
    {
      Settings(running, leftConfig, rightConfig, socket, params)
    }

    /** The registry invariant over the configured devices. */
    ghost predicate Valid()
      reads this
    {
      DeviceRegistry.Valid(State(), roles)
    }

    /** A fresh app: not running, every flag false, socket 0, no parameters, both maps empty. */
    constructor ()
      ensures !running && !leftFound && !rightFound && !leftConfig && !rightConfig
      ensures socket == 0 && params == EmptyParams
      ensures inactive == map[] && devices == map[] && roles == map[]
      ensures Valid()
    {
      running := false;
      leftConfig := false;
      rightConfig := false;
      leftFound := false;
      rightFound := false;
      socket := 0;
      params := EmptyParams;
      inactive := map[];
      devices := map[];
      roles := map[];
      new;
      assert ActiveNames(State()) == {};
    }

    /** addDeviceToIndex. */
    method AddDeviceToIndex(dev: Option<Device>, ix: nat)
      modifies this
      ensures State() == DeviceRegistry.AddDeviceToIndex(old(State()), dev, ix)
      ensures Rest() == old(Rest()) && roles == old(roles)
    {
      if dev.Some? && ix !in devices {
        var d := dev.value;
        if d.role == Left {
          leftFound := true;
        } else if d.role == Right {
          rightFound := true;
        }
        inactive := inactive - {d.name};
        devices := devices[ix := d];
      }
    }

    /** deactivateDevice. */
    method DeactivateDevice(ix: nat)
      modifies this
      ensures State() == DeviceRegistry.DeactivateDevice(old(State()), ix)
      ensures Rest() == old(Rest()) && roles == old(roles)
    {
      if ix in devices {
        var d := devices[ix];
        if d.role == Left {
          leftFound := false;
        } else if d.role == Right {
          rightFound := false;
        }
        inactive := inactive[d.name := d];
        devices := devices - {ix};
      }
    }

    /** findDevFromRole: the first device with the role in the chosen map, or null. */
    method FindDevFromRole(role: DeviceRole, fromActive: bool) returns (dev: Option<Device>)
      ensures fromActive ==> (dev.None? <==> forall ix :: ix in devices ==> devices[ix].role != role)
      ensures fromActive && dev.Some? ==> exists ix :: IsFirstByIndex(devices, role, ix) && dev.value == devices[ix]
      ensures !fromActive ==> (dev.None? <==> forall n :: n in inactive ==> inactive[n].role != role)
      ensures !fromActive && dev.Some? ==> exists n :: IsFirstByName(inactive, role, n) && dev.value == inactive[n]
    {
      if fromActive {
        dev := FirstActiveByRole(devices, role);
      } else {
        dev := FirstInactiveByRole(inactive, role);
      }
    }

    /**
     * activateDevice under a reading of its class test: an index that asks
     * for a role takes the first inactive device of that role (by name);
     * any other index activates nothing. As written only a left or right
     * hand controller role asks for one; as intended a generic tracker asks
     * for a TRACKER too.
     */
    method ActivateDevice(e: IndexState, ix: nat, test: ClassTest) returns (dev: Option<Device>)
      modifies this
      ensures Rest() == old(Rest()) && roles == old(roles)
      ensures State() == DeviceRegistry.AddDeviceToIndex(old(State()), dev, ix)
      ensures Target(test, e.deviceClass, e.controllerRole).None? ==> dev.None?
      ensures Target(test, e.deviceClass, e.controllerRole).Some? ==>
        var role := Target(test, e.deviceClass, e.controllerRole).value;
        && (dev.None? <==> forall n :: n in old(inactive) ==> old(inactive)[n].role != role)
        && (dev.Some? ==> exists n :: IsFirstByName(old(inactive), role, n) && dev.value == old(inactive)[n])
    {
      var target := Target(test, e.deviceClass, e.controllerRole);
      dev := None;
      if target.Some? {
        dev := FindDevFromRole(target.value, false);
        AddDeviceToIndex(dev, ix);
      }
    }

    /** Writes a new sample into the device active at an index. */
    method UpdateActive(ix: nat, d: Device)
      modifies this
      ensures State() == old(State()).(devices := old(devices)[ix := d])
      ensures Rest() == old(Rest()) && roles == old(roles)
    {
      devices := devices[ix := d];
    }

    /**
     * The reset loop of handleInput: every active device goes back to the
     * inactive map, and no device changes.
     */
    method DeactivateAll()
      requires Valid()
      modifies this
      ensures Valid() && devices == map[] && !leftFound && !rightFound
      ensures inactive == ByName(old(State()))
      ensures Rest() == old(Rest()) && roles == old(roles)
    {
      ResetStart(State(), roles);
      ghost var byName := ByName(State());
      while devices != map[]
        invariant Resetting(State(), roles, byName)
        invariant Rest() == old(Rest()) && roles == old(roles)
        decreases |devices|
      {
        DeactivateAny(byName);
      }
      ResetDone(State(), roles, byName);
    }

    /** One pass of the reset loop: some active device goes back to the inactive map. */
    method DeactivateAny(ghost byName: map<string, Device>)
      requires Resetting(State(), roles, byName) && devices != map[]
      modifies this
      ensures Resetting(State(), roles, byName) && |devices| < old(|devices|)
      ensures Rest() == old(Rest()) && roles == old(roles)
    {
      var ix :| ix in devices;
      ghost var before := State();
      DeactivateStep(before, roles, byName, ix);
      DeactivateDevice(ix);
    }

    /**
     * handleInput over one snapshot, under a reading of activateDevice's
     * class test. Every device is first deactivated; then each index in
     * ascending order that is connected and has a valid pose activates the
     * first inactive device (by name) of the role it asks for, which then
     * gets its pose written and, for LEFT and RIGHT, every button sampled.
     * So a device goes to the lowest index asking for its role, devices of
     * one role take those indices in name order, and as written no TRACKER
     * is ever active.
     */
    method HandleInput(snap: seq<IndexState>, test: ClassTest)
      requires IsSnapshot(snap) && Valid()
      modifies this
      ensures Valid()
      ensures Rest() == old(Rest()) && roles == old(roles)
      ensures ActiveSampled(State(), ByName(old(State())), snap, MaxTrackedDeviceCount, test)
      ensures InactiveKept(State(), ByName(old(State())))
      ensures Exhausted(State(), snap, MaxTrackedDeviceCount, test)
      ensures LowestFirst(State(), snap, test) && NameOrdered(State()) && AheadOfInactive(State())
      ensures test == AsWritten ==> forall ix :: ix in devices ==> devices[ix].role == Left || devices[ix].role == Right
    {
      ghost var byName := ByName(State());
      DeactivateAll();
      TickStart(State(), roles, snap, test);
      for ix := 0 to MaxTrackedDeviceCount
        invariant TickInv(State(), roles, byName, snap, ix, test)
        invariant Rest() == old(Rest()) && roles == old(roles)
      {
        HandleIndex(snap, ix, test, byName);
      }
      if test == AsWritten {
        WrittenHandsOnly(State(), byName, snap, MaxTrackedDeviceCount);
      }
    }

    /**
     * One pass of handleInput's index loop: a connected index with a valid
     * pose activates a device, whose pose, and for a hand its buttons, are
     * then sampled.
     */
    method HandleIndex(snap: seq<IndexState>, ix: nat, test: ClassTest, ghost byName: map<string, Device>)
      requires IsSnapshot(snap) && ix < MaxTrackedDeviceCount
      requires TickInv(State(), roles, byName, snap, ix, test)
      modifies this
      ensures TickInv(State(), roles, byName, snap, ix + 1, test)
      ensures Rest() == old(Rest()) && roles == old(roles)
    {
      var e := snap[ix];
      ghost var before := State();
      var dev: Option<Device> := None;
      if e.connected && e.poseValid {
        dev := ActivateDevice(e, ix, test);
        if dev.Some? {
          var d := dev.value;
          var sampled := d;
          if d.role == Left || d.role == Right {
            var bs := SampleButtons(d.buttons, e);
            sampled := sampled.(buttons := bs);
          }
          sampled := sampled.(pose := Pose(PositionFromPose(e.matrix), e.orientation));
          UpdateActive(ix, sampled);
        }
      }
      assert State() == AfterIndex(before, e, ix, dev);
      TickStep(before, roles, byName, snap, ix, dev, test);
    }

    /**
     * readParameters on an already parsed file, from a fresh app: the
     * parameters are copied, then the checks run in source order and the
     * first failing one rejects the file; an accepted file leaves every
     * configured device inactive under its name.
     */
    method ReadParameters(f: ParamFile) returns (ok: bool)
      requires inactive == map[] && devices == map[]
      requires !leftConfig && !rightConfig && !leftFound && !rightFound
      modifies this
      ensures params.numDevices == f.numDevices && params.bimanual == f.bimanual && params.outAddr == f.outAddr
      ensures params.outPort == f.outPort && params.updateFreq == f.updateFreq
      ensures running == old(running) && socket == old(socket) && devices == map[]
      ensures !leftFound && !rightFound
      ensures ok <==> ConfigValid(f)
      ensures ok ==> inactive == Configured(f, f.numDevices) && roles == RolesOf(inactive) && Valid()
      ensures ok ==> leftConfig == Declares(f, f.numDevices, Left) && rightConfig == Declares(f, f.numDevices, Right)
    {
      params := Params(f.numDevices, f.bimanual, f.outAddr, f.outPort, f.updateFreq);
      if f.numDevices <= 0 || f.numDevices > MaxTrackedDeviceCount {
        return false;
      }
      if f.bimanual && f.numDevices < 2 {
        return false;
      }
      var now, left, right;
      ok, now, left, right := ReadConfig(f);
      Install(now, left, right);
      if ok {
        ConfiguredValid(f);
      }
    }

    /** Stores what the device loop read: the inactive map, the two config flags and the configured roles. */
    method Install(now: map<string, Device>, left: bool, right: bool)
      modifies this
      ensures inactive == now && leftConfig == left && rightConfig == right && roles == RolesOf(now)
      ensures running == old(running) && socket == old(socket) && params == old(params)
      ensures devices == old(devices) && leftFound == old(leftFound) && rightFound == old(rightFound)
    {
      inactive, leftConfig, rightConfig := now, left, right;
      roles := RolesOf(now);
    }

    /** postOutputData: the outcome of publishing the active devices now. */
    method PostOutputData() returns (o: Outcome)
      ensures o == Publish.Publish(params.bimanual, leftFound, rightFound, devices)
    {
      if params.bimanual && (!leftFound || !rightFound) {
        return MissingDevices;
      }
      if |devices| == 0 {
        return NoActiveDevices;
      }
      var frame := BuildFrame(devices);
      match frame {
        case None => o := Thrown;
        case Some(doc) => o := Published(doc);
      }
    }
  }

  /** As written, every device handleInput activates is a LEFT or RIGHT hand: no TRACKER is ever active. */
  lemma WrittenHandsOnly(r: Registry, byName: map<string, Device>, snap: seq<IndexState>, bound: nat)
    requires ActiveSampled(r, byName, snap, bound, AsWritten)
    ensures forall ix :: ix in r.devices ==> r.devices[ix].role == Left || r.devices[ix].role == Right
  {
    forall ix | ix in r.devices
      ensures r.devices[ix].role == Left || r.devices[ix].role == Right
    {
      AsWrittenNeverTracker(snap[ix].deviceClass, snap[ix].controllerRole);
    }
  }

  /**
   * In a valid registry a bimanual frame is withheld exactly when a hand is
   * not active, and a frame is published, with one entry per active device,
   * whenever it is not withheld and no publishing button is named "role".
   */
  lemma PublishFromRegistry(bimanual: bool, r: Registry, roles: map<string, DeviceRole>)
    requires DeviceRegistry.Valid(r, roles)
    ensures Publish.Publish(bimanual, r.leftFound, r.rightFound, r.devices) == MissingDevices
      <==> bimanual && (!HasActive(r, Left) || !HasActive(r, Right))
    ensures (!(bimanual && (!HasActive(r, Left) || !HasActive(r, Right))) && r.devices != map[]
             && (forall ix :: ix in r.devices ==> NoRoleButton(r.devices[ix]))) ==>
      var o := Publish.Publish(bimanual, r.leftFound, r.rightFound, r.devices);
      o.Published? && FrameDoc(o.doc, r.devices)
  {
    WithheldFromRegistry(bimanual, r, roles);
    PublishedFromRegistry(bimanual, r, roles);
  }

  /** The withheld half of PublishFromRegistry. */
  lemma WithheldFromRegistry(bimanual: bool, r: Registry, roles: map<string, DeviceRole>)
    requires DeviceRegistry.Valid(r, roles)
    ensures Publish.Publish(bimanual, r.leftFound, r.rightFound, r.devices) == MissingDevices
      <==> bimanual && (!HasActive(r, Left) || !HasActive(r, Right))
  {
    assert FlagsOk(r);
  }

  /** The published half of PublishFromRegistry. */
  lemma PublishedFromRegistry(bimanual: bool, r: Registry, roles: map<string, DeviceRole>)
    requires DeviceRegistry.Valid(r, roles)
    ensures (!(bimanual && (!HasActive(r, Left) || !HasActive(r, Right))) && r.devices != map[]
             && (forall ix :: ix in r.devices ==> NoRoleButton(r.devices[ix]))) ==>
      var o := Publish.Publish(bimanual, r.leftFound, r.rightFound, r.devices);
      o.Published? && FrameDoc(o.doc, r.devices)
  {
    assert FlagsOk(r);
    if !(bimanual && (!r.leftFound || !r.rightFound)) && r.devices != map[]
      && (forall ix :: ix in r.devices ==> NoRoleButton(r.devices[ix])) {
      ActiveFramePre(r, roles);
      PublishedFrame(bimanual, r.leftFound, r.rightFound, r.devices);
    }
  }

  /** The active devices of a valid registry meet what building a frame needs, once none names a button "role". */
  lemma ActiveFramePre(r: Registry, roles: map<string, DeviceRole>)
    requires DeviceRegistry.Valid(r, roles)
    requires forall ix :: ix in r.devices ==> NoRoleButton(r.devices[ix])
    ensures FramePre(r.devices) && forall ix :: ix in r.devices ==> ix < MaxTrackedDeviceCount
  {
  }
}
