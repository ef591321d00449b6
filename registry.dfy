/**
 * The device registry of MimicryApp as a value: the inactive devices keyed by
 * name, the active devices keyed by hardware index, and the two found flags
 * (src/mimicry_app.cpp:95-207). The class in App holds exactly these fields;
 * its methods are specified by the functions here.
 */
module DeviceRegistry {
  import opened Wrappers
  import opened Vocabulary
  import opened Tracking
  import opened Devices

  datatype Registry = Registry(
    inactive: map<string, Device>,
    devices: map<nat, Device>,
    leftFound: bool,
    rightFound: bool)

  /** addDeviceToIndex: nothing for a null device or an occupied index, otherwise the move. */
  function AddDeviceToIndex(r: Registry, dev: Option<Device>, ix: nat): Registry
  {
    if dev.Some? && ix !in r.devices then
      Registry(r.inactive - {dev.value.name}, r.devices[ix := dev.value],
               r.leftFound || dev.value.role == Left, r.rightFound || dev.value.role == Right)
    else r
  }

  /** deactivateDevice: nothing for an absent index, otherwise the move back under the device's name. */
  function DeactivateDevice(r: Registry, ix: nat): Registry
  {
    if ix in r.devices then
      var d := r.devices[ix];
      Registry(r.inactive[d.name := d], r.devices - {ix},
               r.leftFound && d.role != Left, r.rightFound && d.role != Right)
    else r
  }

  /** The names of the active devices. */
  function ActiveNames(r: Registry): set<string>
  {
    set ix | ix in r.devices :: r.devices[ix].name
  }

  /** Whether some active device has the role. */
  predicate HasActive(r: Registry, role: DeviceRole)
  {
    exists ix :: ix in r.devices && r.devices[ix].role == role
  }

  /** At most one configured device holds the role. */
  predicate AtMostOne(roles: map<string, DeviceRole>, role: DeviceRole)
  {
    forall a, b :: a in roles && b in roles && roles[a] == role && roles[b] == role ==> a == b
  }

  /** Every inactive device sits under its own name and is configured with its role. */
  ghost predicate InactiveOk(r: Registry, roles: map<string, DeviceRole>)
  {
    forall n :: n in r.inactive ==>
      r.inactive[n].name == n && n in roles && roles[n] == r.inactive[n].role
      && WellFormedButtons(r.inactive[n].buttons)
  }

  /** Every active device sits below the hardware limit, is configured with its role and is not inactive. */
  ghost predicate ActiveOk(r: Registry, roles: map<string, DeviceRole>)
  {
    forall ix :: ix in r.devices ==>
      ix < MaxTrackedDeviceCount && r.devices[ix].name in roles
      && roles[r.devices[ix].name] == r.devices[ix].role
      && r.devices[ix].name !in r.inactive
      && WellFormedButtons(r.devices[ix].buttons)
  }

  /** No device is active under two indices. */
  predicate ActiveUnique(r: Registry)
  {
    forall i, j :: i in r.devices && j in r.devices && i != j ==> r.devices[i].name != r.devices[j].name
  }

  /** Every configured device is in one of the two maps. */
  ghost predicate Covers(r: Registry, roles: map<string, DeviceRole>)
  {
    forall n :: n in roles ==> n in r.inactive || n in ActiveNames(r)
  }

  /** LEFT and RIGHT are configured at most once each. */
  ghost predicate RolesOk(roles: map<string, DeviceRole>)
  {
    AtMostOne(roles, Left) && AtMostOne(roles, Right)
  }

  /** Each found flag says whether a device with its role is active. */
  ghost predicate FlagsOk(r: Registry)
  {
    (r.leftFound <==> HasActive(r, Left)) && (r.rightFound <==> HasActive(r, Right))
  }

  /**
   * The registry invariant over the configured devices (`roles`, name to
   * role): the conjunction of the predicates above.
   */
  ghost predicate Valid(r: Registry, roles: map<string, DeviceRole>)
  {
    InactiveOk(r, roles) && ActiveOk(r, roles) && ActiveUnique(r) && Covers(r, roles)
    && RolesOk(roles) && FlagsOk(r)
  }

  /** The device is the one the inactive map holds under its name. */
  predicate Owned(r: Registry, d: Device)
  {
    d.name in r.inactive && r.inactive[d.name] == d
  }

  /**
   * The registry invariant in the system's own words: inactive names and
   * active names are disjoint and together they are the configured set.
   */
  lemma Partition(r: Registry, roles: map<string, DeviceRole>)
    requires Valid(r, roles)
    ensures r.inactive.Keys !! ActiveNames(r)
    ensures r.inactive.Keys + ActiveNames(r) == roles.Keys
  {
    forall n | n in ActiveNames(r)
      ensures n !in r.inactive && n in roles
    {
      var ix :| ix in r.devices && r.devices[ix].name == n;
    }
  }

  /** Two active devices never share a role that is configured at most once. */
  lemma UniqueActiveRole(r: Registry, roles: map<string, DeviceRole>, ix: nat, j: nat)
    requires ActiveOk(r, roles) && ActiveUnique(r) && RolesOk(roles)
    requires ix in r.devices && j in r.devices && ix != j
    requires r.devices[ix].role == Left || r.devices[ix].role == Right
    ensures r.devices[j].role != r.devices[ix].role
  {
  }

  /** An owned device is not active, so neither is any other device of its LEFT or RIGHT role. */
  lemma OwnedRoleInactive(r: Registry, roles: map<string, DeviceRole>, d: Device)
    requires InactiveOk(r, roles) && ActiveOk(r, roles) && RolesOk(roles) && Owned(r, d)
    requires d.role == Left || d.role == Right
    ensures forall j :: j in r.devices ==> r.devices[j].role != d.role
    ensures !HasActive(r, d.role)
  {
  }

  lemma AddKeepsCovers(r: Registry, roles: map<string, DeviceRole>, d: Device, ix: nat)
    requires Covers(r, roles) && Owned(r, d) && ix !in r.devices
    ensures Covers(AddDeviceToIndex(r, Some(d), ix), roles)
  {
    var r' := AddDeviceToIndex(r, Some(d), ix);
    forall n | n in roles
      ensures n in r'.inactive || n in ActiveNames(r')
    {
      if n == d.name {
        assert r'.devices[ix].name == n;
      } else if n !in r.inactive {
        var j :| j in r.devices && r.devices[j].name == n;
        assert j in r'.devices && r'.devices[j].name == n;
      }
    }
  }

  lemma AddKeepsFlags(r: Registry, d: Device, ix: nat)
    requires FlagsOk(r) && ix !in r.devices
    ensures FlagsOk(AddDeviceToIndex(r, Some(d), ix))
  {
    var r' := AddDeviceToIndex(r, Some(d), ix);
    assert r'.devices[ix] == d;
    forall role | role != d.role && HasActive(r', role)
      ensures HasActive(r, role)
    {
      var j :| j in r'.devices && r'.devices[j].role == role;
      assert j != ix && j in r.devices;
    }
    forall role | HasActive(r, role)
      ensures HasActive(r', role)
    {
      var j :| j in r.devices && r.devices[j].role == role;
      assert j in r'.devices;
    }
  }

  lemma AddKeepsActive(r: Registry, roles: map<string, DeviceRole>, d: Device, ix: nat)
    requires InactiveOk(r, roles) && ActiveOk(r, roles) && ActiveUnique(r) && Owned(r, d)
    requires ix !in r.devices && ix < MaxTrackedDeviceCount
    ensures ActiveOk(AddDeviceToIndex(r, Some(d), ix), roles)
    ensures ActiveUnique(AddDeviceToIndex(r, Some(d), ix))
  {
    var r' := AddDeviceToIndex(r, Some(d), ix);
    assert r'.devices == r.devices[ix := d] && r'.inactive == r.inactive - {d.name};
    forall j | j in r.devices
      ensures r.devices[j].name != d.name
    {
    }
  }

  /** Activating an owned device at a free index below the limit keeps the invariant. */
  lemma AddPreservesValid(r: Registry, roles: map<string, DeviceRole>, d: Device, ix: nat)
    requires Valid(r, roles) && Owned(r, d) && ix < MaxTrackedDeviceCount
    ensures Valid(AddDeviceToIndex(r, Some(d), ix), roles)
  {
    if ix !in r.devices {
      var r' := AddDeviceToIndex(r, Some(d), ix);
      AddKeepsCovers(r, roles, d, ix);
      AddKeepsFlags(r, d, ix);
      AddKeepsActive(r, roles, d, ix);
      assert InactiveOk(r', roles);
    }
  }

  lemma DeactivateKeepsCovers(r: Registry, roles: map<string, DeviceRole>, ix: nat)
    requires Covers(r, roles) && ix in r.devices
    ensures Covers(DeactivateDevice(r, ix), roles)
  {
    var r' := DeactivateDevice(r, ix);
    var d := r.devices[ix];
    forall n | n in roles
      ensures n in r'.inactive || n in ActiveNames(r')
    {
      if n !in r.inactive && n != d.name {
        var j :| j in r.devices && r.devices[j].name == n;
        assert j != ix && j in r'.devices;
      }
    }
  }

  lemma DeactivateKeepsFlags(r: Registry, roles: map<string, DeviceRole>, ix: nat)
    requires ActiveOk(r, roles) && ActiveUnique(r) && RolesOk(roles) && FlagsOk(r) && ix in r.devices
    ensures FlagsOk(DeactivateDevice(r, ix))
  {
    var r' := DeactivateDevice(r, ix);
    var d := r.devices[ix];
    forall role | role != d.role && HasActive(r, role)
      ensures HasActive(r', role)
    {
      var j :| j in r.devices && r.devices[j].role == role;
      assert j != ix && j in r'.devices;
    }
    forall role | HasActive(r', role)
      ensures HasActive(r, role)
    {
      var j :| j in r'.devices && r'.devices[j].role == role;
      assert j in r.devices;
    }
    if d.role == Left || d.role == Right {
      forall j | j in r'.devices
        ensures r'.devices[j].role != d.role
      {
        UniqueActiveRole(r, roles, ix, j);
      }
    }
  }

  /** Deactivating any index keeps the invariant. */
  lemma DeactivatePreservesValid(r: Registry, roles: map<string, DeviceRole>, ix: nat)
    requires Valid(r, roles)
    ensures Valid(DeactivateDevice(r, ix), roles)
  {
    if ix in r.devices {
      var r' := DeactivateDevice(r, ix);
      DeactivateKeepsCovers(r, roles, ix);
      DeactivateKeepsFlags(r, roles, ix);
      assert InactiveOk(r', roles);
      assert ActiveOk(r', roles);
      assert ActiveUnique(r');
    }
  }

  /** Activating twice at the same index is activating once. */
  lemma AddIdempotent(r: Registry, dev: Option<Device>, ix: nat)
    ensures AddDeviceToIndex(AddDeviceToIndex(r, dev, ix), dev, ix) == AddDeviceToIndex(r, dev, ix)
  {
  }

  /** Deactivating the index just activated restores both maps and both flags. */
  lemma DeactivateUndoesAdd(r: Registry, roles: map<string, DeviceRole>, d: Device, ix: nat)
    requires Valid(r, roles) && Owned(r, d) && ix !in r.devices
    ensures DeactivateDevice(AddDeviceToIndex(r, Some(d), ix), ix) == r
  {
    if d.role == Left || d.role == Right {
      OwnedRoleInactive(r, roles, d);
    }
    UndoMaps(r, d, ix);
    UndoFlags(r, d, ix);
  }

  lemma UndoMaps(r: Registry, d: Device, ix: nat)
    requires Owned(r, d) && ix !in r.devices
    ensures DeactivateDevice(AddDeviceToIndex(r, Some(d), ix), ix).inactive == r.inactive
    ensures DeactivateDevice(AddDeviceToIndex(r, Some(d), ix), ix).devices == r.devices
  {
    var r' := DeactivateDevice(AddDeviceToIndex(r, Some(d), ix), ix);
    assert r'.inactive == (r.inactive - {d.name})[d.name := d];
    assert r'.inactive == r.inactive;
    assert r'.devices == r.devices[ix := d] - {ix};
  }

  lemma UndoFlags(r: Registry, d: Device, ix: nat)
    requires ix !in r.devices
    requires d.role == Left ==> !r.leftFound
    requires d.role == Right ==> !r.rightFound
    ensures DeactivateDevice(AddDeviceToIndex(r, Some(d), ix), ix).leftFound == r.leftFound
    ensures DeactivateDevice(AddDeviceToIndex(r, Some(d), ix), ix).rightFound == r.rightFound
  {
  }

  lemma UpdateKeepsFlags(r: Registry, ix: nat, d: Device)
    requires FlagsOk(r) && ix in r.devices && d.role == r.devices[ix].role
    ensures FlagsOk(r.(devices := r.devices[ix := d]))
  {
    var r' := r.(devices := r.devices[ix := d]);
    forall role | HasActive(r, role)
      ensures HasActive(r', role)
    {
      var j :| j in r.devices && r.devices[j].role == role;
      assert j in r'.devices && r'.devices[j].role == role;
    }
    forall role | HasActive(r', role)
      ensures HasActive(r, role)
    {
      var j :| j in r'.devices && r'.devices[j].role == role;
      assert j in r.devices && r.devices[j].role == role;
    }
  }

  lemma UpdateKeepsCovers(r: Registry, roles: map<string, DeviceRole>, ix: nat, d: Device)
    requires Covers(r, roles) && ix in r.devices && d.name == r.devices[ix].name
    ensures Covers(r.(devices := r.devices[ix := d]), roles)
  {
    var r' := r.(devices := r.devices[ix := d]);
    forall n | n in roles && n !in r.inactive
      ensures n in ActiveNames(r')
    {
      var j :| j in r.devices && r.devices[j].name == n;
      assert j in r'.devices && r'.devices[j].name == n;
    }
  }

  /** Writing a new sample into an active device keeps the invariant when name, role and button shape stay. */
  lemma UpdateActivePreservesValid(r: Registry, roles: map<string, DeviceRole>, ix: nat, d: Device)
    requires Valid(r, roles) && ix in r.devices
    requires d.name == r.devices[ix].name && d.role == r.devices[ix].role && WellFormedButtons(d.buttons)
    ensures Valid(r.(devices := r.devices[ix := d]), roles)
  {
    UpdateKeepsFlags(r, ix, d);
    UpdateKeepsCovers(r, roles, ix, d);
    UpdateKeepsActive(r, roles, ix, d);
  }

  lemma UpdateKeepsActive(r: Registry, roles: map<string, DeviceRole>, ix: nat, d: Device)
    requires ActiveOk(r, roles) && ActiveUnique(r) && ix in r.devices
    requires d.name == r.devices[ix].name && d.role == r.devices[ix].role && WellFormedButtons(d.buttons)
    ensures ActiveOk(r.(devices := r.devices[ix := d]), roles)
    ensures ActiveUnique(r.(devices := r.devices[ix := d]))
  {
  }

  /** The active devices by name; well defined because no name is active twice. */
  function ActiveByName(r: Registry): (m: map<string, Device>)
    requires ActiveUnique(r)
    ensures m.Keys == ActiveNames(r)
  {
    map ix | ix in r.devices :: r.devices[ix].name := r.devices[ix]
  }

  /** Each active device is what ActiveByName holds under its name. */
  lemma ActiveByNameAt(r: Registry, ix: nat)
    requires ActiveUnique(r) && ix in r.devices
    ensures r.devices[ix].name in ActiveByName(r) && ActiveByName(r)[r.devices[ix].name] == r.devices[ix]
  {
  }

  /** Every configured device by name, whichever map holds it. */
  function ByName(r: Registry): map<string, Device>
    requires ActiveUnique(r)
  {
    r.inactive + ActiveByName(r)
  }

  lemma DeactivateActiveNames(r: Registry, ix: nat)
    requires ActiveUnique(r) && ix in r.devices
    ensures ActiveNames(DeactivateDevice(r, ix)) == ActiveNames(r) - {r.devices[ix].name}
  {
    var r' := DeactivateDevice(r, ix);
    forall m | m in ActiveNames(r)
      ensures m in ActiveNames(r') <==> m != r.devices[ix].name
    {
      var j :| j in r.devices && r.devices[j].name == m;
      if m != r.devices[ix].name {
        assert j != ix && j in r'.devices;
      }
    }
  }

  lemma DeactivateKeepsUnique(r: Registry, ix: nat)
    requires ActiveUnique(r)
    ensures ActiveUnique(DeactivateDevice(r, ix))
  {
  }

  lemma DeactivateActiveValues(r: Registry, ix: nat)
    requires ActiveUnique(r) && ActiveUnique(DeactivateDevice(r, ix))
    ensures forall m :: m in ActiveByName(DeactivateDevice(r, ix)) ==>
      m in ActiveByName(r) && ActiveByName(DeactivateDevice(r, ix))[m] == ActiveByName(r)[m]
  {
    var r' := DeactivateDevice(r, ix);
    forall m | m in ActiveByName(r')
      ensures m in ActiveByName(r) && ActiveByName(r')[m] == ActiveByName(r)[m]
    {
      var j :| j in r'.devices && r'.devices[j].name == m;
      ActiveByNameAt(r', j);
      ActiveByNameAt(r, j);
    }
  }

  lemma DeactivateActiveByName(r: Registry, ix: nat)
    requires ActiveUnique(r) && ActiveUnique(DeactivateDevice(r, ix)) && ix in r.devices
    ensures ActiveByName(DeactivateDevice(r, ix)) == ActiveByName(r) - {r.devices[ix].name}
  {
    DeactivateActiveNames(r, ix);
    DeactivateActiveValues(r, ix);
  }

  /** Moving one entry from the right operand of a union to the left one keeps the union. */
  lemma MoveEntry<K, V>(i: map<K, V>, a: map<K, V>, k: K)
    requires k in a
    ensures i[k := a[k]] + (a - {k}) == i + a
  {
  }

  /** The invariant of the reset loop of handleInput: valid, and every device as it was under its name. */
  ghost predicate Resetting(r: Registry, roles: map<string, DeviceRole>, byName: map<string, Device>)
  {
    Valid(r, roles) && ByName(r) == byName
  }

  /** A valid registry is where the reset loop starts. */
  lemma ResetStart(r: Registry, roles: map<string, DeviceRole>)
    requires Valid(r, roles)
    ensures ActiveUnique(r) && Resetting(r, roles, ByName(r))
  {
  }

  /** One step of the reset loop: the registry stays valid, no device changes, one fewer is active. */
  lemma DeactivateStep(r: Registry, roles: map<string, DeviceRole>, byName: map<string, Device>, ix: nat)
    requires Resetting(r, roles, byName) && ix in r.devices
    ensures Resetting(DeactivateDevice(r, ix), roles, byName)
    ensures |DeactivateDevice(r, ix).devices| < |r.devices|
  {
    DeactivatePreservesValid(r, roles, ix);
    DeactivateKeepsByName(r, ix);
    DeactivateShrinks(r, ix);
  }

  /** When the reset loop ends every device is inactive, unchanged, under its name. */
  lemma ResetDone(r: Registry, roles: map<string, DeviceRole>, byName: map<string, Device>)
    requires Resetting(r, roles, byName) && r.devices == map[]
    ensures Valid(r, roles) && r.inactive == byName && !r.leftFound && !r.rightFound
  {
    NoActive(r, roles);
  }

  /** Deactivating an active index leaves one fewer active device. */
  lemma DeactivateShrinks(r: Registry, ix: nat)
    requires ix in r.devices
    ensures |DeactivateDevice(r, ix).devices| == |r.devices| - 1
  {
    assert DeactivateDevice(r, ix).devices.Keys == r.devices.Keys - {ix};
  }

  lemma DeactivateKeepsByName(r: Registry, ix: nat)
    requires ActiveUnique(r)
    ensures ActiveUnique(DeactivateDevice(r, ix))
    ensures ByName(DeactivateDevice(r, ix)) == ByName(r)
  {
    DeactivateKeepsUnique(r, ix);
    if ix in r.devices {
      DeactivateActiveByName(r, ix);
      ActiveByNameAt(r, ix);
      MoveEntry(r.inactive, ActiveByName(r), r.devices[ix].name);
    }
  }

  /** With no active device the configured devices are the inactive map and no role is found. */
  lemma NoActive(r: Registry, roles: map<string, DeviceRole>)
    requires Valid(r, roles) && r.devices == map[]
    ensures ByName(r) == r.inactive && r.inactive.Keys == roles.Keys
    ensures !r.leftFound && !r.rightFound
  {
    NoActiveByName(r);
    NoActiveNames(r);
    Partition(r, roles);
  }

  lemma NoActiveByName(r: Registry)
    requires ActiveUnique(r) && r.devices == map[]
    ensures ByName(r) == r.inactive
  {
    assert ActiveByName(r).Keys == {};
  }

  lemma NoActiveNames(r: Registry)
    requires r.devices == map[]
    ensures ActiveNames(r) == {}
    ensures !HasActive(r, Left) && !HasActive(r, Right)
  {
  }

  /** The keys of ByName are the configured names. */
  lemma ByNameKeys(r: Registry, roles: map<string, DeviceRole>)
    requires Valid(r, roles)
    ensures ByName(r).Keys == roles.Keys
  {
    Partition(r, roles);
  }

  // ---- The scans of findDevFromRole ----

  /** std::string ordering: lexicographic by character code, a proper prefix first. */
  predicate StrLess(a: string, b: string)
    decreases |a|
  {
    |b| > 0 && (|a| == 0 || a[0] < b[0] || (a[0] == b[0] && StrLess(a[1..], b[1..])))
  }

  lemma {:induction false} StrLessIrreflexive(a: string)
    ensures !StrLess(a, a)
    decreases |a|
  {
    if |a| > 0 {
      StrLessIrreflexive(a[1..]);
    }
  }

  lemma {:induction false} StrLessTransitive(a: string, b: string, c: string)
    requires StrLess(a, b) && StrLess(b, c)
    ensures StrLess(a, c)
    decreases |a|
  {
    if |a| > 0 && a[0] == b[0] && b[0] == c[0] {
      StrLessTransitive(a[1..], b[1..], c[1..]);
    }
  }

  lemma {:induction false} StrLessTotal(a: string, b: string)
    requires a != b
    ensures StrLess(a, b) || StrLess(b, a)
    decreases |a|
  {
    if |a| > 0 && |b| > 0 && a[0] == b[0] {
      assert a == [a[0]] + a[1..] && b == [b[0]] + b[1..];
      StrLessTotal(a[1..], b[1..]);
    }
  }

  /** n is the first key, in std::map order, of a device with the role. */
  predicate IsFirstByName(m: map<string, Device>, role: DeviceRole, n: string)
  {
    && n in m && m[n].role == role
    && forall k :: k in m && m[k].role == role && k != n ==> StrLess(n, k)
  }

  /** ix is the lowest index of a device with the role. */
  predicate IsFirstByIndex(m: map<nat, Device>, role: DeviceRole, ix: nat)
  {
    && ix in m && m[ix].role == role
    && forall k :: k in m && m[k].role == role && k != ix ==> ix < k
  }

  /**
   * findDevFromRole over the inactive map: the device with the role whose
   * name comes first in ascending name order, or null when there is none.
   */
  method FirstInactiveByRole(m: map<string, Device>, role: DeviceRole) returns (r: Option<Device>)
    ensures r.None? <==> forall k :: k in m ==> m[k].role != role
    ensures r.Some? ==> exists n :: IsFirstByName(m, role, n) && r.value == m[n]
  {
    var todo := m.Keys;
    var best: Option<string> := None;
    while todo != {}
      invariant todo <= m.Keys
      invariant best.None? ==> forall k :: k in m && k !in todo ==> m[k].role != role
      invariant best.Some? ==> best.value in m && best.value !in todo && m[best.value].role == role
      invariant best.Some? ==>
        forall k :: k in m && k !in todo && m[k].role == role && k != best.value ==> StrLess(best.value, k)
      decreases todo
    {
      var k :| k in todo;
      if m[k].role == role {
        if best.None? {
          best := Some(k);
        } else if StrLess(k, best.value) {
          var old_best := best.value;
          forall k' | k' in m && k' !in todo && m[k'].role == role && k' != old_best
            ensures StrLess(k, k')
          {
            StrLessTransitive(k, old_best, k');
          }
          best := Some(k);
        } else {
          StrLessTotal(k, best.value);
        }
      }
      todo := todo - {k};
    }
    if best.Some? {
      r := Some(m[best.value]);
    } else {
      r := None;
    }
  }

  /** findDevFromRole over the active map: the device with the role at the lowest index, or null. */
  method FirstActiveByRole(m: map<nat, Device>, role: DeviceRole) returns (r: Option<Device>)
    ensures r.None? <==> forall k :: k in m ==> m[k].role != role
    ensures r.Some? ==> exists ix :: IsFirstByIndex(m, role, ix) && r.value == m[ix]
  {
    var todo := m.Keys;
    var best: Option<nat> := None;
    while todo != {}
      invariant todo <= m.Keys
      invariant best.None? ==> forall k :: k in m && k !in todo ==> m[k].role != role
      invariant best.Some? ==> best.value in m && best.value !in todo && m[best.value].role == role
      invariant best.Some? ==>
        forall k :: k in m && k !in todo && m[k].role == role && k != best.value ==> best.value < k
      decreases todo
    {
      var k :| k in todo;
      if m[k].role == role && (best.None? || k < best.value) {
        best := Some(k);
      }
      todo := todo - {k};
    }
    if best.Some? {
      r := Some(m[best.value]);
    } else {
      r := None;
    }
  }
}
