/**
 * The pieces of the interactive setup tool (src/updated_params.cpp) that do
 * not talk to the terminal: the role translation, the progress-dot ticker
 * and one pass of the controller search over a tracking snapshot.
 */
module UpdatedParams {
  import opened Wrappers
  import opened Vocabulary
  import opened Tracking
  import App

  /** roleToVREnum: the OpenVR hand role of a configured role; only the two hands have one. */
  function RoleToVrEnum(role: DeviceRole): (r: VrRole)
    ensures r == LeftHand <==> role == Left
    ensures r == RightHand <==> role == Right
    ensures r == LeftHand || r == RightHand || r == VrInvalid
  {
    match role
    case Left => LeftHand
    case Right => RightHand
    case _ => VrInvalid
  }

  /**
   * The tool and the runtime agree on hands: a controller carrying the
   * OpenVR role the tool looks for is activated by the runtime in exactly
   * that role, and for TRACKER or INVALID the runtime activates no
   * controller, whichever reading of the runtime's class test is taken.
   */
  lemma ToolAndRuntimeAgree(role: DeviceRole, test: App.ClassTest)
    ensures App.Target(test, Controller, RoleToVrEnum(role))
         == if role == Left || role == Right then Some(role) else None
  {
  }

  // ---- dots ----

  /** An unsigned (32-bit) value. */
  type Unsigned = x: nat | x < 0x1_0000_0000

  /** max_width: the number of dots meant for one line. */
  const MaxWidth: nat := 75

  /** dots prints a dot on the ticks that are a multiple of the frequency. */
  predicate DotAt(tick: nat, freq: nat)
    requires freq > 0
  {
    tick % freq == 0
  }

  /** dots, as written, ends the line on every tick whose quotient by the frequency is max_width. */
  predicate NewlineAsWritten(tick: nat, freq: nat)
    requires freq > 0
  {
    tick / freq == MaxWidth
  }

  /** The line break the ticker evidently means: after every max_width-th dot. */
  predicate NewlineIntended(tick: nat, freq: nat)
    requires freq > 0
  {
    tick > 0 && DotAt(tick, freq) && (tick / freq) % MaxWidth == 0
  }

  /** The function-static tick counter of dots and the calls that drive it. */
  class DotTicker {
    var tick: Unsigned

    /** A static counter starts at zero. */
    constructor()
      ensures tick == 0
    {
      tick := 0;
    }

    /**
     * dots(freq): 0 resets the counter; otherwise the counter goes up by one
     * (wrapping like an unsigned int), a dot is printed when it is a multiple
     * of freq, and a line break when its quotient by freq is max_width.
     */
    method Dots(freq: Unsigned) returns (dot: bool, newline: bool)
      modifies this
      ensures freq == 0 ==> tick == 0 && !dot && !newline
      ensures freq > 0 ==> tick == (old(tick) + 1) % 0x1_0000_0000
      ensures freq > 0 ==> dot == DotAt(tick, freq) && newline == NewlineAsWritten(tick, freq)
    {
      dot, newline := false, false;
      if freq == 0 {
        tick := 0;
      } else {
        tick := (tick + 1) % 0x1_0000_0000;
        if tick % freq == 0 {
          dot := true;
        }
        if tick / freq == MaxWidth {
          newline := true;
        }
      }
    }

    /** dots with the line break it evidently means: after every max_width-th dot. */
    method DotsIntended(freq: Unsigned) returns (dot: bool, newline: bool)
      modifies this
      ensures freq == 0 ==> tick == 0 && !dot && !newline
      ensures freq > 0 ==> tick == (old(tick) + 1) % 0x1_0000_0000
      ensures freq > 0 ==> dot == DotAt(tick, freq) && newline == NewlineIntended(tick, freq)
      ensures newline ==> dot
    {
      dot, newline := false, false;
      if freq == 0 {
        tick := 0;
      } else {
        tick := (tick + 1) % 0x1_0000_0000;
        if tick % freq == 0 {
          dot := true;
          if tick > 0 && (tick / freq) % MaxWidth == 0 {
            newline := true;
          }
        }
      }
    }
  }

  /**
   * As written, the line break comes on every tick of one window: exactly
   * the ticks from max_width * freq up to, not including,
   * (max_width + 1) * freq, and never before or after.
   */
  lemma NewlineWindow(tick: nat, freq: nat)
    requires freq > 0
    ensures NewlineAsWritten(tick, freq) <==> MaxWidth * freq <= tick < (MaxWidth + 1) * freq
  {
    if MaxWidth * freq <= tick < (MaxWidth + 1) * freq {
      DivMulAdd(freq, MaxWidth, tick - MaxWidth * freq);
    }
    if NewlineAsWritten(tick, freq) {
      assert tick == (tick / freq) * freq + tick % freq;
    }
  }

  /**
   * So for any frequency above one the line break is printed freq times in
   * a row: once with the 75th dot, then on each of the next freq - 1 ticks,
   * none of which prints a dot; and no other tick ends the line.
   */
  lemma NewlineRepeats(freq: nat)
    requires freq > 1
    ensures NewlineAsWritten(MaxWidth * freq, freq) && DotAt(MaxWidth * freq, freq)
    ensures forall t: nat :: MaxWidth * freq < t < (MaxWidth + 1) * freq ==> NewlineAsWritten(t, freq) && !DotAt(t, freq)
    ensures forall t: nat :: t < MaxWidth * freq || t >= (MaxWidth + 1) * freq ==> !NewlineAsWritten(t, freq)
  {
    NewlineWindow(MaxWidth * freq, freq);
    DivMulAdd(freq, MaxWidth, 0);
    forall t: nat | MaxWidth * freq < t < (MaxWidth + 1) * freq
      ensures NewlineAsWritten(t, freq) && !DotAt(t, freq)
    {
      NewlineWindow(t, freq);
      DivMulAdd(freq, MaxWidth, t - MaxWidth * freq);
    }
    forall t: nat | t < MaxWidth * freq || t >= (MaxWidth + 1) * freq
      ensures !NewlineAsWritten(t, freq)
    {
      NewlineWindow(t, freq);
    }
  }

  /**
   * The caller's frequency (REFRESH_RATE * 1.5 = 180): the ticks 13500 to
   * 13679 all end the line, 180 line breaks in a row, and only the first
   * of them comes with a dot.
   */
  lemma NewlineRepeatsAtCallerFrequency()
    ensures forall t: nat :: NewlineAsWritten(t, 180) <==> 13500 <= t < 13680
    ensures DotAt(13500, 180) && forall t: nat :: 13500 < t < 13680 ==> !DotAt(t, 180)
  {
    NewlineRepeats(180);
    forall t: nat
      ensures NewlineAsWritten(t, 180) <==> 13500 <= t < 13680
    {
      NewlineWindow(t, 180);
    }
  }

  /** The intended break comes exactly after dot number 75, 150, 225, ... */
  lemma NewlineIntendedRows(tick: nat, freq: nat)
    requires freq > 0
    ensures NewlineIntended(tick, freq) <==> exists k: nat :: k > 0 && tick == (k * MaxWidth) * freq
  {
    if NewlineIntended(tick, freq) {
      var q := tick / freq;
      var k := q / MaxWidth;
      assert q == k * MaxWidth;
      assert tick == q * freq;
      assert k > 0;
    }
    if exists k: nat :: k > 0 && tick == (k * MaxWidth) * freq {
      var k: nat :| k > 0 && tick == (k * MaxWidth) * freq;
      DivMulAdd(freq, k * MaxWidth, 0);
      assert tick / freq == k * MaxWidth;
    }
  }

  /** (q * f + r) / f == q and (q * f + r) % f == r for r below f. */
  lemma DivMulAdd(f: nat, q: nat, r: nat)
    requires 0 <= r < f
    ensures (q * f + r) / f == q && (q * f + r) % f == r
  {
    var n := q * f + r;
    MulStep(n / f, q, f);
    MulStep(q, n / f, f);
  }

  /** A value of at least m * f has a quotient by f of at least m. */
  lemma DivAtLeast(t: nat, f: nat, m: nat)
    requires f > 0 && t >= m * f
    ensures t / f >= m
  {
    MulStep(t / f, m, f);
  }

  /** Multiplying by f keeps a strict order at least f apart. */
  lemma {:induction false} MulStep(a: nat, b: nat, f: nat)
    ensures a < b ==> (a + 1) * f <= b * f
    decreases b
  {
    if a + 1 < b {
      MulStep(a, b - 1, f);
      assert (b - 1) * f + f == b * f;
    }
  }

  // ---- checkController ----

  /** The test of the scan: a connected controller whose OpenVR role is the requested one. */
  predicate MatchesRole(e: IndexState, inRole: VrRole)
  {
    e.deviceClass == Controller && e.connected && e.controllerRole == inRole
  }

  /**
   * One pass of checkController's scan over every hardware index: the last
   * matching index, with its role, is recorded in the tool's parameters;
   * when no index matches the parameters are left as they were.
   */
  method CheckControllerPass(snap: seq<IndexState>, role: DeviceRole, contrIx: nat, curRole: DeviceRole)
    returns (found: bool, contrIx': nat, curRole': DeviceRole)
    requires IsSnapshot(snap)
    ensures found <==> exists ix :: 0 <= ix < |snap| && MatchesRole(snap[ix], RoleToVrEnum(role))
    ensures found ==> contrIx' < |snap| && MatchesRole(snap[contrIx'], RoleToVrEnum(role)) && curRole' == role
    ensures found ==> forall j :: contrIx' < j < |snap| ==> !MatchesRole(snap[j], RoleToVrEnum(role))
    ensures !found ==> contrIx' == contrIx && curRole' == curRole
  {
    var inRole := RoleToVrEnum(role);
    found, contrIx', curRole' := false, contrIx, curRole;
    for ix := 0 to MaxTrackedDeviceCount
      invariant found <==> exists j :: 0 <= j < ix && MatchesRole(snap[j], inRole)
      invariant found ==> contrIx' < ix && MatchesRole(snap[contrIx'], inRole) && curRole' == role
      invariant found ==> forall j :: contrIx' < j < ix ==> !MatchesRole(snap[j], inRole)
      invariant !found ==> contrIx' == contrIx && curRole' == curRole
    {
      var e := snap[ix];
      if e.deviceClass == Controller {
        if e.connected && e.controllerRole == inRole {
          found := true;
          contrIx' := ix;
          curRole' := role;
        }
      }
    }
  }

  /** A controller the scan finds for a hand is one the runtime activates in that hand's role. */
  lemma FoundIsRuntimeTarget(e: IndexState, role: DeviceRole, test: App.ClassTest)
    requires role == Left || role == Right
    requires MatchesRole(e, RoleToVrEnum(role))
    ensures App.Target(test, e.deviceClass, e.controllerRole) == Some(role)
  {
  }
}
