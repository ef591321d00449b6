/**
 * Configured buttons and devices as values, and how one tick's reading of a
 * hardware index is written into them (src/mimicry_app.cpp).
 */
module Devices {
  import opened Vocabulary
  import opened Tracking

  datatype Vec2 = Vec2(x: real, y: real)
  datatype Vec3 = Vec3(x: real, y: real, z: real)

  /** Position and orientation of a device. */
  datatype Pose = Pose(pos: Vec3, quat: Quat)

  /** The pose of a device that has never been sampled (value-initialised). */
  const ZeroPose: Pose := Pose(Vec3(0.0, 0.0, 0.0), Quat(0.0, 0.0, 0.0, 0.0))

  /** VRButton: OpenVR id, display name, sampled state and the enabled value kinds. */
  datatype Button = Button(
    id: nat,
    name: string,
    pressed: bool,
    pressure: real,
    touchPos: Vec2,
    valTypes: map<string, bool>)

  /** VRDevice: name, role, pose-tracking flag, last sampled pose, buttons keyed by OpenVR id. */
  datatype Device = Device(
    name: string,
    trackPose: bool,
    role: DeviceRole,
    pose: Pose,
    buttons: map<nat, Button>)

  /** What configuration validation guarantees of a device's buttons: known ids, unique names. */
  predicate WellFormedButtons(bs: map<nat, Button>)
  {
    && (forall id :: id in bs ==> id in KnownIds)
    && (forall i, j :: i in bs && j in bs && i != j ==> bs[i].name != bs[j].name)
  }

  /** getPositionFromPose: the translation column of the pose matrix. */
  function PositionFromPose(m: Matrix34): Vec3
  {
    Vec3(m[0][3], m[1][3], m[2][3])
  }

  /**
   * handleButtonByProp: a trackpad or joystick axis stores its (x, y) as the
   * touch position, a trigger stores x as the pressure, any other axis type
   * stores nothing; no other field is touched.
   */
  function HandleButtonByProp(b: Button, axis: Axis, prop: int): (r: Button)
    ensures r.id == b.id && r.name == b.name && r.pressed == b.pressed && r.valTypes == b.valTypes
    ensures r.touchPos == if prop == AxisTrackPad || prop == AxisJoystick then Vec2(axis.x, axis.y) else b.touchPos
    ensures r.pressure == if prop == AxisTrigger then axis.x else b.pressure
  {
    if prop == AxisTrackPad || prop == AxisJoystick then b.(touchPos := Vec2(axis.x, axis.y))
    else if prop == AxisTrigger then b.(pressure := axis.x)
    else b
  }

  /** Whether a button id is one of the five analog axes. */
  predicate IsAxisId(id: nat)
  {
    Axis0Id <= id <= Axis4Id
  }

  /**
   * The body of the per-button switch in handleInput: every known button
   * gets its pressed bit; an axis button additionally goes through
   * handleButtonByProp with its own axis and axis type; an id outside the
   * switch is left alone.
   */
  function SampleButton(b: Button, id: nat, e: IndexState): (r: Button)
    ensures id in KnownIds ==> r.pressed == ButtonPressed(e, id)
    ensures r.id == b.id && r.name == b.name && r.valTypes == b.valTypes
    ensures !IsAxisId(id) ==> r.touchPos == b.touchPos && r.pressure == b.pressure
    ensures IsAxisId(id) ==>
      var k := id - Axis0Id;
      && r.touchPos == (if e.axisTypes[k] == AxisTrackPad || e.axisTypes[k] == AxisJoystick
                        then Vec2(e.axes[k].x, e.axes[k].y) else b.touchPos)
      && r.pressure == (if e.axisTypes[k] == AxisTrigger then e.axes[k].x else b.pressure)
    ensures id !in KnownIds ==> r == b
  {
    if id == ApplicationMenuId || id == GripId then
      b.(pressed := ButtonPressed(e, id))
    else if IsAxisId(id) then
      HandleButtonByProp(b.(pressed := ButtonPressed(e, id)), e.axes[id - Axis0Id], e.axisTypes[id - Axis0Id])
    else
      b
  }

  /** Every button of a map sampled from the same index reading. */
  function SampledButtons(bs: map<nat, Button>, e: IndexState): (r: map<nat, Button>)
  {
    map id | id in bs :: SampleButton(bs[id], id, e)
  }

  /** The button loop of handleInput: each button of the device is sampled in place. */
  method SampleButtons(bs: map<nat, Button>, e: IndexState) returns (r: map<nat, Button>)
    ensures r == SampledButtons(bs, e)
  {
    r := bs;
    var todo := bs.Keys;
    while todo != {}
      invariant todo <= bs.Keys && r.Keys == bs.Keys
      invariant forall id :: id in bs ==> r[id] == if id in todo then bs[id] else SampleButton(bs[id], id, e)
      decreases todo
    {
      var id :| id in todo;
      r := r[id := SampleButton(r[id], id, e)];
      todo := todo - {id};
    }
  }

  /**
   * What handleInput writes into an activated device: the pose (position from
   * the matrix, whatever trackPose says) and, for LEFT and RIGHT devices only,
   * every configured button. Name, role, flag and button names are kept.
   */
  function SampleDevice(d: Device, e: IndexState): (r: Device)
    ensures r.name == d.name && r.role == d.role && r.trackPose == d.trackPose
    ensures r.pose.pos == Vec3(e.matrix[0][3], e.matrix[1][3], e.matrix[2][3])
    ensures r.pose.quat == e.orientation
    ensures r.buttons.Keys == d.buttons.Keys
    ensures d.role != Left && d.role != Right ==> r.buttons == d.buttons
    ensures d.role == Left || d.role == Right ==>
      forall id :: id in d.buttons ==> r.buttons[id] == SampleButton(d.buttons[id], id, e)
    ensures WellFormedButtons(d.buttons) ==> WellFormedButtons(r.buttons)
  {
    d.(pose := Pose(PositionFromPose(e.matrix), e.orientation),
       buttons := if d.role == Left || d.role == Right then SampledButtons(d.buttons, e) else d.buttons)
  }

  /** Axis classification: a trigger axis never writes the touch position, a pad never the pressure. */
  lemma AxisClassification(b: Button, id: nat, e: IndexState)
    requires IsAxisId(id)
    ensures e.axisTypes[id - Axis0Id] == AxisTrigger ==>
      SampleButton(b, id, e).touchPos == b.touchPos && SampleButton(b, id, e).pressure == e.axes[id - Axis0Id].x
    ensures e.axisTypes[id - Axis0Id] == AxisTrackPad || e.axisTypes[id - Axis0Id] == AxisJoystick ==>
      SampleButton(b, id, e).pressure == b.pressure
      && SampleButton(b, id, e).touchPos == Vec2(e.axes[id - Axis0Id].x, e.axes[id - Axis0Id].y)
    ensures e.axisTypes[id - Axis0Id] !in {AxisTrackPad, AxisJoystick, AxisTrigger} ==>
      SampleButton(b, id, e) == b.(pressed := ButtonPressed(e, id))
  {
  }
}
