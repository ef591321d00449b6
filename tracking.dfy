/**
 * What the OpenVR system reports about its hardware index space during one
 * tick, as an immutable snapshot (one entry per index).
 */
module Tracking {

  /** vr::k_unMaxTrackedDeviceCount. */
  const MaxTrackedDeviceCount: nat := 64

  /** vr::ETrackedDeviceClass. */
  datatype DeviceClass = ClassInvalid | Hmd | Controller | GenericTracker | TrackingReference | DisplayRedirect

  /** vr::ETrackedControllerRole. */
  datatype VrRole = VrInvalid | LeftHand | RightHand | OptOut | Treadmill | Stylus

  // vr::EVRControllerAxisType values, as reported through the Axis<k>Type_Int32 property.
  const AxisNone: int := 0
  const AxisTrackPad: int := 1
  const AxisJoystick: int := 2
  const AxisTrigger: int := 3

  /** The number of analog axes of a controller state (rAxis). */
  const AxisCount: nat := 5

  /** vr::VRControllerAxis_t. */
  datatype Axis = Axis(x: real, y: real)

  type Row = r: seq<real> | |r| == 4 witness [0.0, 0.0, 0.0, 0.0]

  const ZeroRow: Row := [0.0, 0.0, 0.0, 0.0]

  /** vr::HmdMatrix34_t, row-major: three rows of four. */
  type Matrix34 = m: seq<Row> | |m| == 3
    witness [ZeroRow, ZeroRow, ZeroRow]

  /** An orientation quaternion. */
  datatype Quat = Quat(x: real, y: real, z: real, w: real)

  type Axes = a: seq<Axis> | |a| == AxisCount
    witness [Axis(0.0, 0.0), Axis(0.0, 0.0), Axis(0.0, 0.0), Axis(0.0, 0.0), Axis(0.0, 0.0)]

  type AxisTypes = a: seq<int> | |a| == AxisCount witness [0, 0, 0, 0, 0]

  /**
   * Everything read about one hardware index during a tick: connection,
   * class, hand role, the pose (validity, device-to-absolute matrix and the
   * orientation quaternion computed from it), the pressed-button bitmask,
   * the five axes and the five axis-type properties.
   */
  datatype IndexState = IndexState(
    connected: bool,
    deviceClass: DeviceClass,
    controllerRole: VrRole,
    poseValid: bool,
    matrix: Matrix34,
    orientation: Quat,
    buttonPressed: bv64,
    axes: Axes,
    axisTypes: AxisTypes)

  /** One tick's view of the tracking service: an entry for every hardware index. */
  predicate IsSnapshot(snap: seq<IndexState>)
  {
    |snap| == MaxTrackedDeviceCount
  }

  /** vr::ButtonMaskFromId: the bit of a button in the pressed bitmask. */
  function ButtonMaskFromId(id: nat): (mask: bv64)
    requires id < 64
  {
    (1 as bv64) << id
  }

  /** Whether the pressed bitmask has the bit of button `id` set. */
  predicate ButtonPressed(e: IndexState, id: nat)
    requires id < 64
  {
    ButtonMaskFromId(id) & e.buttonPressed != 0
  }
}
