/**
 * Device roles and the button-key vocabulary shared by the runtime and its
 * configuration file (include/mimicry_openvr/mimicry_app.hpp).
 */
module Vocabulary {

  /** The logical role a configured device plays. */
  datatype DeviceRole = Left | Right | Tracker | Invalid

  /** Parses a role name from the configuration file; anything unknown is Invalid. */
  function RoleNameToEnum(name: string): (r: DeviceRole)
    ensures r == Left <==> name == "left"
    ensures r == Right <==> name == "right"
    ensures r == Tracker <==> name == "tracker"
  {
    if name == "left" then Left
    else if name == "right" then Right
    else if name == "tracker" then Tracker
    else Invalid
  }

  /** The role name published on the wire; total over the four roles. */
  function RoleEnumToName(role: DeviceRole): (s: string)
    ensures s in {"left", "right", "tracker", "invalid"}
    ensures role != Invalid <==> s != "invalid"
  {
    match role
    case Left => "left"
    case Right => "right"
    case Tracker => "tracker"
    case Invalid => "invalid"
  }

  /** Naming a role and parsing the name back gives the role, INVALID included. */
  lemma RoleRoundTrip(role: DeviceRole)
    ensures RoleNameToEnum(RoleEnumToName(role)) == role
  {
  }

  /**
   * Parsing a name and naming the role gives the name back exactly for the
   * four names the renderer produces: "left", "right", "tracker" and also
   * "invalid", which parses to INVALID and is rendered as "invalid" again.
   */
  lemma {:induction false} NameRoundTrip(name: string)
    ensures RoleEnumToName(RoleNameToEnum(name)) == name
            <==> name in {"left", "right", "tracker", "invalid"}
  {
    if name == "invalid" {
      assert name != "left" && name != "right" && name != "tracker";
      assert RoleNameToEnum(name) == Invalid;
    }
  }

  // OpenVR's EVRButtonId values of the seven configurable buttons.
  const ApplicationMenuId: nat := 1
  const GripId: nat := 2
  const Axis0Id: nat := 32
  const Axis1Id: nat := 33
  const Axis2Id: nat := 34
  const Axis3Id: nat := 35
  const Axis4Id: nat := 36

  /** The seven button ids a configuration may name, in ascending order. */
  const KnownIds: seq<nat> := [ApplicationMenuId, GripId, Axis0Id, Axis1Id, Axis2Id, Axis3Id, Axis4Id]

  /** VRButton::KEY_TO_ID: configuration button keys to OpenVR button ids. */
  const KeyToId: map<string, nat> := map[
    "APP_MENU" := ApplicationMenuId,
    "GRIP" := GripId,
    "AXIS0" := Axis0Id,
    "AXIS1" := Axis1Id,
    "AXIS2" := Axis2Id,
    "AXIS3" := Axis3Id,
    "AXIS4" := Axis4Id
  ]

  /** The configuration key of a known button id (the inverse of KeyToId). */
  function IdToKey(id: nat): (key: string)
    requires id in KnownIds
    ensures key in KeyToId && KeyToId[key] == id
  {
    if id == ApplicationMenuId then "APP_MENU"
    else if id == GripId then "GRIP"
    else if id == Axis0Id then "AXIS0"
    else if id == Axis1Id then "AXIS1"
    else if id == Axis2Id then "AXIS2"
    else if id == Axis3Id then "AXIS3"
    else "AXIS4"
  }

  /** KEY_TO_ID maps its keys one-to-one onto the known ids. */
  lemma KeyToIdIsBijection()
    ensures KeyToId.Values == set id | id in KnownIds
    ensures forall k1, k2 :: k1 in KeyToId && k2 in KeyToId && k1 != k2 ==> KeyToId[k1] != KeyToId[k2]
  {
    KeyToIdValues();
    forall k1, k2 | k1 in KeyToId && k2 in KeyToId && k1 != k2
      ensures KeyToId[k1] != KeyToId[k2]
    {
      IdToKeyInverts(k1);
      IdToKeyInverts(k2);
    }
  }

  lemma KeyToIdValues()
    ensures KeyToId.Values == set id | id in KnownIds
  {
    forall id | id in KnownIds
      ensures id in KeyToId.Values
    {
      assert KeyToId[IdToKey(id)] == id;
    }
  }

  /** Every known id is found again from its key. */
  lemma KeyOfIdInverts(id: nat)
    requires id in KnownIds
    ensures IdToKey(id) in KeyToId && KeyToId[IdToKey(id)] == id
  {
  }

  /** Every key of KEY_TO_ID is found again from its id. */
  lemma IdToKeyInverts(key: string)
    requires key in KeyToId
    ensures KeyToId[key] in KnownIds && IdToKey(KeyToId[key]) == key
  {
  }
}
