# mimicry_openvr in Dafny

This project models the core of mimicry_openvr. The runtime program,
`mimicry_control`, reads a JSON parameter file that describes the VR devices
to track (hand controllers and generic trackers). On every tick of its main
loop it does three things:

- it rebuilds which configured device sits at which OpenVR hardware index;
- it samples the pose and the buttons of each active device;
- it publishes one JSON frame per tick with the role, pose and enabled
  button values of each active device.

Two interactive tools sit beside the runtime. The parameter writer asks
about every device and button and writes the parameter file. The setup
tool searches for a controller of a requested hand role. Both tools accept
answers through the same checks: yes/no words, help and quit, and
`validateEntry`.

Modules:

- `Vocabulary`: the role names, the `KEY_TO_ID` table of button keys and
  their OpenVR ids.
- `Tracking`: one tick's reading of the OpenVR index space, one entry per
  hardware index.
- `Devices`: devices, buttons and poses, and the per-button sampling.
- `DeviceRegistry`: the two maps of the app. Devices not bound to hardware
  sit in the inactive map, by name; active devices sit in the active map,
  by hardware index. The two found flags are part of it. The module holds
  `addDeviceToIndex`, `deactivateDevice`, `findDevFromRole` and the
  invariant these operations keep.
- `Config`: the parsed parameter file, and the device loop and checks of
  `readParameters`.
- `Frame`: the JSON documents the program builds, as a map from leaf key
  paths to leaves, with the semantics of chained `j[k1]...[kn] = v`
  assignments.
- `Publish`: the frame `postOutputData` builds.
- `App`: the `MimicryApp` class. Its fields are the state of the original
  class, and its methods are `activateDevice`, `handleInput`,
  `readParameters` and `postOutputData`.
- `Entry`: the answer checks the two tools share.
- `ParamWriter`: the data the parameter writer collects (`ButtonInfo`,
  `DeviceInfo`, `ParamList`), the parsing of button value types, the
  button questions, and the file it writes.
- `UpdatedParams`: the setup tool's role translation, its progress-dot
  ticker and one pass of its controller search.
- `Text`: the decimal spelling of numbers.

The calls into OpenVR are replaced by an immutable snapshot of what the
system reports for each index during a tick: the device class, the
controller role, whether the device is connected, the validity of its pose,
the pose matrix, the button bitmask, the axes and the axis types. Terminal
prompts are replaced by the list of replies the user gives. The parameter
file is given already parsed.

`activateDevice` tests the device class with `=` where `==` is meant
(see Findings). Its model, and the tick of `handleInput` built on it, take
the reading of that test as a parameter: `AsWritten` is the program as it
stands, where only the hand-controller role decides and trackers are never
activated; `Intended` is the comparison the code evidently means. Every
property of the tick is proved under both readings.

## Model

| member | source | states |
|---|---|---|
| Vocabulary.RoleNameToEnum | src/mimicry_app.cpp:32-50 | exactly "left", "right" and "tracker" parse to LEFT, RIGHT and TRACKER; every other string is INVALID |
| Vocabulary.RoleEnumToName | src/mimicry_app.cpp:52-79 | every role, INVALID included, has a name from the four role names, and only INVALID is named "invalid" |
| Vocabulary.RoleRoundTrip | src/mimicry_app.cpp:32-79 | naming a role and parsing the name gives back the same role, for all four roles |
| Vocabulary.NameRoundTrip | src/mimicry_app.cpp:32-79 | parsing a string and naming the role gives the string back exactly when it is one of "left", "right", "tracker", "invalid" |
| Vocabulary.KeyToIdIsBijection | include/mimicry_openvr/mimicry_app.hpp:37-45 | the button-key table maps distinct keys to distinct ids, and its ids are exactly the seven configurable OpenVR buttons |
| Vocabulary.IdToKeyInverts | include/mimicry_openvr/mimicry_app.hpp:37-45 | every key of the table is recovered from its id |
| Devices.HandleButtonByProp | src/mimicry_app.cpp:218-238 | a trackpad or joystick axis sets only the touch position, a trigger sets only the pressure from x, and any other axis type changes nothing |
| Devices.SampleButton | src/mimicry_app.cpp:557-617 | a known button's pressed flag is its bit of the pressed mask; only the five axis buttons read their axis; an unknown id changes nothing; name, id and value kinds never change |
| Devices.AxisClassification | src/mimicry_app.cpp:218-238 | a trigger axis never moves the touch position, a pad or joystick never moves the pressure, and an unknown axis type touches neither |
| Devices.SampleButtons | src/mimicry_app.cpp:557-618 | the button loop samples every button of the device from the same reading, in place |
| Devices.SampleDevice | src/mimicry_app.cpp:248-257 | a sampled device keeps its name, role and button ids; its position is the translation column; only LEFT and RIGHT devices get their buttons sampled; well-formed buttons stay well formed |
| DeviceRegistry.Partition | include/mimicry_openvr/mimicry_app.hpp:84-85 | in a valid registry every configured device is in exactly one of the two maps |
| DeviceRegistry.UniqueActiveRole | include/mimicry_openvr/mimicry_app.hpp:77-85 | two active devices never share the LEFT or RIGHT role |
| DeviceRegistry.OwnedRoleInactive | src/mimicry_app.cpp:131-144 | while a LEFT or RIGHT device is inactive, no device of its role is active |
| DeviceRegistry.AddPreservesValid | src/mimicry_app.cpp:131-144 | activating an inactive device at an index below the hardware limit keeps the registry valid, and the found flags keep saying which hand is active |
| DeviceRegistry.DeactivatePreservesValid | src/mimicry_app.cpp:192-207 | deactivating any index keeps the registry valid |
| DeviceRegistry.AddIdempotent | src/mimicry_app.cpp:131-144 | activating the same device at the same index twice is the same as activating it once |
| DeviceRegistry.DeactivateUndoesAdd | src/mimicry_app.cpp:131-207 | deactivating the index just filled restores both maps and both flags |
| DeviceRegistry.UpdateActivePreservesValid | src/mimicry_app.cpp:556-622 | writing a new sample into an active device keeps the registry valid, provided the name, the role and the button shape stay |
| DeviceRegistry.DeactivateStep | src/mimicry_app.cpp:531-534 | one step of the reset loop keeps the registry valid, changes no device and leaves one fewer active |
| DeviceRegistry.ResetDone | src/mimicry_app.cpp:531-534 | when the reset loop ends, every configured device is inactive, unchanged, under its name, and neither hand is found |
| DeviceRegistry.ByNameKeys | include/mimicry_openvr/mimicry_app.hpp:84-85 | the devices reachable by name are exactly the configured ones |
| DeviceRegistry.StrLessTotal | src/mimicry_app.cpp:108-113 | the map order of device names is total, so "first by name" is well defined |
| DeviceRegistry.FirstInactiveByRole | src/mimicry_app.cpp:107-116 | null exactly when no inactive device has the role; otherwise the device with the role whose name comes first in map order |
| DeviceRegistry.FirstActiveByRole | src/mimicry_app.cpp:99-106 | null exactly when no active device has the role; otherwise the device with the role at the lowest index |
| Config.DevKeyInjective | src/mimicry_app.cpp:321 | distinct device numbers give distinct "devN" keys |
| Config.BuildButtonsAt | src/mimicry_app.cpp:373-401 | a device's button map holds exactly the known ids whose button key has a record, each built from that record |
| Config.BuildButtonsShape | src/mimicry_app.cpp:373-401 | each button key of a device lands under its OpenVR id, and nothing else is in the button map |
| Config.BuildButtonsWellFormed | src/mimicry_app.cpp:379-386 | valid button records build a button map with known ids and unique names |
| Config.ConfiguredKeys | src/mimicry_app.cpp:319-405 | a name is stored inactive exactly when one of the declared device objects carries it |
| Config.ConfiguredDevicesMatch | src/mimicry_app.cpp:319-405 | an accepted file stores each declared device, as built, under its name, and nothing else |
| Config.ConfiguredValid | src/mimicry_app.cpp:319-420 | the inactive map of an accepted file, with no device active, is a valid registry |
| Config.ConfiguredAtMostOne | src/mimicry_app.cpp:332-350 | an accepted file configures LEFT at most once and RIGHT at most once |
| Config.OneIndexPerHand | src/mimicry_app.cpp:332-350 | in an accepted file two device objects declaring the same hand are the same object |
| Config.MissingRejects | src/mimicry_app.cpp:319-325 | a missing i-th device object rejects the file |
| Config.FailedRejects | src/mimicry_app.cpp:327-402 | a device object that fails its checks rejects the whole file |
| Config.ReadTypes | src/mimicry_app.cpp:388-399 | the type loop accepts exactly when every type key is "boolean", "pressure" or "2d", and then copies the flags |
| Config.ReadButtons | src/mimicry_app.cpp:364-402 | the button loop accepts exactly when every key is in the key table, the names are unique and the types are valid, and then builds the button map |
| Config.ReadButton | src/mimicry_app.cpp:366-401 | one pass of the button loop either rejects records that are invalid or extends the accepted part by one key |
| Config.DuplicateRejects | src/mimicry_app.cpp:379-386 | a button whose name an earlier button of the same device already has makes the records invalid |
| Config.NameTaken | src/mimicry_app.cpp:379-386 | the duplicate scan finds the name exactly when some button read so far has it |
| App.ControllerTarget | src/mimicry_app.cpp:158-183 | the intended class test: a left or right controller asks for LEFT or RIGHT, a generic tracker asks for TRACKER, and nothing asks for INVALID |
| App.ControllerTargetAsWritten | src/mimicry_app.cpp:160-176 | the class test as written: only the controller role counts, whatever the class |
| App.AsWrittenNeverTracker | src/mimicry_app.cpp:160-181 | as written, no index ever asks for a TRACKER, and the device class has no effect |
| App.TrackerCounterexample | src/mimicry_app.cpp:160-181 | a generic tracker is activated by the intended test but not by the written one |
| App.AsWrittenAgreesOnControllers | src/mimicry_app.cpp:160-176 | on controllers the written and the intended test agree |
| App.TickStep | src/mimicry_app.cpp:536-623 | under either reading of the class test (the one as written included), dealing with one index keeps the invariant of the index loop |
| App.TickSampled | src/mimicry_app.cpp:550-622 | under either reading of the class test, a device activated at a qualified index carries that index's sample, and the others keep theirs |
| App.TickExhausted | src/mimicry_app.cpp:550-553 | under either reading of the class test, a qualified index that stays empty found no inactive device of the role it asks for |
| App.TickLowest | src/mimicry_app.cpp:536-553 | a device activated at an index leaves no earlier qualified index asking for its role empty |
| App.TickOrdered | src/mimicry_app.cpp:107-116 | the device taken comes after every active device of its role and before every inactive one in name order |
| App.WrittenHandsOnly | src/mimicry_app.cpp:160-181 | with the class test as written, every device a tick activates is LEFT or RIGHT, never TRACKER |
| Config.ReadDevice | src/mimicry_app.cpp:319-404 | one object of the device loop either rejects a file that is invalid or extends the accepted prefix by one device |
| Config.ReadDevices | src/mimicry_app.cpp:319-405 | the device loop either rejects an invalid file or has read all declared devices |
| Config.ReadConfig | src/mimicry_app.cpp:319-411 | the device loop and the bimanual check accept exactly the valid files, and store the configured devices and the two config flags |
| App.MimicryApp.constructor | include/mimicry_openvr/mimicry_app.hpp:87-90 | a fresh app is not running, has every flag false, socket 0, empty parameters and two empty maps |
| App.MimicryApp.AddDeviceToIndex | src/mimicry_app.cpp:131-144 | the state after the call is the registry move, and nothing else changes |
| App.MimicryApp.DeactivateDevice | src/mimicry_app.cpp:192-207 | the state after the call is the move back under the device's name, and nothing else changes |
| App.MimicryApp.FindDevFromRole | src/mimicry_app.cpp:95-117 | from the chosen map, null exactly when no device has the role; otherwise the first device with it |
| App.MimicryApp.ActivateDevice | src/mimicry_app.cpp:155-184 | under the given reading of the class test (as written: only the controller role counts), an index that asks for no role activates nothing; otherwise the first inactive device of the role asked for, if any, moves to the index |
| App.MimicryApp.DeactivateAll | src/mimicry_app.cpp:531-534 | every active device returns to the inactive map unchanged, neither hand is found, and the app stays valid |
| App.MimicryApp.HandleInput | src/mimicry_app.cpp:528-624 | under the given reading of the class test: after a tick the app is valid; every active device sits at a qualified index that asks for its role and carries that index's sample; every inactive device is unchanged; a qualified index left empty found no device of its role; a device sits at the lowest qualified index asking for its role, devices of one role fill those indices in name order ahead of the inactive ones; as written no TRACKER is active |
| App.MimicryApp.HandleIndex | src/mimicry_app.cpp:536-623 | one pass of the index loop keeps the loop invariant for one more index and changes nothing else |
| App.MimicryApp.ReadParameters | src/mimicry_app.cpp:291-420 | the five top-level fields (device count, bimanual flag, address, port, frequency) are copied from the file before any check, so also when it is rejected; a file is accepted exactly when it is valid; an accepted file leaves every configured device inactive under its name, with the two config flags set as declared, and the app valid |
| App.MimicryApp.PostOutputData | src/mimicry_app.cpp:629-687 | the outcome of publishing the active devices with the current flags |
| App.PublishFromRegistry | src/mimicry_app.cpp:633-682 | in a valid registry a bimanual frame is withheld exactly when a hand is inactive; otherwise, when there are active devices and no button is named "role", a frame is published with every active device's entries, only their names at the top, and nothing below a device but its role, pose and enabled button values |
| Frame.Put | src/mimicry_app.cpp:647-677 | an assignment throws exactly when a leaf sits on a proper prefix of its path; otherwise it sets its path and keeps every leaf it does not cover |
| Frame.ApplyPrefixFree | src/mimicry_app.cpp:643-682 | a block of assignments whose paths never cover each other cannot throw and adds exactly its leaves |
| Publish.Publish | src/mimicry_app.cpp:633-641 | a bimanual frame with a missing hand is withheld first; otherwise no active device means no frame |
| Publish.PublishedFrame | src/mimicry_app.cpp:643-682 | with no withholding and non-interfering devices, a frame is published that holds each active device's role, its seven pose values and every enabled button value, only active device names at the top, and no other leaf |
| Publish.FrameOnlyDeviceEntries | src/mimicry_app.cpp:643-682 | every leaf of the frame is, for some active device, its role, one of its seven pose values, or the value of an enabled kind of one of its buttons; a disabled kind writes nothing |
| Publish.DeviceOpPath | src/mimicry_app.cpp:647-680 | each assignment of one device's block writes its role, a pose value or an enabled kind of one of its buttons |
| Publish.ButtonOpPath | src/mimicry_app.cpp:659-680 | each assignment of a button's block writes the path of one of its enabled kinds |
| Publish.DeviceInDoc | src/mimicry_app.cpp:647-681 | the frame holds the role, the pose and every enabled button value of each active device |
| Publish.FrameKeys | src/mimicry_app.cpp:644-647 | every top-level key of the frame is the name of an active device |
| Publish.ButtonsOpsShape | src/mimicry_app.cpp:659-680 | with unique button names, the entries of different buttons never interfere, and each sits below a publishing button's name |
| Publish.PublishesNonEmpty | src/mimicry_app.cpp:663-679 | a button adds entries to the frame exactly when one of its value kinds is enabled |
| Publish.BuildFrame | src/mimicry_app.cpp:643-682 | the device loop performs the frame's assignments in index order |
| Publish.WriteButton | src/mimicry_app.cpp:663-680 | the type loop performs each enabled kind's assignments in key order |
| Entry.Lowercase | src/param_writer.cpp:16-20 | the result is all lower case and equals the input ignoring case, which fixes it uniquely |
| Entry.CheckWordsMeaning | src/param_writer.cpp:22-44 | checkTrue and checkFalse test, ignoring case, membership in {true, yes, y, t} and {false, no, n, f} |
| Entry.CheckWordsIgnoreCase | src/updated_params.cpp:80-102 | the case of an answer's letters never changes its meaning |
| Entry.CheckWordsExclusive | src/param_writer.cpp:22-44 | no answer is both a yes and a no |
| Entry.CheckHelp | src/param_writer.cpp:96-127 | "?" or "h" in either case asks for help, "q" in either case quits, and anything else is an answer |
| Entry.HelpIsNoAnswer | src/param_writer.cpp:96-127 | a help or quit reply is neither a yes nor a no |
| Entry.ValidateEntry | src/param_writer.cpp:129-207 | valid exactly when the entry is non-empty and a yes/no word, a positive number within the maximum, or a text without whitespace; an accepted boolean is rewritten as "true" or "false" and any other entry stays as it was |
| Entry.EmptyRejected | src/updated_params.cpp:132-200 | an empty entry is rejected whatever its kind |
| Entry.NormalisedBoolean | src/param_writer.cpp:129-207 | a rewritten boolean is accepted again, unchanged by a second rewrite, and means the same as what was typed |
| Entry.IntegerSpelling | src/param_writer.cpp:129-207 | the decimal spelling of v is an accepted integer exactly when v is positive and within the maximum |
| Text.DecimalOfNatToString | src/param_writer.cpp:380 | reading back the decimal spelling of a number gives the number |
| Text.NatToStringInjective | src/param_writer.cpp:380 | distinct numbers have distinct spellings, so the "devN" keys never collide |
| ParamWriter.ButtonNamesAreKeys | include/mimicry_openvr/param_info.hpp:42-43 | the writer's button names are pairwise distinct and each one is a key the runtime's table accepts |
| ParamWriter.CheckRole | src/param_writer.cpp:46-69 | for an accepted integer from 1 to 3, the answers 1, 2 and 3 select LEFT, RIGHT and TRACKER |
| ParamWriter.WriterRoleName | src/param_writer.cpp:71-94 | the writer names the three real roles like the runtime, and INVALID is the empty string |
| ParamWriter.WriterRoleReadBack | src/param_writer.cpp:71-94 | the runtime parses every role name the writer writes back to the same role |
| ParamWriter.ChosenRoleReadBack | src/param_writer.cpp:46-94 | a role chosen at the prompt is never INVALID, and its written name is "left", "right" or "tracker" and reads back as that role |
| ParamWriter.ParseTypes | src/param_writer.cpp:288-319 | one pass over a type list: valid exactly when the scan reaches the end with no bad character, no multi-digit number, no digit outside 1..3, and at least one digit; each digit read before the scan stops sets its type flag |
| ParamWriter.TypesVerdict | src/param_writer.cpp:288-319 | the scan accepts exactly the lists of single digits 1..3 separated by whitespace or commas with at least one digit, and an accepted list marks at least one type |
| ParamWriter.PromptButtons | src/param_writer.cpp:332-369 | the device gains, in order, one entry for each decided reply: configured with its index as id for a yes, unconfigured for a no; other replies repeat the question; the questions finish exactly when all seven buttons are decided |
| ParamWriter.CollectedShape | src/param_writer.cpp:332-369 | the buttons collected number the decided replies up to seven, and the k-th collected button, when configured, has id k |
| ParamWriter.SevenAnswersFinish | src/param_writer.cpp:332-369 | seven decided replies configure all seven buttons |
| ParamWriter.CollectedDistinct | src/param_writer.cpp:352-354 | the configured buttons the questions collect have distinct ids |
| ParamWriter.OutputToFile | src/param_writer.cpp:372-406 | the document written is the result of the writer's assignments in source order: the top fields, then per device its name, pose flag, role and configured buttons |
| ParamWriter.WriterDocument | src/param_writer.cpp:372-406 | with distinct configured ids per device, the writer's assignments never throw and the document is exactly their leaves |
| ParamWriter.WrittenDoc | src/param_writer.cpp:374-405 | the file holds the device count, update frequency and all-required flag, each device's name, pose flag and role name, and each configured button's name and three type flags; every top key is a top field or a "devN" key |
| ParamWriter.OnlyConfiguredButtons | src/param_writer.cpp:387-405 | every button entry of a device in the file belongs to a configured button of that device |
| UpdatedParams.RoleToVrEnum | src/updated_params.cpp:12-33 | only LEFT and RIGHT have a hand role; TRACKER and INVALID map to the invalid OpenVR role |
| UpdatedParams.ToolAndRuntimeAgree | src/updated_params.cpp:12-33 | under either reading of the runtime's class test, a controller with the OpenVR role the tool looks for is one the runtime activates in that role; for TRACKER and INVALID the runtime activates no controller |
| UpdatedParams.DotTicker.constructor | src/updated_params.cpp:57 | the tick counter starts at zero |
| UpdatedParams.DotTicker.Dots | src/updated_params.cpp:55-72 | frequency 0 resets the counter; otherwise the counter goes up by one with unsigned wrap-around, a dot is printed on multiples of the frequency, and a line break when the quotient is 75 |
| UpdatedParams.NewlineWindow | src/updated_params.cpp:68-70 | as written, a tick ends the line exactly when it lies from 75 times the frequency up to, not including, 76 times it |
| UpdatedParams.NewlineRepeats | src/updated_params.cpp:65-70 | for any frequency f above one the line break is printed f times in a row, with a dot only the first time, and on no other tick |
| UpdatedParams.NewlineRepeatsAtCallerFrequency | src/updated_params.cpp:65-70 | at the frequency the search loop passes (REFRESH_RATE * 1.5 = 180) the ticks 13500 to 13679, and no others, end the line, and only 13500 prints a dot |
| UpdatedParams.NewlineIntendedRows | src/updated_params.cpp:65-70 | the intended break comes exactly after dot number 75, 150, 225, ... |
| UpdatedParams.DotTicker.DotsIntended | src/updated_params.cpp:55-72 | the ticker with the intended break: same counter and dots, and a line break only on a dot whose count is a multiple of 75 |
| UpdatedParams.CheckControllerPass | src/updated_params.cpp:229-241 | one pass of the scan finds a connected controller with the requested role exactly when one exists, records the last such index and the role, and otherwise leaves the parameters as they were |
| UpdatedParams.FoundIsRuntimeTarget | src/updated_params.cpp:234-238 | under either reading of the runtime's class test, a controller the scan finds for a hand is one the runtime activates in that hand's role |

## Left out

- Orientation (`getOrientationFromPose`, src/mimicry_app.cpp:267-280) uses
  `sqrt`, `fmax` and `copysign` on floats. The model takes the quaternion
  from the tracking snapshot and proves nothing about it.
- The OpenVR runtime, the UDP socket and the wall clock are not modelled.
  These cover `runMainLoop`, `appInit`, `send`, `usleep`, the retries of the
  controller search in `checkController`, `consumeEvents` and `exit`.
  Each tick is one snapshot, and sending a frame is its `Published` outcome.
- Reading and parsing the parameter file are not modelled. `ReadParameters`
  starts from an already parsed file. Values of the wrong JSON type, which
  throw in the source, are not modelled. A missing `devN` object makes the
  source throw; the model rejects the file instead.
- The terminal I/O of both tools is not modelled: `getEntry`, `promptUser`,
  help texts, printing and `main`. The replies are given as a sequence.
- App.MimicryApp.DeactivateAll: the source erases entries of `m_devices`
  while iterating over it, which is undefined behaviour. The model moves
  every active device back, which is what the loop evidently means.
- ParamWriter.ParseTypes: models one pass over one answer. The enclosing
  `while` of `promptButtonTypes` repeats until an answer is valid, and its
  "q" and help paths are not modelled.
- ParamWriter.CheckRole: requires an accepted integer below 4, the only
  answers its caller passes. For other inputs the source returns an
  uninitialised role.
- Entry.ValidateEntry: requires that an all-digit integer fit in an `int`.
  `std::stoi` throws on larger values, and that path is not modelled.
- ParamWriter.PromptButtons: an unconfigured button's id is never set in
  the source. `outputToFile` indexes `BUT_NAMES` with it before skipping the
  button. The model gives such a button id 0.
- ParamWriter.WrittenDoc and ParamWriter.OnlyConfiguredButtons: both
  require distinct configured ids within each device, which the questions
  guarantee (ParamWriter.CollectedDistinct). With repeated ids the later
  button would overwrite the earlier one.
- Writing `params.json` is not modelled: the stream and the `dump(4)`
  formatting. The model stops at the document.
- The parameter writer (`_all_required`, `_pose`, `types` flags per index)
  and the runtime reader (`_bimanual`, `_track_pose`, `_out_addr`,
  `_out_port`, and type keys read as a map) use different keys. A written
  file is not a file the runtime accepts, so there is no round-trip lemma
  between the two.
- App.PublishFromRegistry: it assumes no button is named "role". Such a
  button would collide with the role entry, and nlohmann::json would
  throw; the model shows that throw as the `Thrown` outcome.
- Vocabulary.KeyToIdIsBijection: states that ids are distinct and that
  the values are the seven known ids. The key count of the table is left
  implicit.
- When readParameters rejects a file, the model does not state the
  partially updated maps and flags it leaves behind. It states only the
  verdict and the copied parameters.

## Findings

| source | as written | input that shows it | evidently intended | confidence | as-written member | corrected member |
|---|---|---|---|---|---|---|
| src/mimicry_app.cpp:160 | `dev_class = Controller` assigns, so the test is always true and the generic-tracker branch can never run | an index of class GenericTracker, whose controller role is invalid: it activates nothing | `==`: controllers by hand role, generic trackers as TRACKER | not executed | App.MimicryApp.HandleInput with AsWritten, through App.ControllerTargetAsWritten (App.TrackerCounterexample, App.AsWrittenNeverTracker, App.WrittenHandsOnly) | App.MimicryApp.HandleInput with Intended, through App.ControllerTarget |
| src/updated_params.cpp:68 | `tick / freq == max_width` ends the line on every tick whose quotient is 75: freq times in a row, all but the first without a dot, and after these freq breaks no line is ever ended again | frequency 180, as the search loop passes it, ticks 13500 to 13679: 180 line breaks | a line break after every 75th dot | not executed | UpdatedParams.DotTicker.Dots (UpdatedParams.NewlineWindow, UpdatedParams.NewlineRepeats, UpdatedParams.NewlineRepeatsAtCallerFrequency) | UpdatedParams.DotTicker.DotsIntended (UpdatedParams.NewlineIntendedRows) |
