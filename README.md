# TheBus2Komsi state diff — a Dafny model

TheBus2Komsi is a bridge. It polls the telemetry of the bus simulator
TheBus and drives a KOMSI cockpit board over a serial line. For each
poll it turns the telemetry record into a flat `VehicleState` of 13
`u8` signals and 3 `u32` magnitudes. It then compares that state with
the previous one and sends only the fields that changed. Each such field
becomes one KOMSI command frame. A single end-of-line marker closes the
transmission.

The model covers:

- `vehicle.rs`: the state record, the neutral state and the diff.
- `vehiclediff.rs`: the second copy of the diff.
- `api2vehicle.rs`: the normalisation of the telemetry strings and the indicator.

The modules are:

- `Bytes` holds the machine integer types `u8`, `u32` and `i8`, and `ByteBuffer`. `ByteBuffer` models the `Vec<u8>` that the diff appends to.
- `Komsi` holds the sixteen command kinds and `Codec`. The KOMSI byte encoders are given to every operation as a `Codec` value, so no property depends on their bytes. The encoders are not even assumed to produce non-empty frames.
- `Vehicle` starts with `VehicleState` and `InitVehicleState`. Then comes the functional specification of the diff:
  - `Field` reads the signal of one kind;
  - `DiffOrder` is the fixed visiting order;
  - `Selected` is the kinds that are transmitted;
  - `Body` is their frames, concatenated;
  - `Diff` is the body closed by the marker when it is non-empty.

  Last come the imperative builders. `HandleU8FieldChange` and `HandleU32FieldChange` append to a `ByteBuffer`. `CompareVehicleStates` makes the sixteen calls in source order and is proved to return `Diff`.
- `VehicleDiff` is the same three functions as written in `vehiclediff.rs`. They are proved against the same `Diff`, so the two copies return the same bytes.
- `DiffProperties` proves what the diff promises its receiver:
  - no bytes for equal states;
  - one frame per changed field, each carrying the new value, in `DiffOrder`;
  - every field under `force`;
  - the marker exactly when something was transmitted;
  - the single-change and all-zero examples.
- `Api2Vehicle` is `get_vehicle_state_from_api`. The readings the source derives from floating-point values enter as a `ConvertedReadings` value.

Three points where the code's behaviour is narrower than a first reading suggests:

- The code appends the end-of-line marker when the buffer is non-empty, not when a field changed. The two agree when every frame has at least one byte. `MarkerIffSomethingTransmitted` proves this under `NonEmptyFrames`; without that premise the model states only the buffer test.
- The frames carry the new values, so the set of transmitted kinds alone does not fix the bytes. Two diffs are byte-identical if they transmit the same kinds and their new states agree on every transmitted field; the previous states, the flags and the untransmitted fields may differ. `SameTransmittedKindsSameBytes` states this. `SelectionDependsOnlyOnTransmittedKinds` states that the selected kinds, and their order, depend only on which kinds are transmitted; `TransmittedKindsInOrder` states that they are exactly the transmitted kinds, each once, in the fixed order.
- `vehiclediff.rs` is not declared as a module in `src/lib.rs:2-8`, so the program never calls it. It is modelled anyway and shown to agree with `vehicle.rs`.

## Model

| member | source | states |
|---|---|---|
| Bytes.ByteBuffer.constructor | src/vehicle.rs:113 | a new command buffer holds no bytes |
| Bytes.ByteBuffer.Append | src/vehicle.rs:84 | appending puts the new bytes after the existing contents and changes nothing else |
| Vehicle.Field | src/vehicle.rs:7-24 | exactly fuel, speed and maxspeed are 32-bit readings; the other thirteen signals are bytes |
| Vehicle.InitVehicleState | src/vehicle.rs:46-66 | the neutral snapshot; it has no contract of its own, and its all-zero fact is `InitStateIsNeutral` |
| Vehicle.InitStateIsNeutral | src/vehicle.rs:46-66 | every one of the sixteen fields of the neutral state reads 0 |
| Vehicle.RankOfPosition | src/vehicle.rs:116-133 | the kind at each position of the visiting order has that position as its rank, so no kind is visited twice (that every kind is visited is `DiffOrderCoversAllKinds`) |
| Vehicle.DiffBodyUnrolled | src/vehicle.rs:116-133 | the diff body is the sixteen per-field contributions in source order: 13 byte fields, then fuel, speed and maxspeed, each paired with its own command kind |
| Vehicle.HandleU8FieldChange | src/vehicle.rs:79-85 | when the old and new values differ or `force` is set, the `u8` frame of the NEW value follows the existing buffer contents; otherwise the buffer is unchanged |
| Vehicle.HandleU32FieldChange | src/vehicle.rs:98-104 | the same for the 32-bit encoder: the prefix is kept and only the new value is encoded |
| Vehicle.CompareVehicleStates | src/vehicle.rs:107-142 | returns exactly the functional diff: the frames of the transmitted fields in the fixed order, then the marker if the buffer is non-empty |
| Vehicle.CompareIgnoresVerbose | src/vehicle.rs:80-82 | the `verbose` flag never changes the returned bytes |
| VehicleDiff.HandleU8FieldChange | src/vehiclediff.rs:17-23 | appends the `u8` frame of the new value if and only if the value changed or `force` is set; otherwise the buffer is untouched |
| VehicleDiff.HandleU32FieldChange | src/vehiclediff.rs:36-42 | appends the 32-bit frame of the new value if and only if the value changed or `force` is set |
| VehicleDiff.CompareVehicleStates | src/vehiclediff.rs:45-80 | the second copy returns the same functional diff: fixed field order and kind pairing, marker only after a non-empty field pass |
| VehicleDiff.CompareBothDiffs | src/vehiclediff.rs:45-80 | for every input, both copies of `compare_vehicle_states` return the same bytes |
| DiffProperties.DiffOrderCoversAllKinds | src/vehicle.rs:116-133 | every command kind is visited by the diff |
| DiffProperties.DiffOrderIsOrdered | src/vehicle.rs:116-133 | the visiting order has strictly increasing positions, so each kind is visited once |
| DiffProperties.SelectedMembership | src/vehicle.rs:79 | a kind is transmitted exactly when it is visited and its field changed or `force` is set |
| DiffProperties.SelectedKeepsOrder | src/vehicle.rs:116-133 | the transmitted kinds keep the visiting order |
| DiffProperties.OrderedCardinality | src/vehicle.rs:116-133 | a list of kinds in visiting order has no repeats |
| DiffProperties.NothingSelectedForEqualStates | src/vehicle.rs:79 | with equal states and no `force`, no kind is transmitted |
| DiffProperties.NothingSelectedWhenNothingTransmits | src/vehicle.rs:79 | when no visited field changed and `force` is off, nothing is selected |
| DiffProperties.EverythingSelectedWhenForced | src/vehicle.rs:98 | under `force`, every visited kind is transmitted, in order |
| DiffProperties.SelectionDependsOnlyOnTransmittedKinds | src/vehicle.rs:116-133 | which kinds are transmitted, and in what order, depends only on which fields count as transmitted, not on call history |
| DiffProperties.EqualStatesGiveEmptyDiff | src/vehiclediff.rs:45-80 | equal states without `force` give an empty result, with no marker |
| DiffProperties.TransmittedKindsInOrder | src/vehicle.rs:107-142 | the diff transmits exactly the changed fields (all fields under `force`), each once, in the fixed order |
| DiffProperties.ChangedFieldsGiveOneFrameEach | src/vehicle.rs:107-142 | without `force`: as many frames as changed fields; a kind has a frame if and only if its field changed; each frame carries the field's new value |
| DiffProperties.ForcedDiffEncodesEveryField | src/vehicle.rs:107-142 | under `force`: all sixteen fields are encoded in order; with non-empty frames the marker follows them |
| DiffProperties.ForcedDiffIgnoresPreviousState | src/vehicle.rs:107-142 | under `force` the result does not depend on the previous state |
| DiffProperties.SameTransmittedKindsSameBytes | src/vehicle.rs:107-142 | two diffs that transmit the same kinds, towards new states that agree on every transmitted field, are byte-identical, whatever the previous states, flags and other fields |
| DiffProperties.EmptySelectionGivesEmptyDiff | src/vehicle.rs:136-139 | when no field is transmitted the result is empty: not even the end-of-line marker is sent |
| DiffProperties.MarkerIffSomethingTransmitted | src/vehiclediff.rs:74-77 | with non-empty frames: the marker is appended if and only if some field was transmitted, and it is always last |
| DiffProperties.SingleChangeGivesSingleFrame | src/vehicle.rs:107-142 | when exactly one field changed, the result is that field's single frame, closed by the marker when the frame is non-empty |
| DiffProperties.IgnitionOnlyExample | src/vehicle.rs:116 | from the neutral state, switching only the ignition on transmits just the ignition frame with value 1 |
| Api2Vehicle.FlagFromText | src/api2vehicle.rs:8-11 | a flag is 1 exactly when the text is "true" and 0 for any other text, including "True" |
| Api2Vehicle.IndicatorFromState | src/api2vehicle.rs:34-39 | -1 gives 1 and 1 gives 2; 0 and every other value, including 2, give 0 |
| Api2Vehicle.GetVehicleStateFromApi | src/api2vehicle.rs:5-53 | ignition, engine, warning lights, doors and fixing brake each follow the exact-"true" rule; these five are 0 or 1 and the indicator is 0, 1 or 2; the battery light stays 0; the converted readings are copied unchanged |
| Api2Vehicle.BatteryLightNeverSentUnforced | src/api2vehicle.rs:6 | between two states built from telemetry, an unforced diff never transmits the battery light, since it is never assigned |
| Api2Vehicle.ForcedDiffSendsBatteryLightOff | src/api2vehicle.rs:6 | a forced diff towards a state built from telemetry sends the battery light frame with value 0 |

## Left out

- The KOMSI encoders `build_komsi_command_u8`, `build_komsi_command` and `build_komsi_command_eol`, and the command codes of each kind, are in `src/komsi.rs`. That file is not part of this model; the encoders are the fields of `Codec`.
- The `println!` diagnostics behind `verbose` are console output only. `fieldName` and `verbose` are carried along and have no effect on the bytes.
- `print_vehicle_state` (`src/vehicle.rs:26-44`) only prints; it is not modelled.
- Api2Vehicle.GetVehicleStateFromApi: the float conversions (`src/api2vehicle.rs:41-51`) are not modelled. They are `abs().round()`, `* 100.0` and `trunc()`, with Rust's saturating `as` casts. Their results are a `ConvertedReadings` parameter with arbitrary `u32`/`u8` values. The method body puts each string match and the indicator match in a helper method and assigns the result to the field; the effect on `s` is the source's.
- The HTTP polling and JSON deserialisation (`src/api.rs`) are I/O and not modelled. The model keeps only the fields of `ApiVehicleType` that the mapping reads.
- The serial transport, the reader thread, the reconnect loop and the command-line options are I/O, threads and timing. These are `src/serial.rs`, `src/realmain.rs`, `src/main.rs`, `src/opts.rs` and `src/bin/`. Both callers pass `force = false` (`src/realmain.rs:223`, `src/main.rs:137`); the model keeps `force` as a parameter.
- DiffProperties.MarkerIffSomethingTransmitted: requires that every frame has a byte (`NonEmptyFrames`), because the encoders are not modelled. Without that premise, the model states only the buffer test the code makes. `Vehicle.Diff` appends the marker once, after a non-empty body, and `EmptySelectionGivesEmptyDiff` states that no selected kind means no bytes.
