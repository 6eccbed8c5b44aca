/**
 * The second copy of the state diff, kept in the repository beside the
 * first but not declared as a module of the crate. Its three functions are
 * modelled as written and proved against the same functional specification
 * `Vehicle.Diff`, so the two builders return the same bytes on every input.
 */
module VehicleDiff {
  import opened Bytes
  import opened Komsi
  import opened Vehicle

  /**
   * `handle_u8_field_change`: when the field changed, or when `force` is set,
   * appends the `u8` frame of the NEW value after the existing contents;
   * otherwise leaves the buffer unchanged. `fieldName` and `verbose` only
   * feed a diagnostic line on the console.
   */
  method HandleU8FieldChange(codec: Codec, oldValue: u8, newValue: u8, fieldName: string,
                             kind: CommandKind, verbose: bool, force: bool, buffer: ByteBuffer)
    modifies buffer
    ensures buffer.bytes == old(buffer.bytes) + Chunk(codec, kind, Narrow(oldValue), Narrow(newValue), force)
  {
    if oldValue != newValue || force {
      var b := codec.commandU8(kind, newValue);
      buffer.Append(b);
    }
  }

  /** `handle_u32_field_change`: as `HandleU8FieldChange`, with the `u32` encoder. */
  method HandleU32FieldChange(codec: Codec, oldValue: u32, newValue: u32, fieldName: string,
                              kind: CommandKind, verbose: bool, force: bool, buffer: ByteBuffer)
    modifies buffer
    ensures buffer.bytes == old(buffer.bytes) + Chunk(codec, kind, Wide(oldValue), Wide(newValue), force)
  {
    if oldValue != newValue || force {
      var b := codec.commandU32(kind, newValue);
      buffer.Append(b);
    }
  }

  /**
   * `compare_vehicle_states`: the frames of the transmitted fields in
   * `DiffOrder`, closed by the end-of-line marker when there is at least one
   * byte. The result does not depend on `verbose`.
   */
  method CompareVehicleStates(codec: Codec, prev: VehicleState, next: VehicleState, verbose: bool, force: bool)
    returns (result: seq<u8>)
    ensures result == Diff(codec, prev, next, force)
  {
    var buffer := new ByteBuffer();

    HandleU8FieldChange(codec, prev.ignition, next.ignition, "ignition", Ignition, verbose, force, buffer);
    assert buffer.bytes == Chunk(codec, Ignition, Narrow(prev.ignition), Narrow(next.ignition), force);
    HandleU8FieldChange(codec, prev.engine, next.engine, "engine", Engine, verbose, force, buffer);
    HandleU8FieldChange(codec, prev.doors, next.doors, "doors", PassengerDoorsOpen, verbose, force, buffer);
    HandleU8FieldChange(codec, prev.fixingBrake, next.fixingBrake, "fixing_brake", FixingBrake, verbose, force, buffer);
    HandleU8FieldChange(codec, prev.indicator, next.indicator, "indicator", Indicator, verbose, force, buffer);
    HandleU8FieldChange(codec, prev.lightsWarning, next.lightsWarning, "lights_warning", LightsWarning, verbose, force, buffer);
    HandleU8FieldChange(codec, prev.lightsMain, next.lightsMain, "lights_main", LightsMain, verbose, force, buffer);
    HandleU8FieldChange(codec, prev.lightsStopRequest, next.lightsStopRequest, "lights_stop_request", LightsStopRequest, verbose, force, buffer);
    HandleU8FieldChange(codec, prev.lightsStopBrake, next.lightsStopBrake, "lights_stop_brake", LightsStopBrake, verbose, force, buffer);
    HandleU8FieldChange(codec, prev.lightsFrontDoor, next.lightsFrontDoor, "lights_front_door", LightsFrontDoor, verbose, force, buffer);
    HandleU8FieldChange(codec, prev.lightsSecondDoor, next.lightsSecondDoor, "lights_second_door", LightsSecondDoor, verbose, force, buffer);
    HandleU8FieldChange(codec, prev.lightsHighBeam, next.lightsHighBeam, "lights_high_beam", LightsHighBeam, verbose, force, buffer);
    HandleU8FieldChange(codec, prev.batteryLight, next.batteryLight, "batterylight", BatteryLight, verbose, force, buffer);

    HandleU32FieldChange(codec, prev.fuel, next.fuel, "fuel", Fuel, verbose, force, buffer);
    HandleU32FieldChange(codec, prev.speed, next.speed, "speed", Speed, verbose, force, buffer);
    HandleU32FieldChange(codec, prev.maxspeed, next.maxspeed, "maxspeed", MaxSpeed, verbose, force, buffer);

    DiffBodyUnrolled(codec, prev, next, force);

    if |buffer.bytes| > 0 {
      var b := codec.eol;
      buffer.Append(b);
    }

    result := buffer.bytes;
  }

  /** Both copies of `compare_vehicle_states` return the same bytes on every input. */
  method CompareBothDiffs(codec: Codec, prev: VehicleState, next: VehicleState, verbose: bool, force: bool)
    returns (first: seq<u8>, second: seq<u8>)
    ensures first == Diff(codec, prev, next, force)
    ensures first == second
  {
    first := Vehicle.CompareVehicleStates(codec, prev, next, verbose, force);
    second := CompareVehicleStates(codec, prev, next, verbose, force);
  }
}
