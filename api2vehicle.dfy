/**
 * The normalisation of one telemetry record of the simulator's web
 * interface into a `VehicleState`: the boolean-like strings become 0/1
 * flags by exact comparison with "true", the signed indicator state becomes
 * 0 (off), 1 (left) or 2 (right), and the battery light keeps the neutral
 * value it has in `InitVehicleState`.
 *
 * The fields the source derives from floating-point readings (speeds, fuel,
 * lamp levels) arrive here already converted, as a `ConvertedReadings`.
 */
module Api2Vehicle {
  import opened Bytes
  import opened Komsi
  import opened Vehicle
  import opened DiffProperties

  /** The non-floating-point fields of one telemetry record that the mapping reads. */
  datatype ApiVehicle = ApiVehicle(
    ignitionEnabled: string,
    engineStarted: string,
    warningLights: string,
    passengerDoorsOpen: string,
    fixingBrake: string,
    indicatorState: i8)

  /** The results of the float-to-integer conversions, taken as given. */
  datatype ConvertedReadings = ConvertedReadings(
    speed: u32,
    maxspeed: u32,
    fuel: u32,
    lightsMain: u8,
    lightsHighBeam: u8,
    lightsFrontDoor: u8,
    lightsSecondDoor: u8,
    lightsStopRequest: u8,
    lightsStopBrake: u8)

  /**
   * The value ranges every state built from telemetry keeps: the five
   * string flags are 0 or 1, the indicator is 0, 1 or 2, and the battery
   * light is off.
   */
  ghost predicate ApiShaped(s: VehicleState) {
    && s.ignition <= 1
    && s.engine <= 1
    && s.lightsWarning <= 1
    && s.doors <= 1
    && s.fixingBrake <= 1
    && s.indicator <= 2
    && s.batteryLight == 0
  }

  /**
   * One arm of the string matches of `get_vehicle_state_from_api`: the flag
   * is 1 exactly when the text is "true", so "True", "1" or "" give 0.
   */
  method FlagFromText(text: string) returns (flag: u8)
    ensures flag == 1 <==> text == "true"
    ensures flag <= 1
  {
    match text {
      case "true" => flag := 1;
      case _ => flag := 0;
    }
  }

  /**
   * The indicator match of `get_vehicle_state_from_api`: -1 (left) gives 1,
   * 1 (right) gives 2, and 0 as well as every other value gives 0.
   */
  method IndicatorFromState(state: i8) returns (indicator: u8)
    ensures indicator == 1 <==> state == -1
    ensures indicator == 2 <==> state == 1
    ensures indicator <= 2
  {
    match state {
      case 0 => indicator := 0;
      case -1 => indicator := 1;
      case 1 => indicator := 2;
      case _ => indicator := 0;
    }
  }

  /**
   * `get_vehicle_state_from_api`: starts from the neutral state and
   * overwrites one field at a time. A flag is 1 exactly when its string is
   * "true"; the indicator is 1 for -1, 2 for 1 and 0 otherwise; the
   * converted readings are copied over; the battery light stays off.
   */
  method GetVehicleStateFromApi(av: ApiVehicle, converted: ConvertedReadings) returns (s: VehicleState)
    ensures s.ignition == 1 <==> av.ignitionEnabled == "true"
    ensures s.engine == 1 <==> av.engineStarted == "true"
    ensures s.lightsWarning == 1 <==> av.warningLights == "true"
    ensures s.doors == 1 <==> av.passengerDoorsOpen == "true"
    ensures s.fixingBrake == 1 <==> av.fixingBrake == "true"
    ensures s.indicator == 1 <==> av.indicatorState == -1
    ensures s.indicator == 2 <==> av.indicatorState == 1
    ensures ApiShaped(s)
    ensures s.speed == converted.speed && s.maxspeed == converted.maxspeed && s.fuel == converted.fuel
    ensures s.lightsMain == converted.lightsMain && s.lightsHighBeam == converted.lightsHighBeam
    ensures s.lightsFrontDoor == converted.lightsFrontDoor && s.lightsSecondDoor == converted.lightsSecondDoor
    ensures s.lightsStopRequest == converted.lightsStopRequest && s.lightsStopBrake == converted.lightsStopBrake
  {
    s := InitVehicleState();

    var ignition := FlagFromText(av.ignitionEnabled);
    s := s.(ignition := ignition);
    var engine := FlagFromText(av.engineStarted);
    s := s.(engine := engine);
    var lightsWarning := FlagFromText(av.warningLights);
    s := s.(lightsWarning := lightsWarning);
    var doors := FlagFromText(av.passengerDoorsOpen);
    s := s.(doors := doors);
    var fixingBrake := FlagFromText(av.fixingBrake);
    s := s.(fixingBrake := fixingBrake);

    var indicator := IndicatorFromState(av.indicatorState);
    s := s.(indicator := indicator);

    s := s.(speed := converted.speed, maxspeed := converted.maxspeed);
    s := s.(fuel := converted.fuel);
    s := s.(lightsMain := converted.lightsMain, lightsHighBeam := converted.lightsHighBeam,
            lightsFrontDoor := converted.lightsFrontDoor, lightsSecondDoor := converted.lightsSecondDoor,
            lightsStopRequest := converted.lightsStopRequest, lightsStopBrake := converted.lightsStopBrake);
  }

  /**
   * Between two states built from telemetry, the battery light never
   * changes, so an unforced diff never transmits it.
   */
  lemma BatteryLightNeverSentUnforced(prev: VehicleState, next: VehicleState)
    requires ApiShaped(prev) && ApiShaped(next)
    ensures BatteryLight !in Selected(prev, next, false, DiffOrder)
  {
    SelectedMembership(prev, next, false, DiffOrder, BatteryLight);
  }

  /**
   * Between two states built from telemetry, a forced diff sends the
   * battery light frame with the value 0.
   */
  lemma ForcedDiffSendsBatteryLightOff(codec: Codec, prev: VehicleState, next: VehicleState)
    requires ApiShaped(next)
    ensures BatteryLight in Selected(prev, next, true, DiffOrder)
    ensures Encode(codec, next, BatteryLight) == codec.commandU8(BatteryLight, 0)
  {
    SelectedMembership(prev, next, true, DiffOrder, BatteryLight);
    PositionOfRank(BatteryLight);
  }
}
