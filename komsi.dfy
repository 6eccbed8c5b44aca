/**
 * The interface of the KOMSI command codec. The codec's byte layout is not
 * part of this model: a `Codec` value stands for any codec, and every
 * property proved elsewhere holds whatever bytes it produces, including
 * empty ones.
 */
module Komsi {
  import opened Bytes

  /** One command kind per transmitted vehicle signal. */
  datatype CommandKind =
    | Ignition
    | Engine
    | PassengerDoorsOpen
    | FixingBrake
    | Indicator
    | LightsWarning
    | LightsMain
    | LightsStopRequest
    | LightsStopBrake
    | LightsFrontDoor
    | LightsSecondDoor
    | LightsHighBeam
    | BatteryLight
    | Fuel
    | Speed
    | MaxSpeed

  /**
   * The three encoders the diff calls: `build_komsi_command_u8`,
   * `build_komsi_command` (for `u32` values) and `build_komsi_command_eol`.
   * Each is deterministic, so it is a function of its arguments.
   */
  datatype Codec = Codec(
    commandU8: (CommandKind, u8) -> seq<u8>,
    commandU32: (CommandKind, u32) -> seq<u8>,
    eol: seq<u8>)
}
