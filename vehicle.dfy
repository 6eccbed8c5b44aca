/**
 * The vehicle state snapshot, its functional diff specification and the
 * command builder of `src/vehicle.rs`, which appends the frame of every
 * changed field to a byte buffer and closes a non-empty buffer with the
 * end-of-line marker.
 */
module Vehicle {
  import opened Bytes
  import opened Komsi

  /** One snapshot of every transmitted signal, fields in declaration order. */
  datatype VehicleState = VehicleState(
    ignition: u8,
    engine: u8,
    doors: u8,
    speed: u32,
    maxspeed: u32,
    fuel: u32,
    indicator: u8,
    fixingBrake: u8,
    lightsWarning: u8,
    lightsMain: u8,
    lightsFrontDoor: u8,
    lightsSecondDoor: u8,
    lightsStopRequest: u8,
    lightsStopBrake: u8,
    lightsHighBeam: u8,
    batteryLight: u8)

  /** The value of one field, tagged with its width: a `u8` or a `u32` field. */
  datatype Reading = Narrow(narrow: u8) | Wide(wide: u32) {
    function Value(): int {
      match this
      case Narrow(v) => v as int
      case Wide(w) => w as int
    }
  }

  /**
   * The field of `s` that command kind `kind` transmits. This table is the
   * pairing of fields and kinds that the diff uses; only fuel, speed and
   * maxspeed are `u32` fields.
   */
  function Field(s: VehicleState, kind: CommandKind): (r: Reading)
    ensures r.Wide? <==> kind in {Fuel, Speed, MaxSpeed}
  {
    match kind
    case Ignition => Narrow(s.ignition)
    case Engine => Narrow(s.engine)
    case PassengerDoorsOpen => Narrow(s.doors)
    case FixingBrake => Narrow(s.fixingBrake)
    case Indicator => Narrow(s.indicator)
    case LightsWarning => Narrow(s.lightsWarning)
    case LightsMain => Narrow(s.lightsMain)
    case LightsStopRequest => Narrow(s.lightsStopRequest)
    case LightsStopBrake => Narrow(s.lightsStopBrake)
    case LightsFrontDoor => Narrow(s.lightsFrontDoor)
    case LightsSecondDoor => Narrow(s.lightsSecondDoor)
    case LightsHighBeam => Narrow(s.lightsHighBeam)
    case BatteryLight => Narrow(s.batteryLight)
    case Fuel => Wide(s.fuel)
    case Speed => Wide(s.speed)
    case MaxSpeed => Wide(s.maxspeed)
  }

  /** `init_vehicle_state`: the neutral snapshot, in which every signal is off. */
  function InitVehicleState(): VehicleState
  {
    VehicleState(
      ignition := 0, engine := 0, doors := 0, speed := 0, maxspeed := 0,
      fuel := 0, indicator := 0, fixingBrake := 0, lightsWarning := 0,
      lightsMain := 0, lightsFrontDoor := 0, lightsSecondDoor := 0,
      lightsStopRequest := 0, lightsStopBrake := 0, lightsHighBeam := 0,
      batteryLight := 0)
  }

  /** Every one of the sixteen fields of the neutral snapshot reads 0. */
  lemma InitStateIsNeutral()
    ensures forall kind :: Field(InitVehicleState(), kind).Value() == 0
  {
  }

  // ---------------------------------------------------------------------
  // Functional specification of the diff
  // ---------------------------------------------------------------------

  /** The number of fields the diff visits. */
  const FieldCount: nat := 16

  /*
   * The visiting order appears in three forms: `KindAt` (step to kind) and
   * `Rank` (kind to step) are matches the verifier evaluates cheaply, and
   * `DiffOrder` is the same order as a sequence, for the specification
   * functions that walk a list of kinds. `KindAtIsDiffOrder`,
   * `KindAtOfRank`, `PositionOfRank` and `RankOfPosition` tie them together.
   */

  /** The field the diff visits at step `i`, in the order of the source. */
  function KindAt(i: nat): CommandKind
    requires i < FieldCount
  {
    match i
    case 0 => Ignition
    case 1 => Engine
    case 2 => PassengerDoorsOpen
    case 3 => FixingBrake
    case 4 => Indicator
    case 5 => LightsWarning
    case 6 => LightsMain
    case 7 => LightsStopRequest
    case 8 => LightsStopBrake
    case 9 => LightsFrontDoor
    case 10 => LightsSecondDoor
    case 11 => LightsHighBeam
    case 12 => BatteryLight
    case 13 => Fuel
    case 14 => Speed
    case _ => MaxSpeed
  }

  /** The fixed order in which the diff visits the fields. */
  const DiffOrder: seq<CommandKind> := [
    Ignition, Engine, PassengerDoorsOpen, FixingBrake, Indicator,
    LightsWarning, LightsMain, LightsStopRequest, LightsStopBrake,
    LightsFrontDoor, LightsSecondDoor, LightsHighBeam, BatteryLight,
    Fuel, Speed, MaxSpeed]

  /** `KindAt` enumerates `DiffOrder`. */
  lemma KindAtIsDiffOrder(i: nat)
    requires i < FieldCount
    ensures |DiffOrder| == FieldCount && DiffOrder[i] == KindAt(i)
  {
    match i
    case 0 => case 1 => case 2 => case 3 => case 4 => case 5 => case 6 => case 7 =>
    case 8 => case 9 => case 10 => case 11 => case 12 => case 13 => case 14 => case 15 =>
    case _ => assert false;
  }

  /** The position of `kind` in `DiffOrder`. */
  function Rank(kind: CommandKind): (r: nat)
    ensures r < |DiffOrder|
  {
    match kind
    case Ignition => 0
    case Engine => 1
    case PassengerDoorsOpen => 2
    case FixingBrake => 3
    case Indicator => 4
    case LightsWarning => 5
    case LightsMain => 6
    case LightsStopRequest => 7
    case LightsStopBrake => 8
    case LightsFrontDoor => 9
    case LightsSecondDoor => 10
    case LightsHighBeam => 11
    case BatteryLight => 12
    case Fuel => 13
    case Speed => 14
    case MaxSpeed => 15
  }

  /** Step `Rank(kind)` of the diff visits `kind`. */
  lemma KindAtOfRank(kind: CommandKind)
    ensures KindAt(Rank(kind)) == kind
  {
    match kind
    case Ignition => case Engine => case PassengerDoorsOpen => case FixingBrake =>
    case Indicator => case LightsWarning => case LightsMain => case LightsStopRequest =>
    case LightsStopBrake => case LightsFrontDoor => case LightsSecondDoor => case LightsHighBeam =>
    case BatteryLight => case Fuel => case Speed => case MaxSpeed =>
  }

  /** The kind at position `Rank(kind)` of `DiffOrder` is `kind`. */
  lemma PositionOfRank(kind: CommandKind)
    ensures DiffOrder[Rank(kind)] == kind
  {
    KindAtIsDiffOrder(Rank(kind));
    KindAtOfRank(kind);
  }

  /** `DiffOrder` lists every kind exactly once: the kind at position `i` has rank `i`. */
  lemma RankOfPosition(i: nat)
    requires i < |DiffOrder|
    ensures Rank(DiffOrder[i]) == i
  {
    KindAtIsDiffOrder(i);
  }

  /** Whether the diff emits a frame for `kind`: the field changed, or the diff is forced. */
  predicate Transmits(prev: VehicleState, next: VehicleState, force: bool, kind: CommandKind) {
    Field(prev, kind) != Field(next, kind) || force
  }

  /** The frame of command `kind` carrying `value`, built by the encoder for the value's width. */
  function EncodeReading(codec: Codec, kind: CommandKind, value: Reading): seq<u8> {
    match value
    case Narrow(v) => codec.commandU8(kind, v)
    case Wide(w) => codec.commandU32(kind, w)
  }

  /** The frame for `kind`, carrying its value in `s`. */
  function Encode(codec: Codec, s: VehicleState, kind: CommandKind): seq<u8> {
    EncodeReading(codec, kind, Field(s, kind))
  }

  /**
   * What one field change appends: the frame of the new value when the value
   * changed or `force` is set, and nothing otherwise.
   */
  function Chunk(codec: Codec, kind: CommandKind, oldValue: Reading, newValue: Reading, force: bool): seq<u8> {
    if oldValue != newValue || force then EncodeReading(codec, kind, newValue) else []
  }

  /** The kinds of `kinds` that the diff transmits, in the order of `kinds`. */
  function Selected(prev: VehicleState, next: VehicleState, force: bool, kinds: seq<CommandKind>): seq<CommandKind> {
    if kinds == [] then []
    else (if Transmits(prev, next, force, kinds[0]) then [kinds[0]] else [])
         + Selected(prev, next, force, kinds[1..])
  }

  /** One frame per kind of `kinds`, each carrying that field's value in `s`. */
  function EncodeAll(codec: Codec, s: VehicleState, kinds: seq<CommandKind>): (frames: seq<seq<u8>>)
    ensures |frames| == |kinds|
    ensures forall i :: 0 <= i < |kinds| ==> frames[i] == Encode(codec, s, kinds[i])
  {
    if kinds == [] then [] else [Encode(codec, s, kinds[0])] + EncodeAll(codec, s, kinds[1..])
  }

  /** The frames laid end to end. */
  function Flatten(frames: seq<seq<u8>>): seq<u8> {
    if frames == [] then [] else frames[0] + Flatten(frames[1..])
  }

  /** A buffer closed with the end-of-line marker when, and only when, it is non-empty. */
  function Framed(body: seq<u8>, eol: seq<u8>): seq<u8> {
    if |body| > 0 then body + eol else body
  }

  /** The frames of the transmitted kinds of `kinds`, concatenated in order. */
  function Body(codec: Codec, prev: VehicleState, next: VehicleState, force: bool, kinds: seq<CommandKind>): seq<u8> {
    Flatten(EncodeAll(codec, next, Selected(prev, next, force, kinds)))
  }

  /** What the diff of `prev` and `next` transmits. */
  function Diff(codec: Codec, prev: VehicleState, next: VehicleState, force: bool): seq<u8> {
    Framed(Body(codec, prev, next, force, DiffOrder), codec.eol)
  }

  /** The bytes one field contributes to the body: its frame if it is transmitted, nothing otherwise. */
  function Contribution(codec: Codec, prev: VehicleState, next: VehicleState, force: bool, kind: CommandKind): seq<u8> {
    Chunk(codec, kind, Field(prev, kind), Field(next, kind), force)
  }

  /** Selecting from a concatenation selects from each part. */
  lemma {:induction false} SelectedAppend(prev: VehicleState, next: VehicleState, force: bool, a: seq<CommandKind>, b: seq<CommandKind>)
    ensures Selected(prev, next, force, a + b) == Selected(prev, next, force, a) + Selected(prev, next, force, b)
  {
    if a != [] {
      assert (a + b)[0] == a[0];
      assert (a + b)[1..] == a[1..] + b;
      SelectedAppend(prev, next, force, a[1..], b);
    } else {
      assert a + b == b;
    }
  }

  /** Encoding a concatenation encodes each part. */
  lemma EncodeAllAppend(codec: Codec, s: VehicleState, a: seq<CommandKind>, b: seq<CommandKind>)
    ensures EncodeAll(codec, s, a + b) == EncodeAll(codec, s, a) + EncodeAll(codec, s, b)
  {
  }

  /** Flattening a concatenation flattens each part. */
  lemma {:induction false} FlattenAppend(a: seq<seq<u8>>, b: seq<seq<u8>>)
    ensures Flatten(a + b) == Flatten(a) + Flatten(b)
  {
    if a != [] {
      assert (a + b)[0] == a[0];
      assert (a + b)[1..] == a[1..] + b;
      FlattenAppend(a[1..], b);
    } else {
      assert a + b == b;
    }
  }

  /** Extending the visited kinds by one adds that kind's contribution at the end of the body. */
  lemma BodySnoc(codec: Codec, prev: VehicleState, next: VehicleState, force: bool, kinds: seq<CommandKind>, kind: CommandKind)
    ensures Body(codec, prev, next, force, kinds + [kind])
         == Body(codec, prev, next, force, kinds) + Contribution(codec, prev, next, force, kind)
  {
    var one := Selected(prev, next, force, [kind]);
    SelectedAppend(prev, next, force, kinds, [kind]);
    assert [kind][1..] == [];
    EncodeAllAppend(codec, next, Selected(prev, next, force, kinds), one);
    FlattenAppend(EncodeAll(codec, next, Selected(prev, next, force, kinds)), EncodeAll(codec, next, one));
    if Transmits(prev, next, force, kind) {
      assert one == [kind];
      assert Flatten(EncodeAll(codec, next, one)) == Encode(codec, next, kind) + Flatten([]);
    } else {
      assert one == [];
    }
  }

  /** The contributions of the first `n` kinds of `DiffOrder`, in order. */
  function ContributionsUpTo(codec: Codec, prev: VehicleState, next: VehicleState, force: bool, n: nat): seq<u8>
    requires n <= FieldCount
  {
    if n == 0 then []
    else ContributionsUpTo(codec, prev, next, force, n - 1) + Contribution(codec, prev, next, force, KindAt(n - 1))
  }

  /** The body of the first `n` kinds of `DiffOrder` is the sequence of their contributions. */
  lemma {:induction false} BodyOfPrefix(codec: Codec, prev: VehicleState, next: VehicleState, force: bool, n: nat)
    requires n <= |DiffOrder|
    ensures Body(codec, prev, next, force, DiffOrder[..n]) == ContributionsUpTo(codec, prev, next, force, n)
  {
    if n > 0 {
      BodyOfPrefix(codec, prev, next, force, n - 1);
      KindAtIsDiffOrder(n - 1);
      assert DiffOrder[..n] == DiffOrder[..n - 1] + [DiffOrder[n - 1]];
      BodySnoc(codec, prev, next, force, DiffOrder[..n - 1], DiffOrder[n - 1]);
    }
  }

  /** The contributions up to and including `kind` extend those before it by the contribution of `kind`. */
  lemma ContributionsStep(codec: Codec, prev: VehicleState, next: VehicleState, force: bool, n: nat, kind: CommandKind)
    requires n == Rank(kind)
    ensures ContributionsUpTo(codec, prev, next, force, n + 1)
         == ContributionsUpTo(codec, prev, next, force, n) + Contribution(codec, prev, next, force, kind)
  {
    KindAtOfRank(kind);
  }

  /** Fields 0 to 3 of `DiffOrder`, written out. */
  lemma ContributionsOfFields0To3(codec: Codec, prev: VehicleState, next: VehicleState, force: bool)
    ensures ContributionsUpTo(codec, prev, next, force, 4)
         == Chunk(codec, Ignition, Narrow(prev.ignition), Narrow(next.ignition), force)
          + Chunk(codec, Engine, Narrow(prev.engine), Narrow(next.engine), force)
          + Chunk(codec, PassengerDoorsOpen, Narrow(prev.doors), Narrow(next.doors), force)
          + Chunk(codec, FixingBrake, Narrow(prev.fixingBrake), Narrow(next.fixingBrake), force)
  {
    ContributionsStep(codec, prev, next, force, 0, Ignition);
    assert ContributionsUpTo(codec, prev, next, force, 1) == Contribution(codec, prev, next, force, Ignition);
    ContributionsStep(codec, prev, next, force, 1, Engine);
    ContributionsStep(codec, prev, next, force, 2, PassengerDoorsOpen);
    ContributionsStep(codec, prev, next, force, 3, FixingBrake);
  }

  /**
   * Fields 4 to 7 of `DiffOrder`, written out after the first 4. The start
   * `n` is a parameter fixed by the precondition rather than the literal 4,
   * so that the verifier does not evaluate `ContributionsUpTo` at a literal
   * all the way down to 0.
   */
  lemma ContributionsOfFields4To7(codec: Codec, prev: VehicleState, next: VehicleState, force: bool, n: nat)
    requires n == 4
    ensures ContributionsUpTo(codec, prev, next, force, n + 4)
         == ContributionsUpTo(codec, prev, next, force, n)
          + Chunk(codec, Indicator, Narrow(prev.indicator), Narrow(next.indicator), force)
          + Chunk(codec, LightsWarning, Narrow(prev.lightsWarning), Narrow(next.lightsWarning), force)
          + Chunk(codec, LightsMain, Narrow(prev.lightsMain), Narrow(next.lightsMain), force)
          + Chunk(codec, LightsStopRequest, Narrow(prev.lightsStopRequest), Narrow(next.lightsStopRequest), force)
  {
    ContributionsStep(codec, prev, next, force, n, Indicator);
    ContributionsStep(codec, prev, next, force, n + 1, LightsWarning);
    ContributionsStep(codec, prev, next, force, n + 2, LightsMain);
    ContributionsStep(codec, prev, next, force, n + 3, LightsStopRequest);
  }

  /**
   * Fields 8 to 11 of `DiffOrder`, written out after the first 8. The start
   * `n` is a parameter fixed by the precondition rather than the literal 8,
   * so that the verifier does not evaluate `ContributionsUpTo` at a literal
   * all the way down to 0.
   */
  lemma ContributionsOfFields8To11(codec: Codec, prev: VehicleState, next: VehicleState, force: bool, n: nat)
    requires n == 8
    ensures ContributionsUpTo(codec, prev, next, force, n + 4)
         == ContributionsUpTo(codec, prev, next, force, n)
          + Chunk(codec, LightsStopBrake, Narrow(prev.lightsStopBrake), Narrow(next.lightsStopBrake), force)
          + Chunk(codec, LightsFrontDoor, Narrow(prev.lightsFrontDoor), Narrow(next.lightsFrontDoor), force)
          + Chunk(codec, LightsSecondDoor, Narrow(prev.lightsSecondDoor), Narrow(next.lightsSecondDoor), force)
          + Chunk(codec, LightsHighBeam, Narrow(prev.lightsHighBeam), Narrow(next.lightsHighBeam), force)
  {
    ContributionsStep(codec, prev, next, force, n, LightsStopBrake);
    ContributionsStep(codec, prev, next, force, n + 1, LightsFrontDoor);
    ContributionsStep(codec, prev, next, force, n + 2, LightsSecondDoor);
    ContributionsStep(codec, prev, next, force, n + 3, LightsHighBeam);
  }

  /**
   * Fields 12 to 15 of `DiffOrder`, written out after the first 12. The start
   * `n` is a parameter fixed by the precondition rather than the literal 12,
   * so that the verifier does not evaluate `ContributionsUpTo` at a literal
   * all the way down to 0.
   */
  lemma ContributionsOfFields12To15(codec: Codec, prev: VehicleState, next: VehicleState, force: bool, n: nat)
    requires n == 12
    ensures ContributionsUpTo(codec, prev, next, force, n + 4)
         == ContributionsUpTo(codec, prev, next, force, n)
          + Chunk(codec, BatteryLight, Narrow(prev.batteryLight), Narrow(next.batteryLight), force)
          + Chunk(codec, Fuel, Wide(prev.fuel), Wide(next.fuel), force)
          + Chunk(codec, Speed, Wide(prev.speed), Wide(next.speed), force)
          + Chunk(codec, MaxSpeed, Wide(prev.maxspeed), Wide(next.maxspeed), force)
  {
    ContributionsStep(codec, prev, next, force, n, BatteryLight);
    ContributionsStep(codec, prev, next, force, n + 1, Fuel);
    ContributionsStep(codec, prev, next, force, n + 2, Speed);
    ContributionsStep(codec, prev, next, force, n + 3, MaxSpeed);
  }

  /**
   * The body over `DiffOrder`, written out as the chunks of the sixteen field
   * changes, in the order in which the command builder visits the fields.
   */
  lemma DiffBodyUnrolled(codec: Codec, prev: VehicleState, next: VehicleState, force: bool)
    ensures Body(codec, prev, next, force, DiffOrder)
         == Chunk(codec, Ignition, Narrow(prev.ignition), Narrow(next.ignition), force)
          + Chunk(codec, Engine, Narrow(prev.engine), Narrow(next.engine), force)
          + Chunk(codec, PassengerDoorsOpen, Narrow(prev.doors), Narrow(next.doors), force)
          + Chunk(codec, FixingBrake, Narrow(prev.fixingBrake), Narrow(next.fixingBrake), force)
          + Chunk(codec, Indicator, Narrow(prev.indicator), Narrow(next.indicator), force)
          + Chunk(codec, LightsWarning, Narrow(prev.lightsWarning), Narrow(next.lightsWarning), force)
          + Chunk(codec, LightsMain, Narrow(prev.lightsMain), Narrow(next.lightsMain), force)
          + Chunk(codec, LightsStopRequest, Narrow(prev.lightsStopRequest), Narrow(next.lightsStopRequest), force)
          + Chunk(codec, LightsStopBrake, Narrow(prev.lightsStopBrake), Narrow(next.lightsStopBrake), force)
          + Chunk(codec, LightsFrontDoor, Narrow(prev.lightsFrontDoor), Narrow(next.lightsFrontDoor), force)
          + Chunk(codec, LightsSecondDoor, Narrow(prev.lightsSecondDoor), Narrow(next.lightsSecondDoor), force)
          + Chunk(codec, LightsHighBeam, Narrow(prev.lightsHighBeam), Narrow(next.lightsHighBeam), force)
          + Chunk(codec, BatteryLight, Narrow(prev.batteryLight), Narrow(next.batteryLight), force)
          + Chunk(codec, Fuel, Wide(prev.fuel), Wide(next.fuel), force)
          + Chunk(codec, Speed, Wide(prev.speed), Wide(next.speed), force)
          + Chunk(codec, MaxSpeed, Wide(prev.maxspeed), Wide(next.maxspeed), force)
  {
    BodyOfPrefix(codec, prev, next, force, |DiffOrder|);
    assert DiffOrder[..|DiffOrder|] == DiffOrder;
    ContributionsOfFields0To3(codec, prev, next, force);
    ContributionsOfFields4To7(codec, prev, next, force, 4);
    ContributionsOfFields8To11(codec, prev, next, force, 8);
    ContributionsOfFields12To15(codec, prev, next, force, 12);
  }

  // ---------------------------------------------------------------------
  // The command builder
  // ---------------------------------------------------------------------

  /**
   * `handle_u8_field_change`: when the value changed, or `force` is set, the
   * frame for the NEW value follows the existing contents; otherwise the
   * buffer is left as it was. `fieldName` and `verbose` only feed a
   * diagnostic line.
   */
  method HandleU8FieldChange(codec: Codec, oldValue: u8, newValue: u8, fieldName: string,
                             kind: CommandKind, verbose: bool, force: bool, buffer: ByteBuffer)
    modifies buffer
    ensures buffer.bytes == old(buffer.bytes) + Chunk(codec, kind, Narrow(oldValue), Narrow(newValue), force)
  {
    if oldValue != newValue || force {
      var b := codec.commandU8(kind, newValue);
      buffer.Append(b);
    }
  }

  /** `handle_u32_field_change`: as `HandleU8FieldChange`, with the `u32` encoder. */
  method HandleU32FieldChange(codec: Codec, oldValue: u32, newValue: u32, fieldName: string,
                              kind: CommandKind, verbose: bool, force: bool, buffer: ByteBuffer)
    modifies buffer
    ensures buffer.bytes == old(buffer.bytes) + Chunk(codec, kind, Wide(oldValue), Wide(newValue), force)
  {
    if oldValue != newValue || force {
      var b := codec.commandU32(kind, newValue);
      buffer.Append(b);
    }
  }

  /**
   * `compare_vehicle_states`: the frames of the transmitted fields in
   * `DiffOrder`, closed by the end-of-line marker when there is at least one
   * byte. The result does not depend on `verbose`.
   */
  method CompareVehicleStates(codec: Codec, prev: VehicleState, next: VehicleState, verbose: bool, force: bool)
    returns (result: seq<u8>)
    ensures result == Diff(codec, prev, next, force)
  {
    var buffer := new ByteBuffer();

    HandleU8FieldChange(codec, prev.ignition, next.ignition, "ignition", Ignition, verbose, force, buffer);
    assert buffer.bytes == Chunk(codec, Ignition, Narrow(prev.ignition), Narrow(next.ignition), force);
    HandleU8FieldChange(codec, prev.engine, next.engine, "engine", Engine, verbose, force, buffer);
    HandleU8FieldChange(codec, prev.doors, next.doors, "doors", PassengerDoorsOpen, verbose, force, buffer);
    HandleU8FieldChange(codec, prev.fixingBrake, next.fixingBrake, "fixing_brake", FixingBrake, verbose, force, buffer);
    HandleU8FieldChange(codec, prev.indicator, next.indicator, "indicator", Indicator, verbose, force, buffer);
    HandleU8FieldChange(codec, prev.lightsWarning, next.lightsWarning, "lights_warning", LightsWarning, verbose, force, buffer);
    HandleU8FieldChange(codec, prev.lightsMain, next.lightsMain, "lights_main", LightsMain, verbose, force, buffer);
    HandleU8FieldChange(codec, prev.lightsStopRequest, next.lightsStopRequest, "lights_stop_request", LightsStopRequest, verbose, force, buffer);
    HandleU8FieldChange(codec, prev.lightsStopBrake, next.lightsStopBrake, "lights_stop_brake", LightsStopBrake, verbose, force, buffer);
    HandleU8FieldChange(codec, prev.lightsFrontDoor, next.lightsFrontDoor, "lights_front_door", LightsFrontDoor, verbose, force, buffer);
    HandleU8FieldChange(codec, prev.lightsSecondDoor, next.lightsSecondDoor, "lights_second_door", LightsSecondDoor, verbose, force, buffer);
    HandleU8FieldChange(codec, prev.lightsHighBeam, next.lightsHighBeam, "lights_high_beam", LightsHighBeam, verbose, force, buffer);
    HandleU8FieldChange(codec, prev.batteryLight, next.batteryLight, "batterylight", BatteryLight, verbose, force, buffer);

    HandleU32FieldChange(codec, prev.fuel, next.fuel, "fuel", Fuel, verbose, force, buffer);
    HandleU32FieldChange(codec, prev.speed, next.speed, "speed", Speed, verbose, force, buffer);
    HandleU32FieldChange(codec, prev.maxspeed, next.maxspeed, "maxspeed", MaxSpeed, verbose, force, buffer);

    DiffBodyUnrolled(codec, prev, next, force);

    if |buffer.bytes| > 0 {
      var b := codec.eol;
      buffer.Append(b);
    }

    result := buffer.bytes;
  }

  /** The `verbose` flag only guards console output: both settings give the same bytes. */
  method CompareIgnoresVerbose(codec: Codec, prev: VehicleState, next: VehicleState, force: bool)
    returns (quiet: seq<u8>, chatty: seq<u8>)
    ensures quiet == chatty
  {
    quiet := CompareVehicleStates(codec, prev, next, false, force);
    chatty := CompareVehicleStates(codec, prev, next, true, force);
  }
}
