/**
 * What the diff promises its receiver, stated over the functional
 * specification `Vehicle.Diff` that both command builders are proved to
 * compute: no output for an unchanged state, one frame per changed field in
 * the fixed order, every field under `force`, and the end-of-line marker
 * exactly when something was transmitted.
 */
module DiffProperties {
  import opened Bytes
  import opened Komsi
  import opened Vehicle

  /** The kinds of `kinds` listed in strictly increasing `DiffOrder` position. */
  ghost predicate InDiffOrder(kinds: seq<CommandKind>) {
    forall i, j :: 0 <= i < j < |kinds| ==> Rank(kinds[i]) < Rank(kinds[j])
  }

  /** The kinds whose fields differ between `prev` and `next`. */
  ghost function ChangedKinds(prev: VehicleState, next: VehicleState): set<CommandKind> {
    set kind | kind in DiffOrder && Field(prev, kind) != Field(next, kind)
  }

  /** Every encoder of `codec` produces at least one byte. */
  ghost predicate NonEmptyFrames(codec: Codec) {
    && (forall kind, v :: |codec.commandU8(kind, v)| > 0)
    && (forall kind, w :: |codec.commandU32(kind, w)| > 0)
  }

  // ---------------------------------------------------------------------
  // Which kinds are transmitted
  // ---------------------------------------------------------------------

  /** `DiffOrder` visits every command kind. */
  lemma DiffOrderCoversAllKinds(kind: CommandKind)
    ensures kind in DiffOrder
  {
    PositionOfRank(kind);
  }

  /** `DiffOrder` itself is in `DiffOrder`: no kind is visited twice. */
  lemma DiffOrderIsOrdered()
    ensures InDiffOrder(DiffOrder)
  {
    forall i, j | 0 <= i < j < |DiffOrder|
      ensures Rank(DiffOrder[i]) < Rank(DiffOrder[j])
    {
      RankOfPosition(i);
      RankOfPosition(j);
    }
  }

  /** A kind is selected exactly when it is visited and transmitted. */
  lemma {:induction false} SelectedMembership(prev: VehicleState, next: VehicleState, force: bool,
                                              kinds: seq<CommandKind>, kind: CommandKind)
    ensures kind in Selected(prev, next, force, kinds) <==> kind in kinds && Transmits(prev, next, force, kind)
  {
    if kinds != [] {
      SelectedMembership(prev, next, force, kinds[1..], kind);
      assert kind in kinds <==> kind == kinds[0] || kind in kinds[1..] by {
        assert kinds == [kinds[0]] + kinds[1..];
      }
    }
  }

  /** Selection keeps the visiting order. */
  lemma {:induction false} SelectedKeepsOrder(prev: VehicleState, next: VehicleState, force: bool, kinds: seq<CommandKind>)
    requires InDiffOrder(kinds)
    ensures InDiffOrder(Selected(prev, next, force, kinds))
  {
    if kinds != [] {
      var rest := Selected(prev, next, force, kinds[1..]);
      assert InDiffOrder(kinds[1..]) by {
        forall i, j | 0 <= i < j < |kinds[1..]|
          ensures Rank(kinds[1..][i]) < Rank(kinds[1..][j])
        {
          assert kinds[1..][i] == kinds[i + 1] && kinds[1..][j] == kinds[j + 1];
        }
      }
      SelectedKeepsOrder(prev, next, force, kinds[1..]);
      if Transmits(prev, next, force, kinds[0]) {
        var sel := [kinds[0]] + rest;
        forall i, j | 0 <= i < j < |sel|
          ensures Rank(sel[i]) < Rank(sel[j])
        {
          if i == 0 {
            SelectedMembership(prev, next, force, kinds[1..], sel[j]);
            var k :| 0 <= k < |kinds[1..]| && kinds[1..][k] == sel[j];
            assert kinds[k + 1] == sel[j];
          } else {
            assert sel[i] == rest[i - 1] && sel[j] == rest[j - 1];
          }
        }
      }
    }
  }

  /** Dropping the first kind of a sequence in `DiffOrder` leaves one in `DiffOrder` without that kind. */
  lemma InDiffOrderTail(kinds: seq<CommandKind>)
    requires InDiffOrder(kinds) && kinds != []
    ensures InDiffOrder(kinds[1..]) && kinds[0] !in kinds[1..]
  {
    var rest := kinds[1..];
    forall i, j | 0 <= i < j < |rest|
      ensures Rank(rest[i]) < Rank(rest[j])
    {
      assert rest[i] == kinds[i + 1] && rest[j] == kinds[j + 1];
    }
    forall i | 0 <= i < |rest|
      ensures rest[i] != kinds[0]
    {
      assert rest[i] == kinds[i + 1];
    }
  }

  /** A sequence in `DiffOrder` has no repeated kind, so it has as many elements as its set. */
  lemma {:induction false} OrderedCardinality(kinds: seq<CommandKind>)
    requires InDiffOrder(kinds)
    ensures |set kind | kind in kinds| == |kinds|
  {
    if kinds != [] {
      var rest := kinds[1..];
      InDiffOrderTail(kinds);
      OrderedCardinality(rest);
      assert (set kind | kind in kinds) == {kinds[0]} + (set kind | kind in rest) by {
        assert kinds == [kinds[0]] + rest;
      }
    }
  }

  /** A sequence in `DiffOrder` that holds `kind` and nothing else is `[kind]`. */
  lemma OnlyKind(kinds: seq<CommandKind>, kind: CommandKind)
    requires InDiffOrder(kinds) && kind in kinds
    requires forall other :: other in kinds ==> other == kind
    ensures kinds == [kind]
  {
    OrderedCardinality(kinds);
    assert (set other | other in kinds) == {kind};
    assert kinds[0] in kinds;
  }

  /** With equal states and no `force`, no kind is selected. */
  lemma {:induction false} NothingSelectedForEqualStates(s: VehicleState, kinds: seq<CommandKind>)
    ensures Selected(s, s, false, kinds) == []
  {
    if kinds != [] {
      NothingSelectedForEqualStates(s, kinds[1..]);
    }
  }

  /** When no visited kind is transmitted, nothing is selected. */
  lemma {:induction false} NothingSelectedWhenNothingTransmits(prev: VehicleState, next: VehicleState, force: bool,
                                                              kinds: seq<CommandKind>)
    requires forall kind :: kind in kinds ==> !Transmits(prev, next, force, kind)
    ensures Selected(prev, next, force, kinds) == []
  {
    if kinds != [] {
      assert kinds[0] in kinds;
      NothingSelectedWhenNothingTransmits(prev, next, force, kinds[1..]);
    }
  }

  /** With `force`, every visited kind is selected, in visiting order. */
  lemma {:induction false} EverythingSelectedWhenForced(prev: VehicleState, next: VehicleState, kinds: seq<CommandKind>)
    ensures Selected(prev, next, true, kinds) == kinds
  {
    if kinds != [] {
      EverythingSelectedWhenForced(prev, next, kinds[1..]);
      assert kinds == [kinds[0]] + kinds[1..];
    }
  }

  /** Two diffs that transmit the same kinds select them identically. */
  lemma {:induction false} SelectionDependsOnlyOnTransmittedKinds(
    prev1: VehicleState, next1: VehicleState, force1: bool,
    prev2: VehicleState, next2: VehicleState, force2: bool, kinds: seq<CommandKind>)
    requires forall kind :: Transmits(prev1, next1, force1, kind) == Transmits(prev2, next2, force2, kind)
    ensures Selected(prev1, next1, force1, kinds) == Selected(prev2, next2, force2, kinds)
  {
    if kinds != [] {
      SelectionDependsOnlyOnTransmittedKinds(prev1, next1, force1, prev2, next2, force2, kinds[1..]);
    }
  }

  // ---------------------------------------------------------------------
  // The diff
  // ---------------------------------------------------------------------

  /** Comparing a state with itself, without `force`, transmits nothing. */
  lemma EqualStatesGiveEmptyDiff(codec: Codec, s: VehicleState)
    ensures Diff(codec, s, s, false) == []
  {
    NothingSelectedForEqualStates(s, DiffOrder);
  }

  /**
   * The diff selects exactly the transmitted kinds (the changed fields, or
   * all fields under `force`), each once and in `DiffOrder`.
   */
  lemma TransmittedKindsInOrder(prev: VehicleState, next: VehicleState, force: bool)
    ensures var sel := Selected(prev, next, force, DiffOrder);
      && (forall kind :: kind in sel <==> Transmits(prev, next, force, kind))
      && InDiffOrder(sel)
  {
    var sel := Selected(prev, next, force, DiffOrder);
    forall kind
      ensures kind in sel <==> Transmits(prev, next, force, kind)
    {
      SelectedMembership(prev, next, force, DiffOrder, kind);
      DiffOrderCoversAllKinds(kind);
    }
    DiffOrderIsOrdered();
    SelectedKeepsOrder(prev, next, force, DiffOrder);
  }

  /**
   * Without `force`, the diff consists of one frame per changed field, each
   * carrying the field's NEW value; unchanged fields give no frame.
   */
  lemma ChangedFieldsGiveOneFrameEach(codec: Codec, prev: VehicleState, next: VehicleState)
    ensures var sel := Selected(prev, next, false, DiffOrder);
      && |sel| == |ChangedKinds(prev, next)|
      && (forall kind :: kind in sel <==> Field(prev, kind) != Field(next, kind))
      && Diff(codec, prev, next, false) == Framed(Flatten(EncodeAll(codec, next, sel)), codec.eol)
  {
    var sel := Selected(prev, next, false, DiffOrder);
    TransmittedKindsInOrder(prev, next, false);
    OrderedCardinality(sel);
    assert (set kind | kind in sel) == ChangedKinds(prev, next);
  }

  /**
   * With `force`, every field is encoded, in `DiffOrder`, whatever the
   * previous state was; with non-empty frames the marker follows them.
   */
  lemma ForcedDiffEncodesEveryField(codec: Codec, prev: VehicleState, next: VehicleState)
    ensures |EncodeAll(codec, next, DiffOrder)| == |DiffOrder| == 16
    ensures Diff(codec, prev, next, true) == Framed(Flatten(EncodeAll(codec, next, DiffOrder)), codec.eol)
    ensures NonEmptyFrames(codec) ==> Diff(codec, prev, next, true) == Flatten(EncodeAll(codec, next, DiffOrder)) + codec.eol
  {
    EverythingSelectedWhenForced(prev, next, DiffOrder);
    if NonEmptyFrames(codec) {
      MarkerIffSomethingTransmitted(codec, prev, next, true);
    }
  }

  /** A forced diff does not depend on the previous state. */
  lemma ForcedDiffIgnoresPreviousState(codec: Codec, prev1: VehicleState, prev2: VehicleState, next: VehicleState)
    ensures Diff(codec, prev1, next, true) == Diff(codec, prev2, next, true)
  {
    ForcedDiffEncodesEveryField(codec, prev1, next);
    ForcedDiffEncodesEveryField(codec, prev2, next);
  }

  /**
   * The bytes of a diff are a function of WHICH kinds are transmitted and of
   * the new values of those kinds alone: two diffs that transmit the same
   * kinds, towards new states that agree on every transmitted field, give
   * the same bytes, whatever the previous states, the flags and the
   * untransmitted fields are.
   */
  lemma SameTransmittedKindsSameBytes(codec: Codec, prev1: VehicleState, next1: VehicleState, force1: bool,
                                      prev2: VehicleState, next2: VehicleState, force2: bool)
    requires forall kind :: Transmits(prev1, next1, force1, kind) == Transmits(prev2, next2, force2, kind)
    requires forall kind :: Transmits(prev1, next1, force1, kind) ==> Field(next1, kind) == Field(next2, kind)
    ensures Diff(codec, prev1, next1, force1) == Diff(codec, prev2, next2, force2)
  {
    SelectionDependsOnlyOnTransmittedKinds(prev1, next1, force1, prev2, next2, force2, DiffOrder);
    var sel := Selected(prev1, next1, force1, DiffOrder);
    forall i | 0 <= i < |sel|
      ensures Encode(codec, next1, sel[i]) == Encode(codec, next2, sel[i])
    {
      SelectedMembership(prev1, next1, force1, DiffOrder, sel[i]);
    }
    assert EncodeAll(codec, next1, sel) == EncodeAll(codec, next2, sel);
  }

  /** When no kind is selected, not even the end-of-line marker is transmitted. */
  lemma EmptySelectionGivesEmptyDiff(codec: Codec, prev: VehicleState, next: VehicleState, force: bool)
    ensures Selected(prev, next, force, DiffOrder) == [] ==> Diff(codec, prev, next, force) == []
  {
  }

  /**
   * For a codec whose frames are never empty, the marker is appended exactly
   * when at least one field is transmitted.
   */
  lemma MarkerIffSomethingTransmitted(codec: Codec, prev: VehicleState, next: VehicleState, force: bool)
    requires NonEmptyFrames(codec)
    ensures var sel := Selected(prev, next, force, DiffOrder);
      && (sel != [] <==> Body(codec, prev, next, force, DiffOrder) != [])
      && (sel != [] ==> Diff(codec, prev, next, force) == Body(codec, prev, next, force, DiffOrder) + codec.eol)
      && (sel == [] ==> Diff(codec, prev, next, force) == [])
  {
    var sel := Selected(prev, next, force, DiffOrder);
    if sel != [] {
      var frames := EncodeAll(codec, next, sel);
      assert frames[0] == Encode(codec, next, sel[0]);
      assert |frames[0]| > 0 by {
        match Field(next, sel[0])
        case Narrow(v) => assert |codec.commandU8(sel[0], v)| > 0;
        case Wide(w) => assert |codec.commandU32(sel[0], w)| > 0;
      }
      assert Flatten(frames) == frames[0] + Flatten(frames[1..]);
    }
  }

  /** The diff of a selection consisting of `kind` alone is the frame of `kind`, framed. */
  lemma DiffOfSingleSelection(codec: Codec, prev: VehicleState, next: VehicleState, force: bool, kind: CommandKind)
    requires Selected(prev, next, force, DiffOrder) == [kind]
    ensures Diff(codec, prev, next, force) == Framed(Encode(codec, next, kind), codec.eol)
  {
    var frames := EncodeAll(codec, next, [kind]);
    assert frames == [Encode(codec, next, kind)];
    assert Flatten(frames) == Encode(codec, next, kind) + Flatten([]);
  }

  /** A change in one field alone transmits the one frame of that field, framed. */
  lemma SingleChangeGivesSingleFrame(codec: Codec, prev: VehicleState, next: VehicleState, kind: CommandKind)
    requires Field(prev, kind) != Field(next, kind)
    requires forall other :: other != kind ==> Field(prev, other) == Field(next, other)
    ensures Selected(prev, next, false, DiffOrder) == [kind]
    ensures Diff(codec, prev, next, false) == Framed(Encode(codec, next, kind), codec.eol)
  {
    TransmittedKindsInOrder(prev, next, false);
    OnlyKind(Selected(prev, next, false, DiffOrder), kind);
    DiffOfSingleSelection(codec, prev, next, false, kind);
  }

  /**
   * From the neutral state, switching the ignition on and nothing else
   * transmits the single ignition frame with value 1, framed.
   */
  lemma IgnitionOnlyExample(codec: Codec)
    ensures var s := InitVehicleState();
      && Selected(s, s.(ignition := 1), false, DiffOrder) == [Ignition]
      && Diff(codec, s, s.(ignition := 1), false) == Framed(codec.commandU8(Ignition, 1), codec.eol)
  {
    var s := InitVehicleState();
    SingleChangeGivesSingleFrame(codec, s, s.(ignition := 1), Ignition);
  }
}
