/** Tune and chromaticity matching, pyhdtoolkit/cpymadtools/matching.py.

    `match_tunes_and_chromaticities` picks the knobs to vary (given
    explicitly, or the LHC defaults for the beam named by the sequence's last
    character) and, depending on which targets are given, runs one MATCH
    block: all four targets, the two tunes only, the two chromaticities
    only, or nothing. A target given as `None` is `Option.None`; an empty
    knob list and `None` are both falsy and are both the empty sequence here.
 */
module Matching {
  import opened Errors
  import opened Text
  import opened Madx
  import LhcMisc

  // ---------------------------------------------------------------------------
  // The MATCH block
  // ---------------------------------------------------------------------------

  /** The inner `match(*knobs, **targets)`: MATCH, GLOBAL on the sequence with
      the targets, one VARY per knob with the step, LMDIF, ENDMATCH, then a
      TWISS. */
  function MatchCommands(sequence: Option<string>, knobs: seq<string>, targets: seq<(string, real)>,
                         step: real, calls: int, tolerance: real): (cs: seq<Command>)
    ensures |cs| == |knobs| + 5
    ensures cs[0] == Match && cs[1] == Global(sequence, targets)
    ensures forall i :: 0 <= i < |knobs| ==> cs[2 + i] == Vary(knobs[i], step, None)
    ensures cs[|knobs| + 2..] == [Lmdif(calls, tolerance), EndMatch, Twiss]
  {
    [Match, Global(sequence, targets)]
    + seq(|knobs|, i requires 0 <= i < |knobs| => Vary(knobs[i], step, None))
    + [Lmdif(calls, tolerance), EndMatch, Twiss]
  }

  /** The names of the VARY commands of a log, in order. */
  function VariedNames(cs: seq<Command>): (names: seq<string>)
    ensures |names| <= |cs|
    decreases |cs|
  {
    if cs == [] then []
    else if cs[0].Vary? then [cs[0].name] + VariedNames(cs[1..])
    else VariedNames(cs[1..])
  }

  lemma {:induction false} VariedNamesAppend(a: seq<Command>, b: seq<Command>)
    ensures VariedNames(a + b) == VariedNames(a) + VariedNames(b)
    decreases |a|
  {
    if a == [] {
      assert a + b == b;
    } else {
      assert (a + b)[0] == a[0];
      assert (a + b)[1..] == a[1..] + b;
      VariedNamesAppend(a[1..], b);
    }
  }

  lemma {:induction false} NoVaries(cs: seq<Command>)
    requires forall i :: 0 <= i < |cs| ==> !cs[i].Vary?
    ensures VariedNames(cs) == []
    decreases |cs|
  {
    if cs != [] {
      NoVaries(cs[1..]);
    }
  }

  lemma {:induction false} VariedNamesOfVaries(knobs: seq<string>, step: real)
    ensures VariedNames(seq(|knobs|, i requires 0 <= i < |knobs| => Vary(knobs[i], step, None))) == knobs
    decreases |knobs|
  {
    var vs := seq(|knobs|, i requires 0 <= i < |knobs| => Vary(knobs[i], step, None));
    if knobs != [] {
      assert vs[1..] == seq(|knobs[1..]|, i requires 0 <= i < |knobs[1..]| => Vary(knobs[1..][i], step, None));
      VariedNamesOfVaries(knobs[1..], step);
    }
  }

  /** A MATCH block varies exactly the knobs it was given, in order. */
  lemma MatchCommandsVary(sequence: Option<string>, knobs: seq<string>, targets: seq<(string, real)>,
                          step: real, calls: int, tolerance: real)
    ensures VariedNames(MatchCommands(sequence, knobs, targets, step, calls, tolerance)) == knobs
  {
    var head: seq<Command> := [Match, Global(sequence, targets)];
    var vs := seq(|knobs|, i requires 0 <= i < |knobs| => Vary(knobs[i], step, None));
    var tail: seq<Command> := [Lmdif(calls, tolerance), EndMatch, Twiss];
    VariedNamesAppend(head + vs, tail);
    VariedNamesAppend(head, vs);
    VariedNamesOfVaries(knobs, step);
    NoVaries(head);
    NoVaries(tail);
    assert MatchCommands(sequence, knobs, targets, step, calls, tolerance) == head + vs + tail;
  }

  // ---------------------------------------------------------------------------
  // Default knobs
  // ---------------------------------------------------------------------------

  /** `int(sequence[-1])`: no sequence is a TypeError, an empty one an
      IndexError, and a last character that is not a digit a ValueError. */
  function SequenceBeam(sequence: Option<string>): (r: Result<int>)
    ensures sequence.None? ==> r == Err(TypeError)
    ensures sequence == Some("") ==> r == Err(IndexError)
    ensures sequence.Some? && sequence.value != "" ==>
              var last := sequence.value[|sequence.value| - 1];
              (r.Ok? <==> IsDigit(last)) && (r.Ok? ==> r.value == DigitValue(last))
              && (r.Err? ==> r.error == ValueError)
  {
    match sequence
    case None => Err(TypeError)
    case Some(s) =>
      if s == [] then Err(IndexError)
      else if IsDigit(s[|s| - 1]) then Ok(DigitValue(s[|s| - 1]))
      else Err(ValueError)
  }

  /** `accelerator and not varied_knobs`: the knobs come from the LHC defaults. */
  predicate Defaulting(accelerator: Option<string>, varied: seq<string>) {
    accelerator.Some? && accelerator.value != "" && varied == []
  }

  /** `get_lhc_tune_and_chroma_knobs(accelerator, int(sequence[-1]), ...)`. */
  function DefaultKnobs(accelerator: string, sequence: Option<string>, telescopicSqueeze: bool, run3: bool): (r: Result<LhcMisc.Knobs>)
    ensures SequenceBeam(sequence).Err? ==> r == Err(SequenceBeam(sequence).error)
    ensures SequenceBeam(sequence).Ok? ==>
              r == LhcMisc.LhcTuneAndChromaKnobs(accelerator, SequenceBeam(sequence).value, telescopicSqueeze, run3)
  {
    match SequenceBeam(sequence)
    case Err(e) => Err(e)
    case Ok(beam) => LhcMisc.LhcTuneAndChromaKnobs(accelerator, beam, telescopicSqueeze, run3)
  }

  // ---------------------------------------------------------------------------
  // Dispatch
  // ---------------------------------------------------------------------------

  /** Which matching the given targets ask for. */
  datatype Kind = Combined | TunesOnly | ChromasOnly | Nothing

  function KindOf(q1: Option<real>, q2: Option<real>, dq1: Option<real>, dq2: Option<real>): (k: Kind)
    ensures k == Combined <==> q1.Some? && q2.Some? && dq1.Some? && dq2.Some?
    ensures k == TunesOnly <==> q1.Some? && q2.Some? && (dq1.None? || dq2.None?)
    ensures k == ChromasOnly <==> (q1.None? || q2.None?) && dq1.Some? && dq2.Some?
  {
    if q1.Some? && q2.Some? && dq1.Some? && dq2.Some? then Combined
    else if q1.Some? && q2.Some? then TunesOnly
    else if dq1.Some? && dq2.Some? then ChromasOnly
    else Nothing
  }

  /** The GLOBAL targets of a matching. */
  function TargetsOf(kind: Kind, q1: Option<real>, q2: Option<real>, dq1: Option<real>, dq2: Option<real>): seq<(string, real)>
    requires kind == KindOf(q1, q2, dq1, dq2)
  {
    match kind
    case Combined => [("q1", q1.value), ("q2", q2.value), ("dq1", dq1.value), ("dq2", dq2.value)]
    case TunesOnly => [("q1", q1.value), ("q2", q2.value)]
    case ChromasOnly => [("dq1", dq1.value), ("dq2", dq2.value)]
    case Nothing => []
  }

  /** The default knobs a matching uses: all four, the tune pair or the
      chromaticity pair. */
  function DefaultPart(kind: Kind, k: LhcMisc.Knobs): seq<string> {
    match kind
    case Combined => [k.0, k.1, k.2, k.3]
    case TunesOnly => [k.0, k.1]
    case ChromasOnly => [k.2, k.3]
    case Nothing => []
  }

  /** The local a matching without knobs reads before anything assigned it. */
  function UnboundKnobs(kind: Kind): string {
    match kind
    case Combined => "lhc_knobs"
    case TunesOnly => "tune_knobs"
    case ChromasOnly => "chroma_knobs"
    case Nothing => ""
  }

  /** `match_tunes_and_chromaticities(madx, accelerator, sequence, q1_target,
      q2_target, dq1_target, dq2_target, varied_knobs, telescopic_squeeze,
      run3, step, calls, tolerance)`.

      The default knobs are looked up first, whenever an accelerator is given
      without knobs, and their errors come before anything is sent. Then the
      targets choose the matching; explicit knobs are varied as given, and
      with neither knobs nor an accelerator a matching reads an unassigned
      local. Nothing else touches the globals. */
  function MatchTunesAndChromaticities(m: Madx, accelerator: Option<string>, sequence: Option<string>,
                                       q1: Option<real>, q2: Option<real>, dq1: Option<real>, dq2: Option<real>,
                                       varied: seq<string>, telescopicSqueeze: bool, run3: bool,
                                       step: real, calls: int, tolerance: real): (r: Outcome<()>)
    ensures r.state.globals == m.globals
    ensures |r.state.log| >= |m.log| && r.state.log[..|m.log|] == m.log
    ensures r.result.Err? ==> r.state == m
    ensures Defaulting(accelerator, varied) && DefaultKnobs(accelerator.value, sequence, telescopicSqueeze, run3).Err? ==>
              r.result == Err(DefaultKnobs(accelerator.value, sequence, telescopicSqueeze, run3).error)
    ensures !Defaulting(accelerator, varied) && varied == [] && KindOf(q1, q2, dq1, dq2) != Nothing ==>
              r.result == Err(UnboundLocalError(UnboundKnobs(KindOf(q1, q2, dq1, dq2))))
    ensures r.result.Ok? && KindOf(q1, q2, dq1, dq2) == Nothing ==> r.state == m
    ensures r.result.Ok? && KindOf(q1, q2, dq1, dq2) != Nothing ==>
              var kind := KindOf(q1, q2, dq1, dq2);
              var knobs := if varied != [] then varied
                           else DefaultPart(kind, DefaultKnobs(accelerator.value, sequence, telescopicSqueeze, run3).value);
              r.state.log == m.log + MatchCommands(sequence, knobs, TargetsOf(kind, q1, q2, dq1, dq2), step, calls, tolerance)
  {
    var defaults: Result<Option<LhcMisc.Knobs>> :=
      if !Defaulting(accelerator, varied) then Ok(None)
      else match DefaultKnobs(accelerator.value, sequence, telescopicSqueeze, run3)
        case Err(e) => Err(e)
        case Ok(k) => Ok(Some(k));
    if defaults.Err? then Outcome(m, Err(defaults.error))
    else
      var kind := KindOf(q1, q2, dq1, dq2);
      if kind == Nothing then Outcome(m, Ok(()))
      else if varied == [] && defaults.value.None? then Outcome(m, Err(UnboundLocalError(UnboundKnobs(kind))))
      else
        var knobs := if varied != [] then varied else DefaultPart(kind, defaults.value.value);
        Outcome(Send(m, MatchCommands(sequence, knobs, TargetsOf(kind, q1, q2, dq1, dq2), step, calls, tolerance)), Ok(()))
  }

  /** The call succeeds exactly when the default lookup (if any) succeeds and
      a requested matching has knobs to vary. */
  lemma MatchSucceeds(m: Madx, accelerator: Option<string>, sequence: Option<string>,
                      q1: Option<real>, q2: Option<real>, dq1: Option<real>, dq2: Option<real>,
                      varied: seq<string>, telescopicSqueeze: bool, run3: bool,
                      step: real, calls: int, tolerance: real)
    ensures MatchTunesAndChromaticities(m, accelerator, sequence, q1, q2, dq1, dq2, varied, telescopicSqueeze, run3, step, calls, tolerance).result.Ok?
            <==> (Defaulting(accelerator, varied) ==> DefaultKnobs(accelerator.value, sequence, telescopicSqueeze, run3).Ok?)
                 && (KindOf(q1, q2, dq1, dq2) != Nothing ==> varied != [] || Defaulting(accelerator, varied))
  {
  }

  /** Explicit knobs take precedence: the accelerator then plays no part, and
      the knobs varied are exactly the ones given. */
  lemma ExplicitKnobsWin(m: Madx, a1: Option<string>, a2: Option<string>, sequence: Option<string>,
                         q1: Option<real>, q2: Option<real>, dq1: Option<real>, dq2: Option<real>,
                         varied: seq<string>, telescopicSqueeze: bool, run3: bool,
                         step: real, calls: int, tolerance: real)
    requires varied != []
    ensures var r1 := MatchTunesAndChromaticities(m, a1, sequence, q1, q2, dq1, dq2, varied, telescopicSqueeze, run3, step, calls, tolerance);
            var r2 := MatchTunesAndChromaticities(m, a2, sequence, q1, q2, dq1, dq2, varied, telescopicSqueeze, run3, step, calls, tolerance);
            r1 == r2 && r1.result.Ok?
    ensures var r := MatchTunesAndChromaticities(m, a1, sequence, q1, q2, dq1, dq2, varied, telescopicSqueeze, run3, step, calls, tolerance);
            KindOf(q1, q2, dq1, dq2) != Nothing ==> VariedNames(r.state.log[|m.log|..]) == varied
  {
    var r := MatchTunesAndChromaticities(m, a1, sequence, q1, q2, dq1, dq2, varied, telescopicSqueeze, run3, step, calls, tolerance);
    var kind := KindOf(q1, q2, dq1, dq2);
    if kind != Nothing {
      var cs := MatchCommands(sequence, varied, TargetsOf(kind, q1, q2, dq1, dq2), step, calls, tolerance);
      assert r.state.log[|m.log|..] == cs;
      MatchCommandsVary(sequence, varied, TargetsOf(kind, q1, q2, dq1, dq2), step, calls, tolerance);
    }
  }

  /** An accelerator other than (HL)LHC, in any case, without knobs, is a
      NotImplementedError once the sequence names a beam; nothing is sent. */
  lemma UnknownAcceleratorRejected(m: Madx, accelerator: string, sequence: string,
                                   q1: Option<real>, q2: Option<real>, dq1: Option<real>, dq2: Option<real>,
                                   telescopicSqueeze: bool, run3: bool, step: real, calls: int, tolerance: real)
    requires accelerator != "" && Upper(accelerator) != "LHC" && Upper(accelerator) != "HLLHC"
    requires sequence != "" && IsDigit(sequence[|sequence| - 1])
    ensures var r := MatchTunesAndChromaticities(m, Some(accelerator), Some(sequence), q1, q2, dq1, dq2, [],
                                                 telescopicSqueeze, run3, step, calls, tolerance);
            r == Outcome(m, Err(NotImplementedError))
  {
  }

  /** `match_tunes_and_chromaticities(madx, "some_machine", "some_sequence1",
      6.335, 6.29, 100, 100)` raises NotImplementedError. */
  lemma UnknownAcceleratorExample(m: Madx)
    ensures MatchTunesAndChromaticities(m, Some("some_machine"), Some("some_sequence1"), Some(6.335), Some(6.29),
                                        Some(100.0), Some(100.0), [], true, false, 0.0000001, 100, 0.0).result
            == Err(NotImplementedError)
  {
    assert |Upper("some_machine")| == 12;
    var s := "some_sequence1";
    assert s[|s| - 1] == '1';
    UnknownAcceleratorRejected(m, "some_machine", s, Some(6.335), Some(6.29), Some(100.0), Some(100.0),
                               true, false, 0.0000001, 100, 0.0);
  }

  // ---------------------------------------------------------------------------
  // Wrappers
  // ---------------------------------------------------------------------------

  /** `match_tunes(...)`: the chromaticity targets are None. */
  function MatchTunes(m: Madx, accelerator: Option<string>, sequence: Option<string>, q1: Option<real>, q2: Option<real>,
                      varied: seq<string>, telescopicSqueeze: bool, run3: bool,
                      step: real, calls: int, tolerance: real): (r: Outcome<()>)
    ensures r.result.Ok? && q1.Some? && q2.Some? ==>
              |r.state.log| > |m.log| + 1 && r.state.log[|m.log| + 1] == Global(sequence, [("q1", q1.value), ("q2", q2.value)])
    ensures q1.None? || q2.None? ==> r.result.Ok? ==> r.state == m
  {
    var r := MatchTunesAndChromaticities(m, accelerator, sequence, q1, q2, None, None, varied, telescopicSqueeze, run3, step, calls, tolerance);
    assert r.result.Ok? && q1.Some? && q2.Some? ==> r.state.log[|m.log| + 1] == Global(sequence, [("q1", q1.value), ("q2", q2.value)]) by {
      if r.result.Ok? && q1.Some? && q2.Some? {
        var knobs := if varied != [] then varied
                     else DefaultPart(TunesOnly, DefaultKnobs(accelerator.value, sequence, telescopicSqueeze, run3).value);
        var cs := MatchCommands(sequence, knobs, [("q1", q1.value), ("q2", q2.value)], step, calls, tolerance);
        assert r.state.log == m.log + cs;
        assert r.state.log[|m.log| + 1] == cs[1];
      }
    }
    r
  }

  /** `match_chromaticities(...)`: the tune targets are None. */
  function MatchChromaticities(m: Madx, accelerator: Option<string>, sequence: Option<string>, dq1: Option<real>, dq2: Option<real>,
                               varied: seq<string>, telescopicSqueeze: bool, run3: bool,
                               step: real, calls: int, tolerance: real): (r: Outcome<()>)
    ensures r.result.Ok? && dq1.Some? && dq2.Some? ==>
              |r.state.log| > |m.log| + 1 && r.state.log[|m.log| + 1] == Global(sequence, [("dq1", dq1.value), ("dq2", dq2.value)])
    ensures dq1.None? || dq2.None? ==> r.result.Ok? ==> r.state == m
  {
    var r := MatchTunesAndChromaticities(m, accelerator, sequence, None, None, dq1, dq2, varied, telescopicSqueeze, run3, step, calls, tolerance);
    assert r.result.Ok? && dq1.Some? && dq2.Some? ==> r.state.log[|m.log| + 1] == Global(sequence, [("dq1", dq1.value), ("dq2", dq2.value)]) by {
      if r.result.Ok? && dq1.Some? && dq2.Some? {
        var knobs := if varied != [] then varied
                     else DefaultPart(ChromasOnly, DefaultKnobs(accelerator.value, sequence, telescopicSqueeze, run3).value);
        var cs := MatchCommands(sequence, knobs, [("dq1", dq1.value), ("dq2", dq2.value)], step, calls, tolerance);
        assert r.state.log == m.log + cs;
        assert r.state.log[|m.log| + 1] == cs[1];
      }
    }
    r
  }

  /** Tune matching with the default knobs varies the first two knobs of
      `get_lhc_tune_and_chroma_knobs`, chromaticity matching the last two. */
  lemma DefaultKnobsSplit(m: Madx, accelerator: string, sequence: Option<string>, q: real, dq: real,
                          telescopicSqueeze: bool, run3: bool, step: real, calls: int, tolerance: real)
    requires accelerator != ""
    requires DefaultKnobs(accelerator, sequence, telescopicSqueeze, run3).Ok?
    ensures var k := DefaultKnobs(accelerator, sequence, telescopicSqueeze, run3).value;
            var t := MatchTunes(m, Some(accelerator), sequence, Some(q), Some(q), [], telescopicSqueeze, run3, step, calls, tolerance);
            var c := MatchChromaticities(m, Some(accelerator), sequence, Some(dq), Some(dq), [], telescopicSqueeze, run3, step, calls, tolerance);
            VariedNames(t.state.log[|m.log|..]) == [k.0, k.1] && VariedNames(c.state.log[|m.log|..]) == [k.2, k.3]
  {
    var k := DefaultKnobs(accelerator, sequence, telescopicSqueeze, run3).value;
    var t := MatchTunes(m, Some(accelerator), sequence, Some(q), Some(q), [], telescopicSqueeze, run3, step, calls, tolerance);
    var c := MatchChromaticities(m, Some(accelerator), sequence, Some(dq), Some(dq), [], telescopicSqueeze, run3, step, calls, tolerance);
    assert t.state.log[|m.log|..] == MatchCommands(sequence, [k.0, k.1], [("q1", q), ("q2", q)], step, calls, tolerance);
    assert c.state.log[|m.log|..] == MatchCommands(sequence, [k.2, k.3], [("dq1", dq), ("dq2", dq)], step, calls, tolerance);
    MatchCommandsVary(sequence, [k.0, k.1], [("q1", q), ("q2", q)], step, calls, tolerance);
    MatchCommandsVary(sequence, [k.2, k.3], [("dq1", dq), ("dq2", dq)], step, calls, tolerance);
  }
}
