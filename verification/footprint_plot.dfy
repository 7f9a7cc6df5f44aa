/** `_Footprint` and `get_footprint_lines` of pyhdtoolkit/cpymadtools/tune.py.

    `_Footprint` holds the tune groups that `_make_tune_groups` returns, one
    group per starting amplitude, and looks a point up by amplitude index and
    angle index. `get_plottable` visits the points along a fixed path: each
    pair of amplitudes out and back along the angles, then the spokes of
    constant angle. The horizontal and vertical lookups share the same control
    flow, so one lookup of the point stands for both.
 */
module FootprintPlot {
  import opened Errors
  import opened Text
  import opened Footprint

  /** `_Footprint(tune_groups, amplitude, angle, dsigma)`. */
  datatype TuneFootprint = TuneFootprint(tunes: seq<seq<TunePoint>>, nampl: int, maxnangl: int, dsigma: real)

  /** An (amplitude index, angle index) pair as `get_plottable` visits it. */
  type Visit = (int, int)

  // ---------------------------------------------------------------------------
  // get_h_tune / get_v_tune
  // ---------------------------------------------------------------------------

  /** The point `get_h_tune(ampl, angl)` and `get_v_tune(ampl, angl)` read:
      an angle index at or past the end of the group but below `maxnangl`
      takes the group's last point; any other index is a Python list index. */
  function GetTune(fp: TuneFootprint, ampl: int, angl: int): (r: Result<TunePoint>)
    ensures !(-|fp.tunes| <= ampl < |fp.tunes|) ==> r == Err(IndexError)
    ensures -|fp.tunes| <= ampl < |fp.tunes| ==>
              var g := fp.tunes[if ampl < 0 then |fp.tunes| + ampl else ampl];
              (r.Ok? <==> -|g| <= angl < |g| || (|g| > 0 && |g| <= angl < fp.maxnangl)) &&
              (0 <= angl < |g| ==> r == Ok(g[angl])) &&
              (-|g| <= angl < 0 ==> r == Ok(g[|g| + angl])) &&
              (|g| > 0 && |g| <= angl < fp.maxnangl ==> r == Ok(g[|g| - 1]))
    ensures r.Err? ==> r.error == IndexError
  {
    var group :- PyIndex(fp.tunes, ampl);
    if |group| <= angl < fp.maxnangl then PyIndex(group, |group| - 1)
    else PyIndex(group, angl)
  }

  /** `get_h_tune(ampl, angl)`. */
  function GetHTune(fp: TuneFootprint, ampl: int, angl: int): (r: Result<string>)
    ensures r.Ok? <==> GetTune(fp, ampl, angl).Ok?
    ensures r.Ok? ==> r.value == GetTune(fp, ampl, angl).value.h
  {
    var p :- GetTune(fp, ampl, angl);
    Ok(p.h)
  }

  /** `get_v_tune(ampl, angl)`. */
  function GetVTune(fp: TuneFootprint, ampl: int, angl: int): (r: Result<string>)
    ensures r.Ok? <==> GetTune(fp, ampl, angl).Ok?
    ensures r.Ok? ==> r.value == GetTune(fp, ampl, angl).value.v
  {
    var p :- GetTune(fp, ampl, angl);
    Ok(p.v)
  }

  // ---------------------------------------------------------------------------
  // The path get_plottable follows
  // ---------------------------------------------------------------------------

  /** `np.arange(start, stop, step)` on integers. */
  function Arange(start: int, stop: int, step: int): (r: seq<int>)
    requires step != 0
    ensures forall k :: 0 <= k < |r| ==> r[k] == start + k * step
    ensures step > 0 ==> forall x :: x in r ==> start <= x < stop
    ensures step < 0 ==> forall x :: x in r ==> stop < x <= start
    decreases if step > 0 then stop - start else start - stop
  {
    if (step > 0 && start >= stop) || (step < 0 && start <= stop) then []
    else [start] + Arange(start + step, stop, step)
  }

  /** Every value of the progression that lies before `stop` is produced. */
  lemma {:induction false} ArangeIndex(start: int, stop: int, step: int, k: nat)
    requires step != 0
    requires step > 0 ==> start + k * step < stop
    requires step < 0 ==> start + k * step > stop
    ensures k < |Arange(start, stop, step)| && Arange(start, stop, step)[k] == start + k * step
    decreases k
  {
    if k > 0 {
      assert (start + step) + (k - 1) * step == start + k * step;
      if step > 0 {
        assert start + step <= start + k * step;
      } else {
        assert start + step >= start + k * step;
      }
      ArangeIndex(start + step, stop, step, k - 1);
    }
  }

  /** The visits `(i, j)` for each `j` of `js`. */
  function AlongAngles(i: int, js: seq<int>): (vs: seq<Visit>)
    ensures |vs| == |js| && forall k :: 0 <= k < |js| ==> vs[k] == (i, js[k])
    ensures forall v :: v in vs <==> v.0 == i && v.1 in js
  {
    seq(|js|, k requires 0 <= k < |js| => (i, js[k]))
  }

  /** The visits `(i, j)` for each `i` of `amps`. */
  function AlongAmplitudes(amps: seq<int>, j: int): (vs: seq<Visit>)
    ensures |vs| == |amps| && forall k :: 0 <= k < |amps| ==> vs[k] == (amps[k], j)
    ensures forall v :: v in vs <==> v.0 in amps && v.1 == j
  {
    seq(|amps|, k requires 0 <= k < |amps| => (amps[k], j))
  }

  /** The visits of a loop body run for each value of `xs`, in order. */
  function FlatMap(xs: seq<int>, body: int -> seq<Visit>): seq<Visit>
    decreases |xs|
  {
    if |xs| == 0 then [] else body(xs[0]) + FlatMap(xs[1..], body)
  }

  lemma {:induction false} FlatMapMember(xs: seq<int>, body: int -> seq<Visit>, v: Visit)
    ensures v in FlatMap(xs, body) <==> exists k :: 0 <= k < |xs| && v in body(xs[k])
    decreases |xs|
  {
    if |xs| > 0 {
      FlatMapMember(xs[1..], body, v);
      if v in FlatMap(xs[1..], body) {
        var k :| 0 <= k < |xs| - 1 && v in body(xs[1..][k]);
        assert xs[1..][k] == xs[k + 1];
      }
      if exists k :: 0 <= k < |xs| && v in body(xs[k]) {
        var k :| 0 <= k < |xs| && v in body(xs[k]);
        if k > 0 {
          assert xs[k] == xs[1..][k - 1];
        }
      }
    }
  }

  /** Amplitudes `i` and `i + 1`: out along the angles, then back. */
  function RingPair(i: int, maxnangl: int): seq<Visit> {
    AlongAngles(i, Arange(0, maxnangl, 1)) + AlongAngles(i + 1, Arange(maxnangl - 1, -1, -1))
  }

  /** The first loop: `for i in np.arange(0, nampl - 1, 2)`. */
  function Rings(nampl: int, maxnangl: int): seq<Visit> {
    FlatMap(Arange(0, nampl - 1, 2), i => RingPair(i, maxnangl))
  }

  /** Angle `j` inwards over all amplitudes, then angle `next` outwards. */
  function SpokePair(nampl: int, j: int, next: int): seq<Visit> {
    AlongAmplitudes(Arange(nampl - 1, -1, -1), j) + AlongAmplitudes(Arange(0, nampl, 1), next)
  }

  /** The spokes when the number of amplitudes is even. */
  function EvenSpokes(nampl: int, maxnangl: int): seq<Visit> {
    FlatMap(Arange(0, maxnangl - 1, 2), j => SpokePair(nampl, j, j + 1))
    + if maxnangl % 2 != 0 then
        AlongAmplitudes(Arange(nampl - 1, -1, -1), maxnangl - 1) + [(0, maxnangl - 2)]
      else []
  }

  /** The spokes when the number of amplitudes is odd: the last amplitude
      first, then pairs of angles walking down. */
  function OddSpokes(nampl: int, maxnangl: int): seq<Visit> {
    AlongAngles(nampl - 1, Arange(0, maxnangl, 1))
    + FlatMap(Arange(maxnangl - 1, -1, -2), j => SpokePair(nampl, j, j - 1))
  }

  /** Every visit of `get_plottable`, in order. Python's `%` agrees with
      Dafny's here: the divisor is positive. */
  function Trail(nampl: int, maxnangl: int): seq<Visit> {
    Rings(nampl, maxnangl) + if nampl % 2 == 0 then EvenSpokes(nampl, maxnangl) else OddSpokes(nampl, maxnangl)
  }

  /** A visit the lookups can serve: an amplitude index below `nampl`, and an
      angle index below `maxnangl` that is negative only as -1. */
  predicate InGrid(v: Visit, nampl: int, maxnangl: int) {
    0 <= v.0 < nampl && -1 <= v.1 < maxnangl && -maxnangl <= v.1
  }

  // ---------------------------------------------------------------------------
  // Properties of the path
  // ---------------------------------------------------------------------------

  /** A ring pair stays on amplitudes `i` and `i + 1` and angles below `maxnangl`. */
  lemma RingPairVisits(i: int, maxnangl: int)
    ensures forall v :: v in RingPair(i, maxnangl) ==> (v.0 == i || v.0 == i + 1) && 0 <= v.1 < maxnangl
  {
  }

  /** A spoke pair stays on angles `j` and `next` and amplitudes below `nampl`. */
  lemma SpokePairVisits(nampl: int, j: int, next: int)
    ensures forall v :: v in SpokePair(nampl, j, next) ==> 0 <= v.0 < nampl && (v.1 == j || v.1 == next)
  {
  }

  lemma RingsInGrid(nampl: int, maxnangl: int)
    requires maxnangl >= 0
    ensures forall v :: v in Rings(nampl, maxnangl) ==> InGrid(v, nampl, maxnangl)
  {
    var amps := Arange(0, nampl - 1, 2);
    var body := i => RingPair(i, maxnangl);
    forall v | v in Rings(nampl, maxnangl) ensures InGrid(v, nampl, maxnangl) {
      FlatMapMember(amps, body, v);
      var k :| 0 <= k < |amps| && v in body(amps[k]);
      assert amps[k] in amps;
      RingPairVisits(amps[k], maxnangl);
    }
  }

  lemma EvenSpokePairsInGrid(nampl: int, maxnangl: int)
    requires maxnangl >= 0
    ensures forall v :: v in FlatMap(Arange(0, maxnangl - 1, 2), j => SpokePair(nampl, j, j + 1)) ==>
              InGrid(v, nampl, maxnangl)
  {
    var js := Arange(0, maxnangl - 1, 2);
    var body := j => SpokePair(nampl, j, j + 1);
    forall v | v in FlatMap(js, body) ensures InGrid(v, nampl, maxnangl) {
      FlatMapMember(js, body, v);
      var k :| 0 <= k < |js| && v in body(js[k]);
      assert js[k] in js;
      SpokePairVisits(nampl, js[k], js[k] + 1);
    }
  }

  lemma EvenSpokesInGrid(nampl: int, maxnangl: int)
    requires nampl >= 1 && maxnangl >= 0
    ensures forall v :: v in EvenSpokes(nampl, maxnangl) ==> InGrid(v, nampl, maxnangl)
  {
    EvenSpokePairsInGrid(nampl, maxnangl);
  }

  lemma OddSpokePairsInGrid(nampl: int, maxnangl: int)
    requires maxnangl >= 0
    ensures forall v :: v in FlatMap(Arange(maxnangl - 1, -1, -2), j => SpokePair(nampl, j, j - 1)) ==>
              InGrid(v, nampl, maxnangl)
  {
    var js := Arange(maxnangl - 1, -1, -2);
    var body := j => SpokePair(nampl, j, j - 1);
    forall v | v in FlatMap(js, body) ensures InGrid(v, nampl, maxnangl) {
      FlatMapMember(js, body, v);
      var k :| 0 <= k < |js| && v in body(js[k]);
      assert js[k] in js;
      SpokePairVisits(nampl, js[k], js[k] - 1);
    }
  }

  lemma OddSpokesInGrid(nampl: int, maxnangl: int)
    requires nampl >= 1 && maxnangl >= 0
    ensures forall v :: v in OddSpokes(nampl, maxnangl) ==> InGrid(v, nampl, maxnangl)
  {
    OddSpokePairsInGrid(nampl, maxnangl);
  }

  /** With at least one amplitude and no negative angle count, every visit
      is one the lookups can serve: the path never leaves the grid, and it
      steps below angle 0 only to -1. */
  lemma TrailInGrid(nampl: int, maxnangl: int)
    requires nampl >= 1 && maxnangl >= 0
    ensures forall v :: v in Trail(nampl, maxnangl) ==> InGrid(v, nampl, maxnangl)
  {
    RingsInGrid(nampl, maxnangl);
    EvenSpokesInGrid(nampl, maxnangl);
    OddSpokesInGrid(nampl, maxnangl);
  }

  lemma RingPairHas(i0: int, maxnangl: int, i: int, j: int)
    requires (i == i0 || i == i0 + 1) && 0 <= j < maxnangl
    ensures (i, j) in RingPair(i0, maxnangl)
  {
    if i == i0 {
      ArangeIndex(0, maxnangl, 1, j);
      assert (i, j) in AlongAngles(i0, Arange(0, maxnangl, 1));
    } else {
      ArangeIndex(maxnangl - 1, -1, -1, maxnangl - 1 - j);
      assert (i, j) in AlongAngles(i0 + 1, Arange(maxnangl - 1, -1, -1));
    }
  }

  /** The rings pass through every particle but those of the last amplitude
      when the number of amplitudes is odd. */
  lemma RingsCover(nampl: int, maxnangl: int, i: int, j: int)
    requires 0 <= i < nampl && 0 <= j < maxnangl && i - i % 2 < nampl - 1
    ensures (i, j) in Rings(nampl, maxnangl)
  {
    var h := i / 2;
    var amps := Arange(0, nampl - 1, 2);
    ArangeIndex(0, nampl - 1, 2, h);
    RingPairHas(amps[h], maxnangl, i, j);
    FlatMapMember(amps, i => RingPair(i, maxnangl), (i, j));
  }

  /** The path passes through every particle: each amplitude index below
      `nampl` with each angle index below `maxnangl`. */
  lemma TrailCovers(nampl: int, maxnangl: int, i: int, j: int)
    requires 0 <= i < nampl && 0 <= j < maxnangl
    ensures (i, j) in Trail(nampl, maxnangl)
  {
    if i - i % 2 < nampl - 1 {
      RingsCover(nampl, maxnangl, i, j);
    } else {
      assert i == nampl - 1 && nampl % 2 == 1;
      ArangeIndex(0, maxnangl, 1, j);
      assert (i, j) in AlongAngles(nampl - 1, Arange(0, maxnangl, 1));
    }
  }

  // ---------------------------------------------------------------------------
  // get_plottable and get_footprint_lines
  // ---------------------------------------------------------------------------

  /** The points of the visits, in order; the first failing lookup raises. */
  function LookupAll(fp: TuneFootprint, vs: seq<Visit>): (r: Result<seq<TunePoint>>)
    ensures r.Ok? <==> forall k :: 0 <= k < |vs| ==> GetTune(fp, vs[k].0, vs[k].1).Ok?
    ensures r.Ok? ==> |r.value| == |vs| &&
                      forall k :: 0 <= k < |vs| ==> GetTune(fp, vs[k].0, vs[k].1) == Ok(r.value[k])
    ensures r.Err? ==> r.error == IndexError
    decreases |vs|
  {
    if |vs| == 0 then Ok([])
    else
      var p :- GetTune(fp, vs[0].0, vs[0].1);
      var rest :- LookupAll(fp, vs[1..]);
      Ok([p] + rest)
  }

  function Hs(ps: seq<TunePoint>): (hs: seq<string>)
    ensures |hs| == |ps| && forall k :: 0 <= k < |ps| ==> hs[k] == ps[k].h
  {
    seq(|ps|, k requires 0 <= k < |ps| => ps[k].h)
  }

  function Vs(ps: seq<TunePoint>): (vs: seq<string>)
    ensures |vs| == |ps| && forall k :: 0 <= k < |ps| ==> vs[k] == ps[k].v
  {
    seq(|ps|, k requires 0 <= k < |ps| => ps[k].v)
  }

  /** `get_plottable()`: the horizontal and vertical tunes along the path. */
  function GetPlottable(fp: TuneFootprint): (r: Result<(seq<string>, seq<string>)>)
    ensures var t := Trail(fp.nampl, fp.maxnangl);
            r.Ok? ==> |r.value.0| == |t| && |r.value.1| == |t| &&
                      forall k :: 0 <= k < |t| ==>
                        GetHTune(fp, t[k].0, t[k].1) == Ok(r.value.0[k]) &&
                        GetVTune(fp, t[k].0, t[k].1) == Ok(r.value.1[k])
    ensures r.Err? ==> r.error == IndexError
  {
    var ps :- LookupAll(fp, Trail(fp.nampl, fp.maxnangl));
    Ok((Hs(ps), Vs(ps)))
  }

  /** `get_footprint_lines(dynap_dframe)`: write the table as text, parse it
      into tune groups and walk them. */
  function GetFootprintLines(f: DynapFrame): Result<(seq<string>, seq<string>)> {
    var rep :- DynapStringRep(f);
    var groups :- MakeTuneGroups(rep, f.dsigma);
    GetPlottable(TuneFootprint(groups, f.amplitude, f.angle, f.dsigma))
  }

  // ---------------------------------------------------------------------------
  // Which row of the table each plotted point is
  // ---------------------------------------------------------------------------

  /** The table row a visit reads from the groups of a table: row 0 for
      amplitude 0 at any angle; otherwise the amplitude's rows, with angle
      -1 the last of them. */
  function RowOf(f: DynapFrame, v: Visit): int {
    if v.0 == 0 then 0 else Start(f, v.0) + if v.1 < 0 then f.angle + v.1 else v.1
  }

  /** The lookups on the groups of a table read the rows `RowOf` names. */
  lemma GetTuneOfTuneGroups(f: DynapFrame, v: Visit)
    requires |f.rows| >= RowsNeeded(f) && f.amplitude >= 1
    requires InGrid(v, f.amplitude, f.angle)
    ensures 0 <= RowOf(f, v) < |f.rows|
    ensures GetTune(TuneFootprint(TuneGroups(f), f.amplitude, f.angle, f.dsigma), v.0, v.1) == Ok(f.rows[RowOf(f, v)])
  {
    TuneGroupsShape(f);
    if v.0 > 0 {
      var m := if v.1 < 0 then f.angle + v.1 else v.1;
      TuneGroupsSlot(f, v.0, m);
    }
  }

  /** `get_footprint_lines` on a table with every row it reads and at least
      one amplitude: the result exists, both arrays have one entry per visit
      of the path, and entry k holds the tunes of table row `RowOf(path[k])`. */
  lemma GetFootprintLinesOfFrame(f: DynapFrame)
    requires ValidRows(f) && |f.rows| >= RowsNeeded(f)
    requires f.amplitude >= 1 && f.angle >= 0
    ensures GetFootprintLines(f).Ok?
    ensures var t := Trail(f.amplitude, f.angle);
            var lines := GetFootprintLines(f).value;
            |lines.0| == |t| && |lines.1| == |t| &&
            forall k :: 0 <= k < |t| ==>
              (0 <= RowOf(f, t[k]) < |f.rows| &&
               lines.0[k] == f.rows[RowOf(f, t[k])].h && lines.1[k] == f.rows[RowOf(f, t[k])].v)
  {
    MakeTuneGroupsOfDynapStringRep(f, f.dsigma);
    var fp := TuneFootprint(TuneGroups(f), f.amplitude, f.angle, f.dsigma);
    var t := Trail(f.amplitude, f.angle);
    TrailInGrid(f.amplitude, f.angle);
    forall k | 0 <= k < |t|
      ensures 0 <= RowOf(f, t[k]) < |f.rows|
      ensures GetTune(fp, t[k].0, t[k].1) == Ok(f.rows[RowOf(f, t[k])])
    {
      assert t[k] in t;
      GetTuneOfTuneGroups(f, t[k]);
    }
    assert GetFootprintLines(f) == GetPlottable(fp);
  }
}
