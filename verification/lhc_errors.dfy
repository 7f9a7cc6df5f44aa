/** Alignment errors on the LHC IR quadrupoles, pyhdtoolkit/cpymadtools/lhc/_errors.py.

    `misalign_lhc_ir_quadrupoles` validates its arguments before sending
    anything, clears the error selection, selects every pattern of every
    quadrupole for every IP and side, then sends EALIGN and ETABLE and clears
    the selection again. The quadrupole table is looked up and the patterns
    are formatted while the selections are sent, so an unknown quadrupole
    (KeyError) or a beam-specific pattern without a beam (TypeError) stops the
    routine half-way, with the earlier selections already sent.
 */
module LhcErrors {
  import opened Errors
  import opened Text
  import opened ListOperations
  import opened Madx
  import Constants

  /** The highest quadrupole number of the triplets, whose patterns carry no beam. */
  const MaxTripletNumber: int := 3

  /** `LHC_IR_QUADS_PATTERNS`: for each quadrupole number, the text of each
      pattern before its `{side}{ip:d}` placeholders. Quadrupoles above the
      triplets end their patterns with `.B{beam:d}`. */
  const IrQuadPatterns: map<int, seq<string>> := map[
    1 := ["^MQXA.1", "^MQXFA.[AB]1"],
    2 := ["^MQXB.[AB]2", "^MQXB.[AB]2"],
    3 := ["^MQXA.3", "^MQXFA.[AB]3"],
    4 := ["^MQY.4"],
    5 := ["^MQML.5"],
    6 := ["^MQML.6"],
    7 := ["^MQM.[AB]7"],
    8 := ["^MQML.8"],
    9 := ["^MQM.9", "^MQMC.9"],
    10 := ["^MQML.10"]]

  /** Patterns exist for quadrupoles 1 to 10 and no other; each triplet
      quadrupole has two. */
  lemma IrQuadPatternsShape()
    ensures forall q :: q in IrQuadPatterns <==> 1 <= q <= 10
    ensures forall q :: 1 <= q <= MaxTripletNumber ==> |IrQuadPatterns[q]| == 2
  {
    assert IrQuadPatterns.Keys == {1, 2, 3, 4, 5, 6, 7, 8, 9, 10};
  }

  /** `quad_pattern.format(side=side, ip=ip[, beam=beam])` with an integer beam. */
  function PatternText(stem: string, side: string, ip: int, quad: int, beam: int): (p: string)
    ensures quad <= MaxTripletNumber ==> p == stem + side + IntToString(ip)
    ensures quad > MaxTripletNumber ==> p == stem + side + IntToString(ip) + ".B" + IntToString(beam)
  {
    stem + side + IntToString(ip) + (if quad <= MaxTripletNumber then "" else ".B" + IntToString(beam))
  }

  /** The Q4 pattern for the right side of IP1, beam 1. */
  lemma PatternTextExample()
    ensures PatternText(IrQuadPatterns[4][0], "R", 1, 4, 1) == "^MQY.4R1.B1"
  {
    assert IntToString(1) == "1";
  }

  // ---------------------------------------------------------------------------
  // Validation
  // ---------------------------------------------------------------------------

  predicate ValidIps(ips: seq<int>) {
    forall i :: 0 <= i < |ips| ==> ips[i] in Constants.Ips
  }

  /** `beam and beam not in (1, 2, 3, 4)` is false: no beam, beam 0 or 1 to 4. */
  predicate ValidBeam(beam: Option<int>) {
    beam.None? || beam.value == 0 || 1 <= beam.value <= 4
  }

  predicate ValidSides(sides: seq<string>) {
    forall i :: 0 <= i < |sides| ==> Upper(sides[i]) == "R" || Upper(sides[i]) == "L"
  }

  /** The three checks, in order, before anything is sent; on success the
      upper-cased sides. */
  function ValidateMisalignment(ips: seq<int>, beam: Option<int>, sides: seq<string>): (r: Result<seq<string>>)
    ensures r.Ok? <==> ValidIps(ips) && ValidBeam(beam) && ValidSides(sides)
    ensures r.Err? ==> r.error == ValueError
    ensures r.Ok? ==> |r.value| == |sides| &&
                      forall i :: 0 <= i < |sides| ==> r.value[i] == Upper(sides[i]) && (r.value[i] == "R" || r.value[i] == "L")
  {
    if !ValidIps(ips) then Err(ValueError)
    else if !ValidBeam(beam) then Err(ValueError)
    else if !ValidSides(sides) then Err(ValueError)
    else Ok(Map(sides, Upper))
  }

  // ---------------------------------------------------------------------------
  // The selections
  // ---------------------------------------------------------------------------

  /** One iteration of the three nested loops. */
  datatype QuadSite = QuadSite(ip: int, side: string, quad: int)

  /** The sites in loop order: IP outermost, then side, then quadrupole. */
  function Sites(ips: seq<int>, sides: seq<string>, quads: seq<int>): seq<QuadSite> {
    Product(Product(ips, sides, (ip, side) => (ip, side)), quads, (p: (int, string), q) => QuadSite(p.0, p.1, q))
  }

  /** A quadrupole whose selection raises: not in the table (KeyError), or
      beam-specific while no beam is given (TypeError, from formatting None
      as an integer). */
  predicate Fails(quad: int, beam: Option<int>) {
    quad !in IrQuadPatterns || (quad > MaxTripletNumber && beam.None?)
  }

  function QuadError(quad: int): PyError {
    if quad !in IrQuadPatterns then KeyError(IntToString(quad)) else TypeError
  }

  /** The selections of one site that does not fail, one per pattern. */
  function SiteSelects(site: QuadSite, beam: Option<int>): (cs: seq<Command>)
    ensures !Fails(site.quad, beam) ==>
              |cs| == |IrQuadPatterns[site.quad]| &&
              forall k :: 0 <= k < |cs| ==>
                cs[k] == SelectPattern("error", PatternText(IrQuadPatterns[site.quad][k], site.side, site.ip, site.quad,
                                                            if beam.Some? then beam.value else 0))
  {
    if Fails(site.quad, beam) then []
    else
      var b := if beam.Some? then beam.value else 0;
      Map(IrQuadPatterns[site.quad], stem => SelectPattern("error", PatternText(stem, site.side, site.ip, site.quad, b)))
  }

  /** The selections of a run of sites. */
  function SelectsOf(sites: seq<QuadSite>, beam: Option<int>): seq<Command> {
    ListOperations.Flatten(Map(sites, s => SiteSelects(s, beam)))
  }

  /** The position of the first failing site, or the length when none fails. */
  function FirstFailing(sites: seq<QuadSite>, beam: Option<int>): (i: nat)
    ensures i <= |sites|
    ensures forall j :: 0 <= j < i ==> !Fails(sites[j].quad, beam)
    ensures i < |sites| ==> Fails(sites[i].quad, beam)
    decreases |sites|
  {
    if sites == [] then 0
    else if Fails(sites[0].quad, beam) then 0
    else
      var rest := FirstFailing(sites[1..], beam);
      assert forall j :: 1 <= j < |sites| ==> sites[j] == sites[1..][j - 1];
      1 + rest
  }

  /** What the loops send, and the exception that stops them if any. */
  datatype Emission = Emission(cmds: seq<Command>, error: Option<PyError>)

  /** The loops over the sites: each site sends its selections, until one fails. */
  function EmitSelects(sites: seq<QuadSite>, beam: Option<int>): (r: Emission)
    ensures r.error.None? <==> FirstFailing(sites, beam) == |sites|
    ensures r.error.Some? ==> r.error.value == QuadError(sites[FirstFailing(sites, beam)].quad)
    ensures r.cmds == SelectsOf(sites[..FirstFailing(sites, beam)], beam)
    decreases |sites|
  {
    if sites == [] then Emission([], None)
    else if Fails(sites[0].quad, beam) then
      assert sites[..0] == [];
      Emission([], Some(QuadError(sites[0].quad)))
    else
      var rest := EmitSelects(sites[1..], beam);
      var n := FirstFailing(sites[1..], beam);
      assert sites[..n + 1] == [sites[0]] + sites[1..][..n];
      FlattenMapCons(sites[0], sites[1..][..n], beam);
      Emission(SiteSelects(sites[0], beam) + rest.cmds, rest.error)
  }

  lemma FlattenMapCons(s: QuadSite, rest: seq<QuadSite>, beam: Option<int>)
    ensures SelectsOf([s] + rest, beam) == SiteSelects(s, beam) + SelectsOf(rest, beam)
  {
    var parts := Map([s] + rest, x => SiteSelects(x, beam));
    assert parts[1..] == Map(rest, x => SiteSelects(x, beam));
  }

  // ---------------------------------------------------------------------------
  // misalign_lhc_ir_quadrupoles
  // ---------------------------------------------------------------------------

  /** `table if table else "etable"`. */
  function TableName(table: Option<string>): (name: string)
    ensures table.Some? && table.value != "" ==> name == table.value
    ensures table.None? || table.value == "" ==> name == "etable"
  {
    if table.Some? && table.value != "" then table.value else "etable"
  }

  /** `misalign_lhc_ir_quadrupoles(madx, ips, beam, quadrupoles, sides, table,
      **kwargs)`. The keyword arguments of EALIGN are kept as the text MAD-X
      receives. No global variable changes. */
  function MisalignLhcIrQuadrupoles(m: Madx, ips: seq<int>, beam: Option<int>, quads: seq<int>, sides: seq<string>,
                                    table: Option<string>, kwargs: seq<(string, string)>): (r: Outcome<()>)
    ensures r.state.globals == m.globals
    ensures ValidateMisalignment(ips, beam, sides).Err? ==> r == Outcome(m, Err(ValueError))
    ensures ValidateMisalignment(ips, beam, sides).Ok? ==>
              var sites := Sites(ips, ValidateMisalignment(ips, beam, sides).value, quads);
              var first := FirstFailing(sites, beam);
              var selected := m.log + [SelectClear("error")] + SelectsOf(sites[..first], beam);
              (first == |sites| ==>
                 r.result == Ok(()) &&
                 r.state.log == selected + [Ealign(kwargs), Etable(TableName(table)), SelectClear("error")]) &&
              (first < |sites| ==> r.result == Err(QuadError(sites[first].quad)) && r.state.log == selected)
  {
    match ValidateMisalignment(ips, beam, sides)
    case Err(e) => Outcome(m, Err(e))
    case Ok(upper) =>
      var e := EmitSelects(Sites(ips, upper, quads), beam);
      var selected := m.log + [SelectClear("error")] + e.cmds;
      if e.error.Some? then Outcome(Madx(m.globals, selected), Err(e.error.value))
      else Outcome(Madx(m.globals, selected + [Ealign(kwargs), Etable(TableName(table)), SelectClear("error")]), Ok(()))
  }

  /** With at least one IP and one side, the first sites are those of the
      first IP and side, one per quadrupole in order. */
  lemma {:induction false} SiteAt(ips: seq<int>, sides: seq<string>, quads: seq<int>, j: nat)
    requires |ips| > 0 && |sides| > 0 && j < |quads|
    ensures j < |Sites(ips, sides, quads)| && Sites(ips, sides, quads)[j] == QuadSite(ips[0], sides[0], quads[j])
  {
    var pair := (ip: int, side: string) => (ip, side);
    var site := (p: (int, string), q: int) => QuadSite(p.0, p.1, q);
    ProductAt(ips, sides, pair, 0, 0);
    ProductAt(Product(ips, sides, pair), quads, site, 0, j);
  }

  /** Every site is for one of the quadrupoles. */
  lemma {:induction false} SiteQuad(ips: seq<int>, sides: seq<string>, quads: seq<int>, k: nat)
    requires k < |Sites(ips, sides, quads)|
    ensures Sites(ips, sides, quads)[k].quad in quads
  {
    var pair := (ip: int, side: string) => (ip, side);
    var site := (p: (int, string), q: int) => QuadSite(p.0, p.1, q);
    ProductMember(Product(ips, sides, pair), quads, site, k);
  }

  /** The sites are |ips| * |sides| * |quads| in number. */
  lemma SitesCount(ips: seq<int>, sides: seq<string>, quads: seq<int>)
    ensures |Sites(ips, sides, quads)| == |ips| * |sides| * |quads|
  {
    var pair := (ip: int, side: string) => (ip, side);
    RowStartIsProduct(|ips|, |sides|);
    RowStartIsProduct(|Product(ips, sides, pair)|, |quads|);
  }

  /** After validation, the routine raises exactly when there is an IP, a
      side and a failing quadrupole; the exception is the one of the first
      failing quadrupole in `quadrupoles`. */
  lemma {:induction false} MisalignLhcIrQuadrupolesFails(m: Madx, ips: seq<int>, beam: Option<int>, quads: seq<int>,
                                                         sides: seq<string>, table: Option<string>, kwargs: seq<(string, string)>)
    requires ValidateMisalignment(ips, beam, sides).Ok?
    ensures var r := MisalignLhcIrQuadrupoles(m, ips, beam, quads, sides, table, kwargs);
            r.result.Err? <==> |ips| > 0 && |sides| > 0 && exists j :: 0 <= j < |quads| && Fails(quads[j], beam)
    ensures var r := MisalignLhcIrQuadrupoles(m, ips, beam, quads, sides, table, kwargs);
            r.result.Err? ==> exists j :: 0 <= j < |quads| && Fails(quads[j], beam) && r.result.error == QuadError(quads[j]) &&
                                          forall i :: 0 <= i < j ==> !Fails(quads[i], beam)
  {
    var upper := ValidateMisalignment(ips, beam, sides).value;
    var sites := Sites(ips, upper, quads);
    var first := FirstFailing(sites, beam);
    var r := MisalignLhcIrQuadrupoles(m, ips, beam, quads, sides, table, kwargs);
    if first < |sites| {
      SiteQuad(ips, upper, quads, first);
      var jq :| 0 <= jq < |quads| && quads[jq] == sites[first].quad;
      assert |ips| > 0 && |upper| > 0 by {
        SitesCount(ips, upper, quads);
      }
      var j := FirstFailingQuad(quads, beam);
      SiteAt(ips, upper, quads, j);
      assert first <= j;
      if first < j {
        assert false;
      }
      assert r.result.error == QuadError(quads[j]);
    } else {
      if |ips| > 0 && |sides| > 0 && exists j :: 0 <= j < |quads| && Fails(quads[j], beam) {
        var j :| 0 <= j < |quads| && Fails(quads[j], beam);
        SiteAt(ips, upper, quads, j);
        assert false;
      }
    }
  }

  /** The position of the first failing quadrupole, when one fails. */
  function FirstFailingQuad(quads: seq<int>, beam: Option<int>): (j: nat)
    requires exists j :: 0 <= j < |quads| && Fails(quads[j], beam)
    ensures j < |quads| && Fails(quads[j], beam)
    ensures forall i :: 0 <= i < j ==> !Fails(quads[i], beam)
    decreases |quads|
  {
    if Fails(quads[0], beam) then 0
    else
      var j' :| 0 <= j' < |quads| && Fails(quads[j'], beam);
      assert quads[1..][j' - 1] == quads[j'];
      var rest := FirstFailingQuad(quads[1..], beam);
      assert forall i :: 1 <= i < |quads| ==> quads[i] == quads[1..][i - 1];
      1 + rest
  }

  // ---------------------------------------------------------------------------
  // misalign_lhc_triplets
  // ---------------------------------------------------------------------------

  /** The table `misalign_lhc_triplets` writes to by default. */
  const TripletTable: string := "triplet_errors"

  /** The keywords `misalign_lhc_triplets` passes on by name itself; a
      `**kwargs` key among them makes the inner call a TypeError ("got
      multiple values for keyword argument"). `sides` and `table` cannot be
      in `**kwargs`, being parameters of the outer function. */
  const TripletFixedKeywords: set<string> := {"ips", "beam", "quadrupoles"}

  predicate TripletKeywordClash(kwargs: seq<(string, string)>) {
    exists i :: 0 <= i < |kwargs| && kwargs[i].0 in TripletFixedKeywords
  }

  /** `misalign_lhc_triplets(madx, ip, sides, table, **kwargs)`: the IR
      quadrupole routine for one IP, no beam and quadrupoles 1 to 3. A
      keyword clash fails at the call, before anything is validated or sent. */
  function MisalignLhcTriplets(m: Madx, ip: int, sides: seq<string>, table: Option<string>, kwargs: seq<(string, string)>)
    : (r: Outcome<()>)
    ensures r.state.globals == m.globals
    ensures r.result.Ok? <==> !TripletKeywordClash(kwargs) && ip in Constants.Ips && ValidSides(sides)
    ensures TripletKeywordClash(kwargs) ==> r == Outcome(m, Err(TypeError))
    ensures !TripletKeywordClash(kwargs) && r.result.Err? ==> r.result.error == ValueError && r.state == m
    ensures r.result.Ok? ==> |r.state.log| == |m.log| + 4 + 6 * |sides| &&
                             r.state.log[|r.state.log| - 3..] == [Ealign(kwargs), Etable(TableName(table)), SelectClear("error")]
  {
    if TripletKeywordClash(kwargs) then Outcome(m, Err(TypeError))
    else
      var r := MisalignLhcIrQuadrupoles(m, [ip], None, [1, 2, 3], sides, table, kwargs);
      TripletsNeverFail(m, ip, sides, table, kwargs);
      r
  }

  /** The call `misalign_lhc_triplets(madx, ip=1, beam=1,
      dx="1E-5")` raises TypeError and sends nothing. */
  lemma MisalignLhcTripletsBeamKeyword(m: Madx)
    ensures MisalignLhcTriplets(m, 1, ["r", "l"], Some(TripletTable), [("beam", "1"), ("dx", "1E-5")])
            == Outcome(m, Err(TypeError))
  {
    assert [("beam", "1"), ("dx", "1E-5")][0].0 in TripletFixedKeywords;
  }

  /** With the default table and both default sides, the errors of a valid IP
      are written to the table "triplet_errors". */
  lemma MisalignLhcTripletsDefaultTable(m: Madx, ip: int, kwargs: seq<(string, string)>)
    requires ip in Constants.Ips && !TripletKeywordClash(kwargs)
    ensures var r := MisalignLhcTriplets(m, ip, ["r", "l"], Some(TripletTable), kwargs);
            r.result.Ok? && r.state.log[|r.state.log| - 2] == Etable("triplet_errors")
  {
    var r := MisalignLhcTriplets(m, ip, ["r", "l"], Some(TripletTable), kwargs);
    assert ValidSides(["r", "l"]);
    assert r.state.log[|r.state.log| - 3..][1] == r.state.log[|r.state.log| - 2];
  }

  lemma TripletsNeverFail(m: Madx, ip: int, sides: seq<string>, table: Option<string>, kwargs: seq<(string, string)>)
    ensures var r := MisalignLhcIrQuadrupoles(m, [ip], None, [1, 2, 3], sides, table, kwargs);
            (r.result.Ok? <==> ip in Constants.Ips && ValidSides(sides)) &&
            (r.result.Err? ==> r.result.error == ValueError && r.state == m) &&
            (r.result.Ok? ==> |r.state.log| == |m.log| + 4 + 6 * |sides|)
  {
    var quads := [1, 2, 3];
    assert ValidIps([ip]) <==> ip in Constants.Ips;
    if ip in Constants.Ips && ValidSides(sides) {
      var upper := ValidateMisalignment([ip], None, sides).value;
      var sites := Sites([ip], upper, quads);
      IrQuadPatternsShape();
      forall k | 0 <= k < |sites| ensures !Fails(sites[k].quad, None) && |SiteSelects(sites[k], None)| == 2 {
        SiteQuad([ip], upper, quads, k);
      }
      MisalignLhcIrQuadrupolesFails(m, [ip], None, quads, sides, table, kwargs);
      assert FirstFailing(sites, None) == |sites|;
      assert sites[..|sites|] == sites;
      SelectsOfCount(sites, None, 2);
      SitesCount([ip], upper, quads);
    }
  }

  /** Sites that send `n` selections each send `n` per site in all. */
  lemma {:induction false} SelectsOfCount(sites: seq<QuadSite>, beam: Option<int>, n: nat)
    requires forall k :: 0 <= k < |sites| ==> |SiteSelects(sites[k], beam)| == n
    ensures |SelectsOf(sites, beam)| == n * |sites|
    decreases |sites|
  {
    if sites != [] {
      assert sites == [sites[0]] + sites[1..];
      FlattenMapCons(sites[0], sites[1..], beam);
      SelectsOfCount(sites[1..], beam, n);
      assert n * |sites| == n * |sites[1..]| + n;
    } else {
      assert Map(sites, s => SiteSelects(s, beam)) == [];
    }
  }
}
