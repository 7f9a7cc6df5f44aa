/** The magnet and knob powering routines of
    pyhdtoolkit/cpymadtools/lhc/_powering.py.

    Each routine reads and writes MAD-X globals. A routine that raises before
    writing anything returns `Err`, which leaves the caller's globals as they
    were; a routine that completes returns the new globals. Factors written as
    `1e-4` or `0.005` in the source are exact reals here.
 */
module Powering {
  import opened Errors
  import opened Text
  import opened ListOperations
  import opened Madx
  import Constants

  /** LHC beam 4 is beam 2 seen in the other direction. */
  const Beam4: int := 4
  /** Q7 has a ".b" in its power circuit name. */
  const QuadCircuitHasB: int := 7
  /** From Q11 on the independent quadrupoles are trims ("kqt"). */
  const MaxIrQuadNumber: int := 11

  /** `ir is not None and ir in (1, 2, 5, 8)`. */
  predicate ValidIr(ir: Option<int>) {
    ir.Some? && ir.value in Constants.Ips
  }

  /** `2 if beam == 4 else beam`. */
  function OpticsBeam(beam: int): (b: int)
    ensures beam == Beam4 ==> b == 2
    ensures beam != Beam4 ==> b == beam
  {
    if beam == Beam4 then 2 else beam
  }

  // ---------------------------------------------------------------------------
  // Colinearity knob
  // ---------------------------------------------------------------------------

  /** The MQSX coupling correctors right and left of the IP. */
  function ColinearityRight(ir: int): string {
    "KQSX3.R" + IntToString(ir)
  }

  function ColinearityLeft(ir: int): string {
    "KQSX3.L" + IntToString(ir)
  }

  /** The two correctors are different MAD-X variables. */
  lemma ColinearityKeysDistinct(ir: int)
    ensures Lower(ColinearityRight(ir)) != Lower(ColinearityLeft(ir))
  {
    assert Lower(ColinearityRight(ir))[6] == 'r';
    assert Lower(ColinearityLeft(ir))[6] == 'l';
  }

  /** `apply_lhc_colinearity_knob`: the right corrector gets `+value * 1e-4`,
      the left one `-value * 1e-4`; nothing else is touched. */
  function ApplyColinearityKnob(g: Globals, value: real, ir: Option<int>): (r: Result<Globals>)
    ensures r.Err? <==> !ValidIr(ir)
    ensures r.Err? ==> r.error == ValueError
    ensures r.Ok? ==> Holds(r.value, ColinearityRight(ir.value), value / 10000.0)
    ensures r.Ok? ==> Holds(r.value, ColinearityLeft(ir.value), -value / 10000.0)
    ensures r.Ok? ==> SameOutside(g, r.value, {Lower(ColinearityRight(ir.value)), Lower(ColinearityLeft(ir.value))})
  {
    if !ValidIr(ir) then Err(ValueError)
    else
      var right, left := ColinearityRight(ir.value), ColinearityLeft(ir.value);
      ColinearityKeysDistinct(ir.value);
      Ok(Set(Set(g, right, value * 0.0001), left, -1.0 * value * 0.0001))
  }

  /** `apply_lhc_colinearity_knob_delta`: both correctors move by
      `delta * 1e-4` from their current values (0 when undefined), the right
      one up and the left one down. */
  function ApplyColinearityKnobDelta(g: Globals, delta: real, ir: Option<int>): (r: Result<Globals>)
    ensures r.Err? <==> !ValidIr(ir)
    ensures r.Err? ==> r.error == ValueError
    ensures r.Ok? ==> Holds(r.value, ColinearityRight(ir.value), Eval(g, ColinearityRight(ir.value)) + delta / 10000.0)
    ensures r.Ok? ==> Holds(r.value, ColinearityLeft(ir.value), Eval(g, ColinearityLeft(ir.value)) - delta / 10000.0)
    ensures r.Ok? ==> SameOutside(g, r.value, {Lower(ColinearityRight(ir.value)), Lower(ColinearityLeft(ir.value))})
  {
    if !ValidIr(ir) then Err(ValueError)
    else
      var right, left := ColinearityRight(ir.value), ColinearityLeft(ir.value);
      var currentRight, currentLeft := Eval(g, right), Eval(g, left);
      ColinearityKeysDistinct(ir.value);
      Ok(Set(Set(g, right, currentRight + delta * 0.0001), left, currentLeft - delta * 0.0001))
  }

  /** Two deltas add up: applying `d1` then `d2` is applying `d1 + d2`, so
      applying `d` twice shifts by `2 d`. */
  lemma ColinearityDeltasAdd(g: Globals, d1: real, d2: real, ir: Option<int>)
    requires ValidIr(ir)
    ensures ApplyColinearityKnobDelta(ApplyColinearityKnobDelta(g, d1, ir).value, d2, ir)
         == ApplyColinearityKnobDelta(g, d1 + d2, ir)
  {
    var once := ApplyColinearityKnobDelta(g, d1, ir).value;
    var twice := ApplyColinearityKnobDelta(once, d2, ir).value;
    var both := ApplyColinearityKnobDelta(g, d1 + d2, ir).value;
    var keys := {Lower(ColinearityRight(ir.value)), Lower(ColinearityLeft(ir.value))};
    assert forall k :: k in keys ==> k in twice && k in both && twice[k] == both[k];
    assert twice == both;
  }

  /** On correctors not yet defined, a delta is the absolute knob. */
  lemma ColinearityDeltaFromScratch(g: Globals, d: real, ir: Option<int>)
    requires ValidIr(ir)
    requires Lower(ColinearityRight(ir.value)) !in g && Lower(ColinearityLeft(ir.value)) !in g
    ensures ApplyColinearityKnobDelta(g, d, ir) == ApplyColinearityKnob(g, d, ir)
  {
    var a := ApplyColinearityKnobDelta(g, d, ir).value;
    var b := ApplyColinearityKnob(g, d, ir).value;
    var keys := {Lower(ColinearityRight(ir.value)), Lower(ColinearityLeft(ir.value))};
    assert forall k :: k in keys ==> k in a && k in b && a[k] == b[k];
    assert a == b;
  }

  // ---------------------------------------------------------------------------
  // Rigidity waist shift knob
  // ---------------------------------------------------------------------------

  /** The triplet knobs right and left of the IP. */
  function TripletRight(ir: int): string {
    "kqx.r" + IntToString(ir)
  }

  function TripletLeft(ir: int): string {
    "kqx.l" + IntToString(ir)
  }

  lemma TripletKeysDistinct(ir: int)
    ensures Lower(TripletRight(ir)) != Lower(TripletLeft(ir))
  {
    assert Lower(TripletRight(ir))[4] == 'r';
    assert Lower(TripletLeft(ir))[4] == 'l';
  }

  /** Both triplet knobs scaled in opposition: the right one by `1 - scale`,
      the left one by `1 + scale`. */
  function ScaleTriplets(g: Globals, ir: int, scale: real, right: real, left: real): (r: Globals)
    ensures Holds(r, TripletRight(ir), (1.0 - scale) * right)
    ensures Holds(r, TripletLeft(ir), (1.0 + scale) * left)
    ensures SameOutside(g, r, {Lower(TripletRight(ir)), Lower(TripletLeft(ir))})
  {
    TripletKeysDistinct(ir);
    Set(Set(g, TripletRight(ir), (1.0 - scale) * right), TripletLeft(ir), (1.0 + scale) * left)
  }

  /** `apply_lhc_rigidity_waist_shift_knob`: the ir is checked first, then
      both knobs are read (a KeyError when undefined), then the side is checked
      case-insensitively; only then are both knobs scaled. Moving the waist
      left lowers the right knob by `value * 0.005` of itself and raises the
      left one by as much; moving it right does the opposite. */
  function ApplyRigidityWaistShift(g: Globals, value: real, ir: Option<int>, side: string): (r: Result<Globals>)
    ensures !ValidIr(ir) ==> r == Err(ValueError)
    ensures ValidIr(ir) ==>
              var right, left := TripletRight(ir.value), TripletLeft(ir.value);
              if Lower(right) !in g then r == Err(KeyError(right))
              else if Lower(left) !in g then r == Err(KeyError(left))
              else if Lower(side) == "left" then r == Ok(ScaleTriplets(g, ir.value, value * 0.005, g[Lower(right)], g[Lower(left)]))
              else if Lower(side) == "right" then r == Ok(ScaleTriplets(g, ir.value, -value * 0.005, g[Lower(right)], g[Lower(left)]))
              else r == Err(ValueError)
  {
    if !ValidIr(ir) then Err(ValueError)
    else
      var currentRight :- Get(g, TripletRight(ir.value));
      var currentLeft :- Get(g, TripletLeft(ir.value));
      var lowered := Lower(side);
      if lowered == "left" then Ok(ScaleTriplets(g, ir.value, value * 0.005, currentRight, currentLeft))
      else if lowered == "right" then Ok(ScaleTriplets(g, ir.value, -value * 0.005, currentRight, currentLeft))
      else Err(ValueError)
  }

  lemma SideNames()
    ensures Lower("left") == "left" && Lower("right") == "right"
    ensures Lower("LEFT") == "left" && Lower("Right") == "right"
  {
  }

  /** Shifting the waist left by `v` is shifting it right by `-v`. */
  lemma WaistShiftSidesMirror(g: Globals, value: real, ir: Option<int>)
    ensures ApplyRigidityWaistShift(g, value, ir, "left") == ApplyRigidityWaistShift(g, -value, ir, "right")
  {
    SideNames();
    assert value * 0.005 == -(-value) * 0.005;
  }

  /** The side is case-insensitive. */
  lemma WaistShiftSideCase(g: Globals, value: real, ir: Option<int>)
    ensures ApplyRigidityWaistShift(g, value, ir, "LEFT") == ApplyRigidityWaistShift(g, value, ir, "left")
    ensures ApplyRigidityWaistShift(g, value, ir, "Right") == ApplyRigidityWaistShift(g, value, ir, "right")
  {
    SideNames();
  }

  // ---------------------------------------------------------------------------
  // Coupling knob
  // ---------------------------------------------------------------------------

  /** `f"CMRS.b{beam:d}{suffix}"`, with suffix "_sq" for the telescopic squeeze. */
  function CouplingKnobName(beam: int, telescopicSqueeze: bool): string {
    "CMRS.b" + IntToString(beam) + (if telescopicSqueeze then "_sq" else "")
  }

  /** `apply_lhc_coupling_knob`: the knob is read (for a log message) before it
      is written, so a knob the optics never defined raises KeyError. */
  function ApplyCouplingKnob(g: Globals, value: real, beam: int, telescopicSqueeze: bool): (r: Result<Globals>)
    ensures r.Ok? <==> Lower(CouplingKnobName(beam, telescopicSqueeze)) in g
    ensures r.Err? ==> r.error == KeyError(CouplingKnobName(beam, telescopicSqueeze))
    ensures r.Ok? ==> Holds(r.value, CouplingKnobName(beam, telescopicSqueeze), value)
    ensures r.Ok? ==> SameOutside(g, r.value, {Lower(CouplingKnobName(beam, telescopicSqueeze))})
    ensures r.Ok? ==> r.value.Keys == g.Keys
  {
    var name := CouplingKnobName(beam, telescopicSqueeze);
    var _ :- Get(g, name);
    Ok(Set(g, name, value))
  }

  /** The squeeze and non-squeeze knobs of a beam are different variables. */
  lemma CouplingKnobNamesDistinct(beam: int)
    ensures Lower(CouplingKnobName(beam, true)) != Lower(CouplingKnobName(beam, false))
  {
    assert |CouplingKnobName(beam, true)| == |CouplingKnobName(beam, false)| + 3;
  }

  // ---------------------------------------------------------------------------
  // Colinearity knob carry-over
  // ---------------------------------------------------------------------------

  function CarryLeft(ir: int): string {
    "kqsx3.l" + IntToString(ir)
  }

  function CarryRight(ir: int): string {
    "kqsx3.r" + IntToString(ir)
  }

  /** The carry-over works on the correctors of the colinearity knob, named in
      lower case here; MAD-X does not tell them apart. */
  lemma CarryKeysAreColinearityKeys(ir: int)
    ensures Lower(CarryLeft(ir)) == Lower(ColinearityLeft(ir))
    ensures Lower(CarryRight(ir)) == Lower(ColinearityRight(ir))
    ensures Lower(CarryLeft(ir)) != Lower(CarryRight(ir))
  {
    LowerConcat("kqsx3.l", IntToString(ir));
    LowerConcat("KQSX3.L", IntToString(ir));
    LowerConcat("kqsx3.r", IntToString(ir));
    LowerConcat("KQSX3.R", IntToString(ir));
    assert Lower("kqsx3.l") == "kqsx3.l" == Lower("KQSX3.L");
    assert Lower("kqsx3.r") == "kqsx3.r" == Lower("KQSX3.R");
    ColinearityKeysDistinct(ir);
  }

  /** `carry_colinearity_knob_over`: both correctors are read (left first; a
      KeyError when undefined), then their sum goes to the chosen side and the
      other side is zeroed. The ir is not checked. */
  function CarryColinearityKnobOver(g: Globals, ir: int, toLeft: bool): (r: Result<Globals>)
    ensures r.Ok? <==> Lower(CarryLeft(ir)) in g && Lower(CarryRight(ir)) in g
    ensures Lower(CarryLeft(ir)) !in g ==> r == Err(KeyError(CarryLeft(ir)))
    ensures Lower(CarryLeft(ir)) in g && Lower(CarryRight(ir)) !in g ==> r == Err(KeyError(CarryRight(ir)))
    ensures r.Ok? ==>
              var l, rt := Lower(CarryLeft(ir)), Lower(CarryRight(ir));
              l in r.value && rt in r.value &&
              r.value[l] + r.value[rt] == g[l] + g[rt] &&
              (if toLeft then r.value[rt] == 0.0 else r.value[l] == 0.0) &&
              SameOutside(g, r.value, {l, rt})
  {
    var left, right := CarryLeft(ir), CarryRight(ir);
    var leftPowering :- Get(g, left);
    var rightPowering :- Get(g, right);
    var newLeft := if toLeft then leftPowering + rightPowering else 0.0;
    var newRight := if toLeft then 0.0 else leftPowering + rightPowering;
    CarryKeysAreColinearityKeys(ir);
    Ok(Set(Set(g, left, newLeft), right, newRight))
  }

  /** Carrying over twice to the same side changes nothing more. */
  lemma CarryOverIdempotent(g: Globals, ir: int, toLeft: bool)
    requires CarryColinearityKnobOver(g, ir, toLeft).Ok?
    ensures CarryColinearityKnobOver(CarryColinearityKnobOver(g, ir, toLeft).value, ir, toLeft)
         == CarryColinearityKnobOver(g, ir, toLeft)
  {
    var once := CarryColinearityKnobOver(g, ir, toLeft).value;
    var twice := CarryColinearityKnobOver(once, ir, toLeft).value;
    var keys := {Lower(CarryLeft(ir)), Lower(CarryRight(ir))};
    CarryKeysAreColinearityKeys(ir);
    assert forall k :: k in keys ==> k in twice && k in once && twice[k] == once[k];
    assert twice == once;
  }

  /** The absolute colinearity knob powers the two sides in opposition, so
      carrying it over leaves both correctors at zero. */
  lemma CarryOverCancelsColinearityKnob(g: Globals, value: real, ir: int, toLeft: bool)
    requires ValidIr(Some(ir))
    ensures var knobbed := ApplyColinearityKnob(g, value, Some(ir)).value;
            var carried := CarryColinearityKnobOver(knobbed, ir, toLeft);
            carried.Ok? && Holds(carried.value, CarryLeft(ir), 0.0) && Holds(carried.value, CarryRight(ir), 0.0)
  {
    CarryKeysAreColinearityKeys(ir);
    LowerConcat("kqsx3.l", IntToString(ir));
    LowerConcat("kqsx3.r", IntToString(ir));
  }

  // ---------------------------------------------------------------------------
  // LHC arcs
  // ---------------------------------------------------------------------------

  /** The arc leaving IP `sector` towards the next IP, for one beam. */
  function LhcArc(beam: int, sector: int): string {
    "A" + Constants.SectorPair(sector) + "B" + IntToString(beam)
  }

  /** `_all_lhc_arcs(beam)`: the eight arcs of the beam, in sector order. */
  function AllLhcArcs(beam: int): (arcs: seq<string>)
    ensures |arcs| == 8
  {
    seq(8, i requires 0 <= i < 8 => LhcArc(beam, i + 1))
  }

  /** Arc `i` (from 0) is `f"A{i+1}{(i+1)%8+1}B{beam:d}"`: after A78 comes A81. */
  lemma AllLhcArcsFormula(beam: int, i: nat)
    requires i < 8
    ensures AllLhcArcs(beam)[i] == "A" + IntToString(i + 1) + IntToString((i + 1) % 8 + 1) + "B" + IntToString(beam)
  {
    var x, y := IntToString(i + 1), IntToString((i + 1) % 8 + 1);
    assert Constants.SectorPair(i + 1) == x + y;
    assert "A" + (x + y) == "A" + x + y;
  }

  lemma LowerLiterals()
    ensures Lower("A") == "a" && Lower("B") == "b" && Lower(".") == "."
    ensures Lower("KO") == "ko" && Lower("KS") == "ks"
    ensures Lower("F") == "f" && Lower("D") == "d"
  {
  }

  /** MAD-X sees the arc name in lower case: the suffix of the arc corrector
      knob names. */
  lemma LowerLhcArc(beam: int, sector: int)
    ensures Lower(LhcArc(beam, sector)) == Constants.ArcSuffix(beam, sector)
  {
    var pair := Constants.SectorPair(sector);
    var next := if sector < Constants.MaxSectorValue then sector + 1 else 1;
    LowerConcat("A" + pair + "B", IntToString(beam));
    LowerConcat("A" + pair, "B");
    LowerConcat("A", pair);
    LowerConcat(IntToString(sector), IntToString(next));
    CaseOfIntToString(beam);
    CaseOfIntToString(sector);
    CaseOfIntToString(next);
    LowerLiterals();
  }

  // ---------------------------------------------------------------------------
  // Landau octupoles
  // ---------------------------------------------------------------------------

  predicate Defined(g: Globals, name: string) {
    Lower(name) in g
  }

  /** `madx.globals.nrj * 1e9 / madx.globals.clight`, where a missing `nrj` or
      `clight` is re-raised as an AttributeError about NRJ. */
  function MagneticRigidity(g: Globals): (r: Result<real>)
    ensures !Defined(g, "nrj") || !Defined(g, "clight") ==> r == Err(AttributeError("NRJ"))
    ensures Defined(g, "nrj") && Defined(g, "clight") ==>
              (r.Ok? <==> g[Lower("clight")] != 0.0) &&
              (r.Err? ==> r.error == ZeroDivisionError) &&
              (r.Ok? ==> r.value * g[Lower("clight")] == g[Lower("nrj")] * 1000000000.0)
  {
    if !Defined(g, "nrj") || !Defined(g, "clight") then Err(AttributeError("NRJ"))
    else
      var nrj, clight := g[Lower("nrj")], g[Lower("clight")];
      if clight == 0.0 then Err(ZeroDivisionError) else Ok(nrj * 1000000000.0 / clight)
  }

  /** `mo_current / Imax_MO * Kmax_MO / brho`, evaluated left to right: each
      missing variable and each zero divisor raises where Python reaches it. */
  function OctupoleStrength(g: Globals, moCurrent: real): (r: Result<real>)
    ensures MagneticRigidity(g).Err? ==> r == Err(MagneticRigidity(g).error)
    ensures MagneticRigidity(g).Ok? ==>
              var brho := MagneticRigidity(g).value;
              if !Defined(g, "Imax_MO") then r == Err(AttributeError("Imax_MO"))
              else if g[Lower("Imax_MO")] == 0.0 then r == Err(ZeroDivisionError)
              else if !Defined(g, "Kmax_MO") then r == Err(AttributeError("Kmax_MO"))
              else if brho == 0.0 then r == Err(ZeroDivisionError)
              else r.Ok? && r.value * g[Lower("Imax_MO")] * brho == moCurrent * g[Lower("Kmax_MO")]
  {
    var brho :- MagneticRigidity(g);
    var imax :- Attr(g, "Imax_MO");
    var _ :- Need(imax != 0.0, ZeroDivisionError);
    var kmax :- Attr(g, "Kmax_MO");
    var _ :- Need(brho != 0.0, ZeroDivisionError);
    Ok(moCurrent / imax * kmax / brho)
  }

  /** `f"KO{fd}.{arc}"`. */
  function OctupoleName(arc: string, fd: char): string {
    "KO" + [fd] + "." + arc
  }

  /** The loops of `power_landau_octupoles`: arcs outer, "F" then "D" inner,
      so name `n` is family `n % 2` of arc `n / 2`. */
  function OctupoleNames(beam: int): (names: seq<string>)
    ensures |names| == 16
  {
    seq(16, n requires 0 <= n < 16 => OctupoleName(AllLhcArcs(beam)[n / 2], "FD"[n % 2]))
  }

  /** The octupole knobs of one beam, as named in the constants module. */
  function OctupoleKeys(beam: int): set<string> {
    set f, s | f in Constants.Families && s in Constants.Sectors :: Constants.KoName(beam, f, s)
  }

  /** The two spellings of one octupole name agree. */
  lemma LowerOctupoleName(beam: int, sector: int, fd: nat)
    requires fd < 2
    ensures Lower(OctupoleName(LhcArc(beam, sector), "FD"[fd])) == Constants.KoName(beam, Constants.Families[fd], sector)
  {
    var arc := LhcArc(beam, sector);
    LowerConcat("KO" + ["FD"[fd]] + ".", arc);
    LowerConcat("KO" + ["FD"[fd]], ".");
    LowerConcat("KO", ["FD"[fd]]);
    LowerLhcArc(beam, sector);
    LowerLiterals();
    assert ["FD"[fd]] == if fd == 0 then "F" else "D";
  }

  lemma OctupoleNameIsKoKnob(beam: int, n: nat)
    requires n < |OctupoleNames(beam)|
    ensures Lower(OctupoleNames(beam)[n]) in OctupoleKeys(beam)
  {
    LowerOctupoleName(beam, n / 2 + 1, n % 2);
    assert Constants.Sectors[n / 2] == n / 2 + 1;
  }

  lemma KoKnobIsOctupoleName(beam: int, f: string, s: int)
    requires f in Constants.Families && s in Constants.Sectors
    ensures Constants.KoName(beam, f, s) in Keys(OctupoleNames(beam))
  {
    var d := if f == "f" then 0 else 1;
    var n := 2 * (s - 1) + d;
    assert n / 2 == s - 1 && n % 2 == d;
    assert OctupoleNames(beam)[n] == OctupoleName(LhcArc(beam, s), "FD"[d]);
    LowerOctupoleName(beam, s, d);
  }

  /** The names written are exactly the octupole knobs of the beam. */
  lemma OctupoleNamesAreKoKnobs(beam: int)
    ensures Keys(OctupoleNames(beam)) == OctupoleKeys(beam)
  {
    forall n | 0 <= n < |OctupoleNames(beam)| ensures Lower(OctupoleNames(beam)[n]) in OctupoleKeys(beam) {
      OctupoleNameIsKoKnob(beam, n);
    }
    forall f, s | f in Constants.Families && s in Constants.Sectors
      ensures Constants.KoName(beam, f, s) in Keys(OctupoleNames(beam))
    {
      KoKnobIsOctupoleName(beam, f, s);
    }
  }

  /** The knob of the defective octupole group: D family, arc 56, beam 1. */
  lemma DefectiveOctupoleKnob()
    ensures Constants.KoName(1, "d", 5) == Lower("KOD.A56B1")
  {
    Constants.SectorPairDigits(5);
    Constants.OneDigit(1);
  }

  /** `power_landau_octupoles`: the strength is computed first (any error there
      leaves everything as it was), then every octupole of the beam (beam 4
      being beam 2) gets it; with a defective arc on beam 1, KOD.A56B1 then
      gets `4.65 / 6` of it. Nothing else changes. */
  function PowerLandauOctupoles(g: Globals, beam: int, moCurrent: real, defectiveArc: bool): (r: Result<Globals>)
    ensures r.Ok? <==> OctupoleStrength(g, moCurrent).Ok?
    ensures r.Err? ==> r.error == OctupoleStrength(g, moCurrent).error
    ensures r.Ok? ==> SameOutside(g, r.value, OctupoleKeys(OpticsBeam(beam)))
  {
    var strength :- OctupoleStrength(g, moCurrent);
    var b := OpticsBeam(beam);
    var powered := SetAll(g, Assign(OctupoleNames(b), strength));
    AssignAll(g, OctupoleNames(b), strength);
    OctupoleNamesAreKoKnobs(b);
    if defectiveArc && b == 1 then
      DefectiveOctupoleKnob();
      Ok(Set(powered, "KOD.A56B1", strength * 4.65 / 6.0))
    else Ok(powered)
  }

  /** Every octupole knob of the beam holds the common strength, except the
      one KOD.A56B1 names, which holds `4.65 / 6` of it for a defective arc on
      beam 1. */
  lemma OctupolesPowered(g: Globals, beam: int, moCurrent: real, defectiveArc: bool, f: string, s: int)
    requires PowerLandauOctupoles(g, beam, moCurrent, defectiveArc).Ok?
    requires f in Constants.Families && s in Constants.Sectors
    ensures var b, strength := OpticsBeam(beam), OctupoleStrength(g, moCurrent).value;
            var r := PowerLandauOctupoles(g, beam, moCurrent, defectiveArc).value;
            var key := Constants.KoName(b, f, s);
            key in r &&
            r[key] == if defectiveArc && b == 1 && key == Lower("KOD.A56B1") then strength * 4.65 / 6.0 else strength
  {
    var b, strength := OpticsBeam(beam), OctupoleStrength(g, moCurrent).value;
    AssignAll(g, OctupoleNames(b), strength);
    KoKnobIsOctupoleName(b, f, s);
  }

  // ---------------------------------------------------------------------------
  // Arc sextupoles
  // ---------------------------------------------------------------------------

  /** `f"KS{fd}{i:d}.{arc}"`. */
  function SextupoleName(arcFd: (string, char), i: int): string {
    "KS" + [arcFd.1] + IntToString(i) + "." + arcFd.0
  }

  /** The loops of `deactivate_lhc_arc_sextupoles`: arcs, then "F"/"D", then
      1, 2, so name `n` is arc `n / 4`, family `n / 2 % 2`, number `n % 2 + 1`. */
  function SextupoleNames(beam: int): (names: seq<string>)
    ensures |names| == 32
  {
    seq(32, n requires 0 <= n < 32 => SextupoleName((AllLhcArcs(beam)[n / 4], "FD"[n / 2 % 2]), n % 2 + 1))
  }

  /** The arc sextupole knobs of one beam, as named in the constants module. */
  function SextupoleKeys(beam: int): set<string> {
    set i, f, s | i in Constants.Beams && f in Constants.Families && s in Constants.Sectors
      :: Constants.KsfName(beam, i, f, s)
  }

  lemma LowerSextupoleName(beam: int, sector: int, fd: nat, i: int)
    requires fd < 2
    ensures Lower(SextupoleName((LhcArc(beam, sector), "FD"[fd]), i))
         == Constants.KsfName(beam, i, Constants.Families[fd], sector)
  {
    var arc := LhcArc(beam, sector);
    LowerConcat("KS" + ["FD"[fd]] + IntToString(i) + ".", arc);
    LowerConcat("KS" + ["FD"[fd]] + IntToString(i), ".");
    LowerConcat("KS" + ["FD"[fd]], IntToString(i));
    LowerConcat("KS", ["FD"[fd]]);
    CaseOfIntToString(i);
    LowerLhcArc(beam, sector);
    LowerLiterals();
    assert ["FD"[fd]] == if fd == 0 then "F" else "D";
  }

  lemma SextupoleNameIsKsKnob(beam: int, n: nat)
    requires n < |SextupoleNames(beam)|
    ensures Lower(SextupoleNames(beam)[n]) in SextupoleKeys(beam)
  {
    LowerSextupoleName(beam, n / 4 + 1, n / 2 % 2, n % 2 + 1);
    assert Constants.Sectors[n / 4] == n / 4 + 1 && Constants.Beams[n % 2] == n % 2 + 1;
  }

  lemma KsKnobIsSextupoleName(beam: int, i: int, f: string, s: int)
    requires i in Constants.Beams && f in Constants.Families && s in Constants.Sectors
    ensures Constants.KsfName(beam, i, f, s) in Keys(SextupoleNames(beam))
  {
    var d := if f == "f" then 0 else 1;
    var n := 4 * (s - 1) + 2 * d + (i - 1);
    assert n / 4 == s - 1 && n / 2 % 2 == d && n % 2 + 1 == i;
    assert SextupoleNames(beam)[n] == SextupoleName((LhcArc(beam, s), "FD"[d]), i);
    LowerSextupoleName(beam, s, d, i);
  }

  lemma SextupoleNamesAreKsKnobs(beam: int)
    ensures Keys(SextupoleNames(beam)) == SextupoleKeys(beam)
  {
    forall n | 0 <= n < |SextupoleNames(beam)| ensures Lower(SextupoleNames(beam)[n]) in SextupoleKeys(beam) {
      SextupoleNameIsKsKnob(beam, n);
    }
    forall i, f, s | i in Constants.Beams && f in Constants.Families && s in Constants.Sectors
      ensures Constants.KsfName(beam, i, f, s) in Keys(SextupoleNames(beam))
    {
      KsKnobIsSextupoleName(beam, i, f, s);
    }
  }

  /** `deactivate_lhc_arc_sextupoles`: every arc sextupole of the beam (beam 4
      being beam 2) is set to zero, and nothing else changes. */
  function DeactivateLhcArcSextupoles(g: Globals, beam: int): (r: Globals)
    ensures SameOutside(g, r, SextupoleKeys(OpticsBeam(beam)))
    ensures forall k :: k in SextupoleKeys(OpticsBeam(beam)) ==> k in r && r[k] == 0.0
  {
    var b := OpticsBeam(beam);
    AssignAll(g, SextupoleNames(b), 0.0);
    SextupoleNamesAreKsKnobs(b);
    SetAll(g, Assign(SextupoleNames(b), 0.0))
  }

  // ---------------------------------------------------------------------------
  // Magnetic error switches
  // ---------------------------------------------------------------------------

  /** `f"{ab}{order:d}{sr}"`. */
  function ErrorName(order: int, ab: char, sr: char): string {
    [ab] + IntToString(order) + [sr]
  }

  /** The MAD-X flag of one error: `f"ON_{name}"`. */
  function ErrorFlag(order: int, ab: char, sr: char): string {
    "ON_" + ErrorName(order, ab, sr)
  }

  /** The value given to ON_{ab}{order}{sr} before `int()`: the nested
      `kwargs.get` defaults of the loops, the outermost being `False`. */
  function ErrorSetting(kwargs: Kwargs, order: int, ab: char, sr: char): real {
    var globalDefault := GetOr(kwargs, "default", 0.0);
    var orderDefault := GetOr(kwargs, "AB" + IntToString(order), globalDefault);
    var abDefault := GetOr(kwargs, [ab] + IntToString(order), orderDefault);
    GetOr(kwargs, ErrorName(order, ab, sr), abDefault)
  }

  /** The most specific keyword wins: the error's own name, then its "A#"/"B#"
      default, then the "AB#" default, then "default", then False. */
  lemma ErrorSettingPrecedence(kwargs: Kwargs, order: int, ab: char, sr: char)
    ensures ErrorSetting(kwargs, order, ab, sr)
         == FirstPresent(kwargs, [ErrorName(order, ab, sr), [ab] + IntToString(order), "AB" + IntToString(order), "default"], 0.0)
  {
    var keys := [ErrorName(order, ab, sr), [ab] + IntToString(order), "AB" + IntToString(order), "default"];
    var v := FirstPresent(kwargs, keys, 0.0);
    if keys[0] !in kwargs && keys[1] !in kwargs && keys[2] !in kwargs && keys[3] !in kwargs {
      assert v == 0.0;
    }
  }

  /** The `(order, ab, sr)` of the `n`-th write, in loop order: orders 1..15
      outer, then "A" and "B", then "s" and "r". */
  function ErrorSwitch(n: nat): (int, char, char)
    requires n < 60
  {
    (n / 4 + 1, "AB"[n / 2 % 2], "sr"[n % 2])
  }

  /** The 60 writes of `switch_magnetic_errors`. */
  function ErrorWrites(kwargs: Kwargs): (ws: seq<Write>)
    ensures |ws| == 60
  {
    seq(60, n requires 0 <= n < 60 =>
      var e := ErrorSwitch(n);
      (ErrorFlag(e.0, e.1, e.2), Trunc(ErrorSetting(kwargs, e.0, e.1, e.2)) as real))
  }

  /** The flags `switch_magnetic_errors` writes. */
  function ErrorFlagKeys(): set<string> {
    set n | 0 <= n < 60 :: Lower(ErrorFlag(ErrorSwitch(n).0, ErrorSwitch(n).1, ErrorSwitch(n).2))
  }

  /** `switch_magnetic_errors`: every flag ON_{A|B}{1..15}{s|r} is written,
      in loop order, with `int()` of its setting. */
  function SwitchMagneticErrors(g: Globals, kwargs: Kwargs): (r: Globals)
    ensures SameOutside(g, r, ErrorFlagKeys())
  {
    var ws := ErrorWrites(kwargs);
    SetAllSameOutside(g, ws);
    assert forall n :: 0 <= n < 60 ==> ws[n].0 == ErrorFlag(ErrorSwitch(n).0, ErrorSwitch(n).1, ErrorSwitch(n).2);
    assert Touched(ws) == ErrorFlagKeys();
    SetAll(g, ws)
  }

  /** MAD-X sees the flag in lower case. */
  lemma LowerErrorFlag(order: int, ab: char, sr: char)
    requires sr == 's' || sr == 'r'
    ensures Lower(ErrorFlag(order, ab, sr)) == "on_" + ([LowerChar(ab)] + IntToString(order) + [sr])
  {
    LowerConcat("ON_", ErrorName(order, ab, sr));
    LowerErrorName(order, ab, sr);
    assert Lower("ON_") == "on_";
  }

  lemma LowerErrorName(order: int, ab: char, sr: char)
    requires sr == 's' || sr == 'r'
    ensures Lower(ErrorName(order, ab, sr)) == [LowerChar(ab)] + IntToString(order) + [sr]
  {
    LowerConcat([ab] + IntToString(order), [sr]);
    LowerConcat([ab], IntToString(order));
    CaseOfIntToString(order);
  }

  /** The lower-cased flag shows its letter, order and suffix. */
  lemma ErrorFlagParts(order: int, ab: char, sr: char)
    requires sr == 's' || sr == 'r'
    ensures var f := Lower(ErrorFlag(order, ab, sr));
            |f| == |IntToString(order)| + 5 && f[3] == LowerChar(ab) && f[|f| - 1] == sr &&
            f[4..|f| - 1] == IntToString(order)
  {
    LowerErrorFlag(order, ab, sr);
    var t := IntToString(order);
    var f := "on_" + ([LowerChar(ab)] + t + [sr]);
    assert f[4..|f| - 1] == t;
  }

  /** Different write positions are different errors. */
  lemma ErrorSwitchInjective(n1: nat, n2: nat)
    requires n1 < 60 && n2 < 60 && ErrorSwitch(n1) == ErrorSwitch(n2)
    ensures n1 == n2
  {
    assert n1 / 2 % 2 == n2 / 2 % 2;
    assert n1 % 2 == n2 % 2;
    assert n1 / 4 == n2 / 4;
  }

  /** Different errors have different flags. */
  lemma ErrorFlagsDistinct(n1: nat, n2: nat)
    requires n1 < 60 && n2 < 60 && n1 != n2
    ensures Lower(ErrorFlag(ErrorSwitch(n1).0, ErrorSwitch(n1).1, ErrorSwitch(n1).2))
         != Lower(ErrorFlag(ErrorSwitch(n2).0, ErrorSwitch(n2).1, ErrorSwitch(n2).2))
  {
    var (o1, a1, s1) := ErrorSwitch(n1);
    var (o2, a2, s2) := ErrorSwitch(n2);
    ErrorFlagParts(o1, a1, s1);
    ErrorFlagParts(o2, a2, s2);
    if Lower(ErrorFlag(o1, a1, s1)) == Lower(ErrorFlag(o2, a2, s2)) {
      NatToStringInjective(o1, o2);
      assert LowerChar(a1) == LowerChar(a2);
      ErrorSwitchInjective(n1, n2);
    }
  }

  /** Each flag ends with `int()` of the most specific keyword given for it. */
  lemma SwitchMagneticErrorsValue(g: Globals, kwargs: Kwargs, order: int, ab: nat, sr: nat)
    requires 1 <= order <= 15 && ab < 2 && sr < 2
    ensures var a, s := "AB"[ab], "sr"[sr];
            var keys := [ErrorName(order, a, s), [a] + IntToString(order), "AB" + IntToString(order), "default"];
            Holds(SwitchMagneticErrors(g, kwargs), ErrorFlag(order, a, s), Trunc(FirstPresent(kwargs, keys, 0.0)) as real)
  {
    var ws := ErrorWrites(kwargs);
    var n := 4 * (order - 1) + 2 * ab + sr;
    assert ErrorSwitch(n) == (order, "AB"[ab], "sr"[sr]);
    forall j | n < j < 60 ensures Lower(ws[j].0) != Lower(ws[n].0) {
      ErrorFlagsDistinct(j, n);
    }
    SetAllLastWrite(g, ws, n);
    ErrorSettingPrecedence(kwargs, order, "AB"[ab], "sr"[sr]);
  }

  // ---------------------------------------------------------------------------
  // Independent IR quadrupoles
  // ---------------------------------------------------------------------------

  /** The power circuit of each independent IR quadrupole. */
  const PowerCircuits: map<int, string> := map[
    4 := "mqy", 5 := "mqml", 6 := "mqml", 7 := "mqm", 8 := "mqml",
    9 := "mqm", 10 := "mqml", 11 := "mqtli", 12 := "mqt", 13 := "mqt"]

  /** The quadrupoles accepted are exactly those with a circuit. */
  lemma PowerCircuitsDomain(q: int)
    ensures q in PowerCircuits <==> 4 <= q <= 13
  {
  }

  /** `f"kq{'t' if quad >= 11 else ''}{'l' if quad == 11 else ''}{quad}.{side}{ip}b{beam}"`. */
  function QuadKnob(quad: int, side: string, ip: int, beam: int): string {
    "kq" + (if quad >= MaxIrQuadNumber then "t" else "") + (if quad == MaxIrQuadNumber then "l" else "")
    + IntToString(quad) + "." + side + IntToString(ip) + "b" + IntToString(beam)
  }

  /** `f"{circuit}.{'b' if quad == 7 else ''}{quad}{side}{ip}.b{beam}->kmax/brho"`:
      the circuit's strength limit. */
  function QuadLimit(quad: int, side: string, ip: int, beam: int): string {
    // Only reached for quadrupoles that passed validation, which all have a
    // circuit (PowerCircuitsDomain).
    var circuit := if quad in PowerCircuits then PowerCircuits[quad] else "";
    circuit + "." + (if quad == QuadCircuitHasB then "b" else "") + IntToString(quad)
    + side + IntToString(ip) + ".b" + IntToString(beam) + "->kmax/brho"
  }

  /** The vary command of one quadrupole: step 1e-7, bounds the negated and
      the positive circuit limit. */
  function VaryQuadrupole(quad: int, side: string, ip: int, beam: int): (c: Command)
    ensures c.Vary? && c.name == QuadKnob(quad, side, ip, beam) && c.step == 0.0000001
    ensures c.bounds.Some? && c.bounds.value.0 == "-" + QuadLimit(quad, side, ip, beam)
    ensures c.bounds.value.1 == "+" + QuadLimit(quad, side, ip, beam)
  {
    var limit := QuadLimit(quad, side, ip, beam);
    Vary(QuadKnob(quad, side, ip, beam), 0.0000001, Some(("-" + limit, "+" + limit)))
  }

  /** The arguments `vary_independent_ir_quadrupoles` accepts. */
  predicate ValidQuadArguments(quads: seq<int>, ip: int, sides: seq<string>) {
    ip in Constants.Ips
    && (forall i :: 0 <= i < |sides| ==> Upper(sides[i]) == "R" || Upper(sides[i]) == "L")
    && (forall i :: 0 <= i < |quads| ==> 4 <= quads[i] <= 13)
  }

  /** The vary commands: quadrupoles outer, sides inner. */
  function QuadVaries(quads: seq<int>, ip: int, sides: seq<string>, beam: int): seq<Command> {
    Product(quads, sides, (q, s) => VaryQuadrupole(q, s, ip, beam))
  }

  /** `vary_independent_ir_quadrupoles`: the ip, every side and every
      quadrupole are checked before anything is sent; then one vary command
      per quadrupole and side is sent, the side as given. */
  function VaryIndependentIrQuadrupoles(m: Madx, quads: seq<int>, ip: int, sides: seq<string>, beam: int): (r: Result<Madx>)
    ensures r.Ok? <==> ValidQuadArguments(quads, ip, sides)
    ensures r.Err? ==> r.error == ValueError
    ensures r.Ok? ==> r.value.globals == m.globals && r.value.log == m.log + QuadVaries(quads, ip, sides, beam)
  {
    if !ValidQuadArguments(quads, ip, sides) then Err(ValueError)
    else Ok(Send(m, QuadVaries(quads, ip, sides, beam)))
  }

  /** One command per quadrupole and side. */
  lemma QuadVariesCount(quads: seq<int>, ip: int, sides: seq<string>, beam: int)
    ensures |QuadVaries(quads, ip, sides, beam)| == |quads| * |sides|
  {
    RowStartIsProduct(|quads|, |sides|);
  }

  /** Quadrupole `i` and side `j` give the `j`-th command of row `i`. */
  lemma QuadVariesLayout(quads: seq<int>, ip: int, sides: seq<string>, beam: int, i: nat, j: nat)
    requires i < |quads| && j < |sides|
    ensures RowStart(i, |sides|) + j < |QuadVaries(quads, ip, sides, beam)|
    ensures QuadVaries(quads, ip, sides, beam)[RowStart(i, |sides|) + j] == VaryQuadrupole(quads[i], sides[j], ip, beam)
  {
    ProductAt(quads, sides, (q, s) => VaryQuadrupole(q, s, ip, beam), i, j);
  }
}
