/** Beam set-up of pyhdtoolkit/cpymadtools/lhc/_setup.py.

    `make_lhc_beams` writes the energy, the rigidity and the geometric
    emittances and sends one BEAM command per LHC sequence. `LHCSetup`
    validates its arguments before preparing a Run 2 or Run 3 machine; the
    preparation itself (reading sequence and optics files) is not part of
    this model.
 */
module LhcBeams {
  import opened Errors
  import opened Text
  import opened Madx

  // ---------------------------------------------------------------------------
  // make_lhc_beams
  // ---------------------------------------------------------------------------

  /** The keywords `make_lhc_beams` passes to BEAM itself besides `npart` and
      `sige`: a keyword argument with one of these names is given twice. */
  const BeamKeywords: set<string> := {"sequence", "particle", "bv", "energy", "ex", "ey"}

  /** `bv = 1 if beam == 1 or b4 is True else -1`. */
  function BeamDirection(beam: int, b4: bool): (bv: int)
    ensures bv == 1 || bv == -1
    ensures bv == 1 <==> beam == 1 || b4
  {
    if beam == 1 || b4 then 1 else -1
  }

  /** The BEAM command for sequence `lhcb{beam}`. */
  function BeamCommand(beam: int, b4: bool, energy: real, npart: real, ex: real, ey: real, sige: real, extra: map<string, real>)
    : (c: Command)
    ensures c.Beam? && c.particle == "proton" && c.bv == BeamDirection(beam, b4)
    ensures c.energy == energy && c.npart == npart && c.ex == ex && c.ey == ey && c.sige == sige && c.extra == extra
  {
    Beam("lhcb" + IntToString(beam), "proton", BeamDirection(beam, b4), energy, npart, ex, ey, sige, extra)
  }

  /** The magnetic rigidity in T·m of a proton beam of `energy` GeV:
      `energy * 1e9 / clight`. */
  function Rigidity(energy: real, clight: real): (brho: real)
    requires clight != 0.0
    ensures brho * clight == energy * 1000000000.0
  {
    energy * 1000000000.0 / clight
  }

  /** The geometric emittance from the normalised one, with the relativistic
      gamma approximated by `energy / 0.938`. */
  function GeometricEmittance(nemitt: real, energy: real): (e: real)
    requires energy != 0.0
    ensures e * (energy / 0.938) == nemitt
    ensures e * energy == nemitt * 0.938
  {
    nemitt / (energy / 0.938)
  }

  /** Some keyword argument is one BEAM already receives. */
  predicate BeamKeywordClash(kwargs: Kwargs) {
    kwargs.Keys * BeamKeywords != {}
  }

  /** The variables `make_lhc_beams` writes. */
  const BeamGlobals: set<string> := {"nrj", "brho", "geometric_emit_x", "geometric_emit_y"}

  /** The MAD-X names of the variables involved. */
  lemma BeamNamesLower()
    ensures Lower("NRJ") == "nrj" && Lower("clight") == "clight" && Lower("brho") == "brho"
    ensures Lower("geometric_emit_x") == "geometric_emit_x" && Lower("geometric_emit_y") == "geometric_emit_y"
  {
    LowerOfNoUpper("clight");
    LowerOfNoUpper("brho");
    LowerOfNoUpper("geometric_emit_x");
    LowerOfNoUpper("geometric_emit_y");
  }

  /** `make_lhc_beams(madx, energy, nemitt_x, nemitt_y, b4, **kwargs)`.
      NRJ is written first; `energy * 1e9 / madx.globals.clight` then raises
      an AttributeError or a ZeroDivisionError; with zero energy the
      emittance `nemitt_x / (energy / 0.938)` divides by zero; a keyword
      argument that BEAM already receives is a TypeError at the first BEAM
      call. Each raise leaves the writes made before it. */
  function MakeLhcBeams(m: Madx, energy: real, nemittX: real, nemittY: real, b4: bool, kwargs: Kwargs): (r: Outcome<()>)
    ensures Holds(r.state.globals, "NRJ", energy)
    ensures SameOutside(m.globals, r.state.globals, BeamGlobals)
    ensures r.result.Err? ==> r.state.log == m.log
    ensures "clight" !in m.globals ==> r.result == Err(AttributeError("clight"))
    ensures "clight" in m.globals && m.globals["clight"] == 0.0 ==> r.result == Err(ZeroDivisionError)
    ensures "clight" in m.globals && m.globals["clight"] != 0.0 ==>
              Holds(r.state.globals, "brho", Rigidity(energy, m.globals["clight"])) &&
              (energy == 0.0 ==> r.result == Err(ZeroDivisionError)) &&
              (energy != 0.0 && BeamKeywordClash(kwargs) ==> r.result == Err(TypeError)) &&
              (energy != 0.0 && !BeamKeywordClash(kwargs) ==> r.result == Ok(()))
    ensures r.result.Ok? ==>
              energy != 0.0 &&
              Holds(r.state.globals, "geometric_emit_x", GeometricEmittance(nemittX, energy)) &&
              Holds(r.state.globals, "geometric_emit_y", GeometricEmittance(nemittY, energy)) &&
              r.state.log == m.log + LhcBeamCommands(energy, nemittX, nemittY, b4, kwargs)
  {
    BeamNamesLower();
    var g1 := Set(m.globals, "NRJ", energy);
    match Attr(g1, "clight")
    case Err(e) => Outcome(Madx(g1, m.log), Err(e))
    case Ok(clight) =>
      if clight == 0.0 then Outcome(Madx(g1, m.log), Err(ZeroDivisionError))
      else
        var g2 := Set(g1, "brho", Rigidity(energy, clight));
        if energy == 0.0 then Outcome(Madx(g2, m.log), Err(ZeroDivisionError))
        else
          var g3 := Set(g2, "geometric_emit_x", GeometricEmittance(nemittX, energy));
          var g4 := Set(g3, "geometric_emit_y", GeometricEmittance(nemittY, energy));
          if BeamKeywordClash(kwargs) then Outcome(Madx(g4, m.log), Err(TypeError))
          else Outcome(Madx(g4, m.log + LhcBeamCommands(energy, nemittX, nemittY, b4, kwargs)), Ok(()))
  }

  /** The two BEAM commands, for `lhcb1` then `lhcb2`: `npart` and `sige` come
      from the keyword arguments or default to 1.15e11 and 4.5e-4, and every
      other keyword argument is passed on. */
  function LhcBeamCommands(energy: real, nemittX: real, nemittY: real, b4: bool, kwargs: Kwargs): (cs: seq<Command>)
    requires energy != 0.0
    ensures |cs| == 2 && cs[0].Beam? && cs[1].Beam?
    ensures cs[0].sequence == "lhcb1" && cs[1].sequence == "lhcb2"
    ensures cs[0].bv == 1 && (cs[1].bv == 1 <==> b4)
    ensures forall c | c in cs ::
              c.particle == "proton" && c.energy == energy &&
              c.ex * energy == nemittX * 0.938 && c.ey * energy == nemittY * 0.938 &&
              c.npart == (if "npart" in kwargs then kwargs["npart"] else 115000000000.0) &&
              c.sige == (if "sige" in kwargs then kwargs["sige"] else 0.00045) &&
              c.extra.Keys == kwargs.Keys - {"npart", "sige"} &&
              forall k | k in c.extra :: c.extra[k] == kwargs[k]
  {
    var npart := GetOr(kwargs, "npart", 115000000000.0);
    var sige := GetOr(kwargs, "sige", 0.00045);
    var ex := GeometricEmittance(nemittX, energy);
    var ey := GeometricEmittance(nemittY, energy);
    var extra := kwargs - {"npart", "sige"};
    assert IntToString(1) == "1" && IntToString(2) == "2";
    [BeamCommand(1, b4, energy, npart, ex, ey, sige, extra), BeamCommand(2, b4, energy, npart, ex, ey, sige, extra)]
  }

  /** With `b4` both beams turn the same way, so the two BEAM commands differ
      only in the sequence; without it the second also reverses `bv`. */
  lemma {:induction false} LhcBeamCommandsMirror(energy: real, nemittX: real, nemittY: real, b4: bool, kwargs: Kwargs)
    requires energy != 0.0
    ensures var cs := LhcBeamCommands(energy, nemittX, nemittY, b4, kwargs);
            b4 ==> cs[1] == cs[0].(sequence := "lhcb2")
    ensures var cs := LhcBeamCommands(energy, nemittX, nemittY, b4, kwargs);
            !b4 ==> cs[1] == cs[0].(sequence := "lhcb2", bv := -1)
  {
    var cs := LhcBeamCommands(energy, nemittX, nemittY, b4, kwargs);
    assert cs[0].extra == cs[1].extra by {
      assert cs[0].extra.Keys == cs[1].extra.Keys;
    }
  }

  /** `make_lhc_beams` succeeds exactly when `clight` is defined and non-zero,
      the energy is non-zero and no keyword argument clashes with BEAM's own. */
  lemma MakeLhcBeamsSucceeds(m: Madx, energy: real, nemittX: real, nemittY: real, b4: bool, kwargs: Kwargs)
    ensures MakeLhcBeams(m, energy, nemittX, nemittY, b4, kwargs).result.Ok? <==>
              "clight" in m.globals && m.globals["clight"] != 0.0 && energy != 0.0 && !BeamKeywordClash(kwargs)
  {
  }

  /** The defaults: 7 TeV, 2.5 µm normalised emittances, 1.15e11 protons and a
      relative energy spread of 4.5e-4 when nothing else is given. */
  lemma MakeLhcBeamsDefaults(m: Madx)
    requires "clight" in m.globals && m.globals["clight"] == 299792458.0
    ensures var r := MakeLhcBeams(m, 7000.0, 0.0000025, 0.0000025, false, map[]);
            r.result.Ok? && |r.state.log| == |m.log| + 2 &&
            var c := r.state.log[|m.log|];
            c.Beam? && c.npart == 115000000000.0 && c.sige == 0.00045 && c.extra == map[] &&
            c.ex == 0.0000025 * 0.938 / 7000.0
  {
    var r := MakeLhcBeams(m, 7000.0, 0.0000025, 0.0000025, false, map[]);
    var c := r.state.log[|m.log|];
    assert c == LhcBeamCommands(7000.0, 0.0000025, 0.0000025, false, map[])[0];
  }

  // ---------------------------------------------------------------------------
  // LHCSetup
  // ---------------------------------------------------------------------------

  /** The two machine configurations `LHCSetup` can prepare. */
  datatype Run = Run2 | Run3

  /** The argument checks of `LHCSetup.__init__` and the configuration they
      select. A missing optics file, or `use_b4` for a beam other than 2, is a
      ValueError; `int(run)` outside {2, 3} is a NotImplementedError; then
      `run == 2` selects Run 2 and anything else Run 3. */
  function LhcSetupRun(run: real, opticsfile: Option<string>, beam: int, useB4: bool): (r: Result<Run>)
    ensures opticsfile.None? ==> r == Err(ValueError)
    ensures opticsfile.Some? && useB4 && beam != 2 ==> r == Err(ValueError)
    ensures opticsfile.Some? && !(useB4 && beam != 2) ==>
              (r.Ok? <==> 2.0 <= run < 4.0) &&
              (r.Err? ==> r.error == NotImplementedError) &&
              (r.Ok? ==> (r.value == Run2 <==> run == 2.0))
  {
    if opticsfile.None? then Err(ValueError)
    else if useB4 && beam != 2 then Err(ValueError)
    else if Trunc(run) != 2 && Trunc(run) != 3 then Err(NotImplementedError)
    else if run == 2.0 then Ok(Run2)
    else Ok(Run3)
  }

  /** For whole-number runs the check is exact: 2 and 3 only, each to its own
      configuration. */
  lemma LhcSetupWholeRuns(n: int, opticsfile: string, beam: int, useB4: bool)
    requires !(useB4 && beam != 2)
    ensures LhcSetupRun(n as real, Some(opticsfile), beam, useB4).Ok? <==> n == 2 || n == 3
    ensures n == 2 ==> LhcSetupRun(n as real, Some(opticsfile), beam, useB4) == Ok(Run2)
    ensures n == 3 ==> LhcSetupRun(n as real, Some(opticsfile), beam, useB4) == Ok(Run3)
  {
  }

  /** Since `int(run)` truncates but the selection compares `run` itself, a
      fractional run between 2 and 3 prepares Run 3. */
  lemma LhcSetupFractionalRun(opticsfile: string)
    ensures LhcSetupRun(2.5, Some(opticsfile), 1, false) == Ok(Run3)
    ensures LhcSetupRun(3.9, Some(opticsfile), 1, false) == Ok(Run3)
    ensures LhcSetupRun(1.9, Some(opticsfile), 1, false) == Err(NotImplementedError)
  {
  }
}
