/** The miscellaneous LHC utilities of pyhdtoolkit/cpymadtools/lhc/_misc.py:
    the SixTrack output preparation, the reset of the IP bump flags and the
    names of the tune and chromaticity knobs.
 */
module LhcMisc {
  import opened Errors
  import opened Text
  import opened Madx
  import Constants

  // ---------------------------------------------------------------------------
  // make_sixtrack_output
  // ---------------------------------------------------------------------------

  /** The energy, in GeV, from which the 400 MHz cavities get their full voltage. */
  const VrfThreshold: real := 5000.0

  /** `8 if energy < 5000 else 16`, in MV. */
  function CavityVoltage(energy: real): (v: real)
    ensures v == 8.0 || v == 16.0
    ensures v == 16.0 <==> energy >= VrfThreshold
  {
    if energy < VrfThreshold then 8.0 else 16.0
  }

  /** A higher energy never gets a lower voltage. */
  lemma CavityVoltageMonotone(e1: real, e2: real)
    requires e1 <= e2
    ensures CavityVoltage(e1) <= CavityVoltage(e2)
  {
  }

  /** The variables `make_sixtrack_output` writes. */
  const SixtrackGlobals: set<string> := {"vrf400", "lagrf400.b1", "lagrf400.b2"}

  lemma SixtrackNamesLower()
    ensures Lower("VRF400") == "vrf400" && Lower("LAGRF400.B1") == "lagrf400.b1" && Lower("LAGRF400.B2") == "lagrf400.b2"
  {
    assert Lower("VRF400") == "vrf" + "400";
    assert Lower("LAGRF400.B1") == "lagrf" + "400" + ".b" + "1";
    assert Lower("LAGRF400.B2") == "lagrf" + "400" + ".b" + "2";
  }

  /** `make_sixtrack_output(madx, energy)`: the cavity voltage for the energy,
      the two cavity phases, then TWISS and SIXTRACK. Nothing else changes. */
  function MakeSixtrackOutput(m: Madx, energy: real): (r: Madx)
    ensures Holds(r.globals, "VRF400", CavityVoltage(energy))
    ensures Holds(r.globals, "LAGRF400.B1", 0.5) && Holds(r.globals, "LAGRF400.B2", 0.0)
    ensures SameOutside(m.globals, r.globals, SixtrackGlobals)
    ensures r.log == m.log + [Twiss, Sixtrack(true, 0.017)]
  {
    SixtrackNamesLower();
    var g := Set(Set(Set(m.globals, "VRF400", CavityVoltage(energy)), "LAGRF400.B1", 0.5), "LAGRF400.B2", 0.0);
    Madx(g, m.log + [Twiss, Sixtrack(true, 0.017)])
  }

  /** Preparing the output again changes no variable; it only repeats the two
      commands. */
  lemma MakeSixtrackOutputTwice(m: Madx, energy: real)
    ensures var once := MakeSixtrackOutput(m, energy);
            var twice := MakeSixtrackOutput(once, energy);
            twice.globals == once.globals && twice.log == once.log + [Twiss, Sixtrack(true, 0.017)]
  {
    SixtrackNamesLower();
    var once := MakeSixtrackOutput(m, energy);
    var twice := MakeSixtrackOutput(once, energy);
    assert forall k :: k in twice.globals <==> k in once.globals;
  }

  // ---------------------------------------------------------------------------
  // reset_lhc_bump_flags
  // ---------------------------------------------------------------------------

  /** `all_bumps`, in the order the lists are concatenated. */
  const BumpFlags: seq<string> :=
    Constants.AngleFlags + Constants.CrossingAngleFlags + Constants.ExperimentStateFlags +
    Constants.Ip2SpecialFlag + Constants.IpOffsetFlags + Constants.ParallelSeparationFlags

  /** Every list contributes: 5 angles, 8 crossing angles, 5 experiment
      states, the IP2 special, 10 offsets and 8 separations. */
  lemma BumpFlagsCount()
    ensures |BumpFlags| == 37
  {
    Constants.CrossingAngleFlagsValue();
    Constants.IpOffsetFlagsValue();
  }

  /** `reset_lhc_bump_flags(madx)`: every bump flag is 0, nothing else changes. */
  function ResetLhcBumpFlags(g: Globals): (r: Globals)
    ensures SameOutside(g, r, Keys(BumpFlags))
    ensures forall k :: k in Keys(BumpFlags) ==> k in r && r[k] == 0.0
  {
    AssignAll(g, BumpFlags, 0.0);
    SetAll(g, Assign(BumpFlags, 0.0))
  }

  /** Resetting twice is resetting once. */
  lemma ResetLhcBumpFlagsIdempotent(g: Globals)
    ensures ResetLhcBumpFlags(ResetLhcBumpFlags(g)) == ResetLhcBumpFlags(g)
  {
    var once := ResetLhcBumpFlags(g);
    var twice := ResetLhcBumpFlags(once);
    assert forall k :: k in twice <==> k in once;
  }

  /** Among them, every crossing-angle flag is switched off. */
  lemma ResetLhcBumpFlagsCrossing(g: Globals, i: nat)
    requires i < |Constants.CrossingAngleFlags|
    ensures Holds(ResetLhcBumpFlags(g), Constants.CrossingAngleFlags[i], 0.0)
  {
    var n := |Constants.AngleFlags|;
    assert BumpFlags[n + i] == Constants.CrossingAngleFlags[i];
    KeysAt(BumpFlags, n + i);
  }

  // ---------------------------------------------------------------------------
  // get_lhc_tune_and_chroma_knobs
  // ---------------------------------------------------------------------------

  /** The knob suffix: Run 3 knobs win over the telescopic-squeeze ones. */
  function KnobSuffix(telescopicSqueeze: bool, run3: bool): (s: string)
    ensures run3 ==> s == "_op"
    ensures !run3 && telescopicSqueeze ==> s == "_sq"
    ensures !run3 && !telescopicSqueeze ==> s == ""
  {
    if run3 then "_op" else if telescopicSqueeze then "_sq" else ""
  }

  /** The four knob stems, (qx, qy, dqx, dqy), of a machine. */
  function KnobStems(machine: string): (stems: seq<string>)
    ensures |stems| == 4
  {
    if machine == "LHC" then ["dQx", "dQy", "dQpx", "dQpy"] else ["kqtf", "kqtd", "ksf", "ksd"]
  }

  type Knobs = (string, string, string, string)

  /** `get_lhc_tune_and_chroma_knobs(accelerator, beam, telescopic_squeeze,
      run3)`: beam 4 uses the beam 2 knobs, and any accelerator other than
      LHC or HLLHC, in any case, is a NotImplementedError. */
  function LhcTuneAndChromaKnobs(accelerator: string, beam: int, telescopicSqueeze: bool, run3: bool): (r: Result<Knobs>)
    ensures r.Ok? <==> Upper(accelerator) == "LHC" || Upper(accelerator) == "HLLHC"
    ensures r.Err? ==> r.error == NotImplementedError
    ensures r.Ok? ==>
              var stems := KnobStems(Upper(accelerator));
              var tail := ".b" + IntToString(if beam == 4 then 2 else beam) + KnobSuffix(telescopicSqueeze, run3);
              r.value == (stems[0] + tail, stems[1] + tail, stems[2] + tail, stems[3] + tail)
  {
    var b := if beam == 4 then 2 else beam;
    var suffix := KnobSuffix(telescopicSqueeze, run3);
    var machine := Upper(accelerator);
    if machine != "LHC" && machine != "HLLHC" then Err(NotImplementedError)
    else
      var stems := KnobStems(machine);
      var tail := ".b" + IntToString(b) + suffix;
      Ok((stems[0] + tail, stems[1] + tail, stems[2] + tail, stems[3] + tail))
  }

  /** Beam 4 has the knobs of beam 2. */
  lemma KnobsOfBeam4(accelerator: string, telescopicSqueeze: bool, run3: bool)
    ensures LhcTuneAndChromaKnobs(accelerator, 4, telescopicSqueeze, run3) == LhcTuneAndChromaKnobs(accelerator, 2, telescopicSqueeze, run3)
  {
  }

  /** With `run3` the telescopic-squeeze flag does not matter. */
  lemma KnobsRun3Dominates(accelerator: string, beam: int)
    ensures LhcTuneAndChromaKnobs(accelerator, beam, true, true) == LhcTuneAndChromaKnobs(accelerator, beam, false, true)
  {
  }

  /** The accelerator name is case-insensitive. */
  lemma KnobsCaseInsensitive(a1: string, a2: string, beam: int, telescopicSqueeze: bool, run3: bool)
    requires Upper(a1) == Upper(a2)
    ensures LhcTuneAndChromaKnobs(a1, beam, telescopicSqueeze, run3) == LhcTuneAndChromaKnobs(a2, beam, telescopicSqueeze, run3)
  {
  }

  /** The four knobs are different variables, whatever the beam and suffix. */
  lemma {:induction false} KnobsDistinct(accelerator: string, beam: int, telescopicSqueeze: bool, run3: bool)
    requires LhcTuneAndChromaKnobs(accelerator, beam, telescopicSqueeze, run3).Ok?
    ensures var k := LhcTuneAndChromaKnobs(accelerator, beam, telescopicSqueeze, run3).value;
            k.0 != k.1 && k.0 != k.2 && k.0 != k.3 && k.1 != k.2 && k.1 != k.3 && k.2 != k.3
  {
    var k := LhcTuneAndChromaKnobs(accelerator, beam, telescopicSqueeze, run3).value;
    if Upper(accelerator) == "LHC" {
      assert k.0[2] == 'x' && k.1[2] == 'y' && k.2[2] == 'p' && k.3[2] == 'p';
      assert k.2[3] == 'x' && k.3[3] == 'y';
    } else {
      assert k.0[1] == 'q' && k.1[1] == 'q' && k.2[1] == 's' && k.3[1] == 's';
      assert k.0[3] == 'f' && k.1[3] == 'd' && k.2[2] == 'f' && k.3[2] == 'd';
    }
  }

  /** The knobs for the LHC, beam 2, Run 3: the tune knobs are dQx and dQy and
      the chromaticity knobs dQpx and dQpy, not dQx and dQpx twice each. */
  lemma KnobsLhcRun3Example()
    ensures LhcTuneAndChromaKnobs("lhc", 2, true, true) == Ok(("dQx.b2_op", "dQy.b2_op", "dQpx.b2_op", "dQpy.b2_op"))
  {
    assert Upper("lhc") == "LHC";
    assert IntToString(2) == "2";
    var tail := ".b" + IntToString(2) + KnobSuffix(true, true);
    assert tail == ".b2_op";
    assert "dQx" + tail == "dQx.b2_op" && "dQy" + tail == "dQy.b2_op";
    assert "dQpx" + tail == "dQpx.b2_op" && "dQpy" + tail == "dQpy.b2_op";
  }

  /** The knobs for the HL-LHC, beam 2, telescopic squeeze. */
  lemma KnobsHllhcExample()
    ensures LhcTuneAndChromaKnobs("HLLHC", 2, true, false) == Ok(("kqtf.b2_sq", "kqtd.b2_sq", "ksf.b2_sq", "ksd.b2_sq"))
  {
    assert Upper("HLLHC") == "HLLHC";
    assert IntToString(2) == "2";
    var tail := ".b" + IntToString(2) + KnobSuffix(true, false);
    assert tail == ".b2_sq";
    assert "kqtf" + tail == "kqtf.b2_sq" && "kqtd" + tail == "kqtd.b2_sq";
    assert "ksf" + tail == "ksf.b2_sq" && "ksd" + tail == "ksd.b2_sq";
  }
}
