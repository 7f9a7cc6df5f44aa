/** Element installation in the LHC sequences, pyhdtoolkit/cpymadtools/lhc/_elements.py:
    the AC dipole as a pair of kickers, and markers around an IP.

    The tunes the AC dipole reads from the SUMM table are parameters, and the
    voltages MAD-X computes from the twiss table stay expressions in MAD-X.
 */
module LhcElements {
  import opened Errors
  import opened Text
  import opened ListOperations
  import opened Madx

  // ---------------------------------------------------------------------------
  // install_ac_dipole_as_kicker
  // ---------------------------------------------------------------------------

  /** The longest driving the (HL-)LHC device can do, in turns; more is only
      warned about. */
  const MaxTrackingTopTurns: int := 6600

  /** `ramp1, ..., ramp4`: start, end of the ramp-up, end of the flat top, end
      of the ramp-down. */
  function RampSchedule(startTurn: int, rampTurns: int, topTurns: int): (ramps: seq<int>)
    ensures |ramps| == 4 && ramps[0] == startTurn
    ensures ramps[1] - ramps[0] == rampTurns && ramps[2] - ramps[1] == topTurns && ramps[3] - ramps[2] == rampTurns
  {
    var ramp2 := startTurn + rampTurns;
    var ramp3 := ramp2 + topTurns;
    [startTurn, ramp2, ramp3, ramp3 + rampTurns]
  }

  /** With non-negative durations the ramps never go back in time, and the
      whole driving lasts two ramps and the flat top. */
  lemma RampScheduleOrdered(startTurn: int, rampTurns: nat, topTurns: nat)
    ensures var ramps := RampSchedule(startTurn, rampTurns, topTurns);
            (forall i, j :: 0 <= i <= j < 4 ==> ramps[i] <= ramps[j]) &&
            ramps[3] - ramps[0] == 2 * rampTurns + topTurns
  {
  }

  /** The defaults: on at turn 100, 2000 turns of ramp, 6600 at the top. */
  lemma RampScheduleDefaults()
    ensures RampSchedule(100, 2000, MaxTrackingTopTurns) == [100, 2100, 8700, 10700]
  {
  }

  /** `f"MKQA.6L4.B{beam:d}"`, the element the kickers are installed at. */
  function KickerAnchor(beam: int): string {
    "MKQA.6L4.B" + IntToString(beam)
  }

  /** `f"lhcb{beam:d}"`. */
  function BeamSequence(beam: int): string {
    "lhcb" + IntToString(beam)
  }

  /** The commands `install_ac_dipole_as_kicker` sends, `q1` and `q2` being
      the tunes of the SUMM table. */
  function KickerCommands(deltaqx: real, deltaqy: real, sigmaX: real, sigmaY: real, beam: int,
                          startTurn: int, rampTurns: int, topTurns: int, q1: real, q2: real): (cs: seq<Command>)
    ensures |cs| == 13
    ensures cs[5].AcDipoleElement? && cs[5].kind == "hacdipole" && cs[5].freq == q1 + deltaqx && cs[5].volt == "voltx"
    ensures cs[6].AcDipoleElement? && cs[6].kind == "vacdipole" && cs[6].freq == q2 + deltaqy && cs[6].volt == "volty"
    ensures cs[5].ramps == cs[6].ramps == RampSchedule(startTurn, rampTurns, topTurns)
    ensures cs[3] == AcDipoleVoltage("voltx", deltaqx, 180.0, "betxac", sigmaX)
    ensures cs[4] == AcDipoleVoltage("volty", deltaqy, 177.0, "betyac", sigmaY)
    ensures cs[7..] == [SeqEdit(BeamSequence(beam)), Flatten,
                        Install(cs[5].element, None, 0.0, KickerAnchor(beam)),
                        Install(cs[6].element, None, 0.0, KickerAnchor(beam)),
                        EndEdit, Use(BeamSequence(beam))]
  {
    var b := IntToString(beam);
    var ramps := RampSchedule(startTurn, rampTurns, topTurns);
    [Input("pbeam = beam%lhcb" + b + "->pc;"),
     Input("betxac = table(twiss, " + KickerAnchor(beam) + ", BEAM, betx);"),
     Input("betyac = table(twiss, " + KickerAnchor(beam) + ", BEAM, bety);"),
     AcDipoleVoltage("voltx", deltaqx, 180.0, "betxac", sigmaX),
     AcDipoleVoltage("volty", deltaqy, 177.0, "betyac", sigmaY),
     AcDipoleElement("MKACH.6L4.B" + b, "hacdipole", q1 + deltaqx, "voltx", ramps),
     AcDipoleElement("MKACV.6L4.B" + b, "vacdipole", q2 + deltaqy, "volty", ramps),
     SeqEdit(BeamSequence(beam)),
     Flatten,
     Install("MKACH.6L4.B" + b, None, 0.0, KickerAnchor(beam)),
     Install("MKACV.6L4.B" + b, None, 0.0, KickerAnchor(beam)),
     EndEdit,
     Use(BeamSequence(beam))]
  }

  /** `install_ac_dipole_as_kicker(madx, deltaqx, deltaqy, sigma_x, sigma_y,
      beam, start_turn, ramp_turns, top_turns)`: only commands are sent, and
      any number of top turns is accepted. */
  function InstallAcDipoleAsKicker(m: Madx, deltaqx: real, deltaqy: real, sigmaX: real, sigmaY: real, beam: int,
                                   startTurn: int, rampTurns: int, topTurns: int, q1: real, q2: real): (r: Madx)
    ensures r.globals == m.globals
    ensures r.log == m.log + KickerCommands(deltaqx, deltaqy, sigmaX, sigmaY, beam, startTurn, rampTurns, topTurns, q1, q2)
  {
    Send(m, KickerCommands(deltaqx, deltaqy, sigmaX, sigmaY, beam, startTurn, rampTurns, topTurns, q1, q2))
  }

  /** The driven tunes are the machine tunes moved by the requested deltas:
      with the documented example, 62.31 - 0.01 and 60.32 + 0.012. */
  lemma KickerDrivenTunes(m: Madx)
    ensures var r := InstallAcDipoleAsKicker(m, -0.01, 0.012, 2.0, 2.0, 1, 100, 2000, 6600, 62.31, 60.32);
            r.log[|m.log| + 5].freq == 62.30 && r.log[|m.log| + 6].freq == 60.332 &&
            r.log[|m.log| + 5].element == "MKACH.6L4.B1" && r.log[|m.log| + 6].element == "MKACV.6L4.B1"
  {
    assert IntToString(1) == "1";
  }

  /** Every kicker the commands install is an AC dipole they defined
      earlier, installed at the beam's `MKQA` anchor inside an edit of that
      beam's sequence, which is used last; the driven tunes are offset from
      the machine tunes by exactly the deltas. */
  predicate KickerBatchWellFormed(cs: seq<Command>, beam: int, deltaqx: real, deltaqy: real, q1: real, q2: real) {
    && |cs| > 0
    && (forall i | 0 <= i < |cs| && cs[i].Install? ::
          cs[i].origin == KickerAnchor(beam)
          && (exists j :: 0 <= j < i && cs[j].AcDipoleElement? && cs[j].element == cs[i].element)
          && (exists e :: 0 <= e < i && cs[e] == SeqEdit(BeamSequence(beam))))
    && cs[|cs| - 1] == Use(BeamSequence(beam))
    && (forall j | 0 <= j < |cs| && cs[j].AcDipoleElement? ::
          (cs[j].kind == "hacdipole" && cs[j].freq - q1 == deltaqx)
          || (cs[j].kind == "vacdipole" && cs[j].freq - q2 == deltaqy))
  }

  /** The thirteen commands of the kicker installation are well formed for
      every beam, tune and schedule. */
  lemma {:induction false} KickerCommandsWellFormed(deltaqx: real, deltaqy: real, sigmaX: real, sigmaY: real, beam: int,
                                                    startTurn: int, rampTurns: int, topTurns: int, q1: real, q2: real)
    ensures KickerBatchWellFormed(KickerCommands(deltaqx, deltaqy, sigmaX, sigmaY, beam, startTurn, rampTurns, topTurns, q1, q2),
                                  beam, deltaqx, deltaqy, q1, q2)
  {
    var cs := KickerCommands(deltaqx, deltaqy, sigmaX, sigmaY, beam, startTurn, rampTurns, topTurns, q1, q2);
    forall i | 0 <= i < |cs| && cs[i].Install?
      ensures cs[i].origin == KickerAnchor(beam)
      ensures exists j :: 0 <= j < i && cs[j].AcDipoleElement? && cs[j].element == cs[i].element
      ensures exists e :: 0 <= e < i && cs[e] == SeqEdit(BeamSequence(beam))
    {
      assert i == 9 || i == 10;
      assert cs[7] == SeqEdit(BeamSequence(beam));
      if i == 9 {
        assert cs[5].AcDipoleElement? && cs[5].element == cs[i].element;
      } else {
        assert cs[6].AcDipoleElement? && cs[6].element == cs[i].element;
      }
    }
    forall j | 0 <= j < |cs| && cs[j].AcDipoleElement?
      ensures (cs[j].kind == "hacdipole" && cs[j].freq - q1 == deltaqx)
              || (cs[j].kind == "vacdipole" && cs[j].freq - q2 == deltaqy)
    {
      assert j == 5 || j == 6;
    }
  }

  /** Whatever the machine state, the batch `install_ac_dipole_as_kicker`
      appends to the log is well formed in the sense above. */
  lemma KickersDefinedBeforeInstalled(m: Madx, deltaqx: real, deltaqy: real, sigmaX: real, sigmaY: real, beam: int,
                                      startTurn: int, rampTurns: int, topTurns: int, q1: real, q2: real)
    ensures KickerBatchWellFormed(InstallAcDipoleAsKicker(m, deltaqx, deltaqy, sigmaX, sigmaY, beam,
                                                          startTurn, rampTurns, topTurns, q1, q2).log[|m.log|..],
                                  beam, deltaqx, deltaqy, q1, q2)
  {
    var cs := KickerCommands(deltaqx, deltaqy, sigmaX, sigmaY, beam, startTurn, rampTurns, topTurns, q1, q2);
    KickerCommandsWellFormed(deltaqx, deltaqy, sigmaX, sigmaY, beam, startTurn, rampTurns, topTurns, q1, q2);
    assert InstallAcDipoleAsKicker(m, deltaqx, deltaqy, sigmaX, sigmaY, beam,
                                   startTurn, rampTurns, topTurns, q1, q2).log[|m.log|..] == cs;
  }

  // ---------------------------------------------------------------------------
  // add_markers_around_lhc_ip
  // ---------------------------------------------------------------------------

  /** `f"MARKER.{side}.IP{ip:d}.{i:02d}"`. */
  function MarkerName(side: string, ip: int, i: nat): string {
    "MARKER." + side + ".IP" + IntToString(ip) + "." + ZeroPad2(i)
  }

  /** Markers of one side and IP have different names. */
  lemma {:induction false} MarkerNamesDistinct(side: string, ip: int, i: nat, j: nat)
    requires MarkerName(side, ip, i) == MarkerName(side, ip, j)
    ensures i == j
  {
    var prefix := "MARKER." + side + ".IP" + IntToString(ip) + ".";
    assert MarkerName(side, ip, i) == prefix + ZeroPad2(i);
    assert MarkerName(side, ip, j) == prefix + ZeroPad2(j);
    assert ZeroPad2(i) == MarkerName(side, ip, i)[|prefix|..];
    assert ZeroPad2(j) == MarkerName(side, ip, j)[|prefix|..];
  }

  /** Which marker an install is for: its side and its number. */
  datatype MarkerSpec = MarkerSpec(left: bool, number: nat)

  /** `madx.command.install(element=..., class_="MARKER", at=..., from_=f"IP{ip:d}")`
      for one marker: left markers at `-i * interval`, right ones at `+i * interval`. */
  function MarkerInstall(ip: int, spec: MarkerSpec, interval: real): Command {
    var at := (spec.number as real) * interval;
    Install(MarkerName(if spec.left then "LEFT" else "RIGHT", ip, spec.number), Some("MARKER"),
            if spec.left then -at else at, "IP" + IntToString(ip))
  }

  function LeftMarker(ip: int, i: nat, interval: real): Command {
    MarkerInstall(ip, MarkerSpec(true, i), interval)
  }

  function RightMarker(ip: int, i: nat, interval: real): Command {
    MarkerInstall(ip, MarkerSpec(false, i), interval)
  }

  /** The loop `for i in range(1, n + 1)`: left then right for each marker. */
  function MarkerSpecs(n: nat): (specs: seq<MarkerSpec>)
    ensures |specs| == 2 * n
  {
    seq(2 * n, k requires 0 <= k < 2 * n => MarkerSpec(k % 2 == 0, k / 2 + 1))
  }

  lemma MarkerSpecsAt(n: nat, i: nat)
    requires 1 <= i <= n
    ensures MarkerSpecs(n)[2 * i - 2] == MarkerSpec(true, i)
    ensures MarkerSpecs(n)[2 * i - 1] == MarkerSpec(false, i)
  {
    assert (2 * i - 2) % 2 == 0 && (2 * i - 2) / 2 == i - 1;
    assert (2 * i - 1) % 2 == 1 && (2 * i - 1) / 2 == i - 1;
  }

  /** The installs for markers 1 to `n`. */
  function MarkerInstalls(ip: int, n: nat, interval: real): (cs: seq<Command>)
    ensures |cs| == 2 * n
  {
    Map(MarkerSpecs(n), spec => MarkerInstall(ip, spec, interval))
  }

  /** Marker `i` is installed left then right, after markers 1 to `i - 1`. */
  lemma MarkerInstallsAt(ip: int, n: nat, interval: real, i: nat)
    requires 1 <= i <= n
    ensures MarkerInstalls(ip, n, interval)[2 * i - 2] == LeftMarker(ip, i, interval)
    ensures MarkerInstalls(ip, n, interval)[2 * i - 1] == RightMarker(ip, i, interval)
  {
    MarkerSpecsAt(n, i);
  }

  /** A flattened edit of `sequence` that installs `installs`, then re-uses it. */
  function EditSequence(m: Madx, sequence: string, installs: seq<Command>): (r: Madx)
    ensures r.globals == m.globals
    ensures |r.log| == |m.log| + 5 + |installs|
    ensures r.log[..|m.log|] == m.log
    ensures r.log[|m.log|..|m.log| + 2] == [SeqEdit(sequence), Flatten]
    ensures r.log[|m.log| + 2 + |installs|..] == [Flatten, EndEdit, Use(sequence)]
    ensures r.log[|m.log| + 2..|m.log| + 2 + |installs|] == installs
  {
    Send(m, [SeqEdit(sequence), Flatten] + installs + [Flatten, EndEdit, Use(sequence)])
  }

  /** The `k`-th install lands right after SEQEDIT and the first FLATTEN. */
  lemma EditSequenceAt(m: Madx, sequence: string, installs: seq<Command>, k: nat)
    requires k < |installs|
    ensures EditSequence(m, sequence, installs).log[|m.log| + 2 + k] == installs[k]
  {
    var r := EditSequence(m, sequence, installs);
    assert r.log[|m.log| + 2..|m.log| + 2 + |installs|][k] == installs[k];
  }

  /** `add_markers_around_lhc_ip(madx, sequence, ip, n_markers, interval)`:
      markers 1 to `n_markers` on both sides, inside a flattened edit of the
      sequence, which is then re-used. */
  function AddMarkersAroundLhcIp(m: Madx, sequence: string, ip: int, nMarkers: int, interval: real): (r: Madx)
    ensures r.globals == m.globals
    ensures |r.log| == |m.log| + 5 + 2 * (if nMarkers < 1 then 0 else nMarkers)
    ensures r.log[..|m.log|] == m.log
    ensures r.log[|m.log|..|m.log| + 2] == [SeqEdit(sequence), Flatten]
    ensures r.log[|r.log| - 3..] == [Flatten, EndEdit, Use(sequence)]
  {
    EditSequence(m, sequence, MarkerInstalls(ip, if nMarkers < 1 then 0 else nMarkers, interval))
  }

  /** Left marker `i` sits right after the edit opens and the markers before it. */
  lemma AddMarkersPlacesLeft(m: Madx, sequence: string, ip: int, nMarkers: int, interval: real, i: nat)
    requires 1 <= i <= nMarkers
    ensures AddMarkersAroundLhcIp(m, sequence, ip, nMarkers, interval).log[|m.log| + 2 * i] == LeftMarker(ip, i, interval)
  {
    MarkerInstallsAt(ip, nMarkers, interval, i);
    EditSequenceAt(m, sequence, MarkerInstalls(ip, nMarkers, interval), 2 * i - 2);
  }

  /** Right marker `i` follows left marker `i`. */
  lemma AddMarkersPlacesRight(m: Madx, sequence: string, ip: int, nMarkers: int, interval: real, i: nat)
    requires 1 <= i <= nMarkers
    ensures AddMarkersAroundLhcIp(m, sequence, ip, nMarkers, interval).log[|m.log| + 2 * i + 1] == RightMarker(ip, i, interval)
  {
    MarkerInstallsAt(ip, nMarkers, interval, i);
    EditSequenceAt(m, sequence, MarkerInstalls(ip, nMarkers, interval), 2 * i - 1);
  }

  /** Each left marker mirrors the right marker of the same number. */
  lemma MarkersSymmetric(ip: int, i: nat, interval: real)
    ensures LeftMarker(ip, i, interval).at == -RightMarker(ip, i, interval).at
    ensures LeftMarker(ip, i, interval).origin == RightMarker(ip, i, interval).origin
    ensures LeftMarker(ip, i, interval).element != RightMarker(ip, i, interval).element
  {
    var l, r := MarkerName("LEFT", ip, i), MarkerName("RIGHT", ip, i);
    assert l[7] == 'L' && r[7] == 'R';
  }

  /** The first marker on the left of IP1, 5 cm away: MARKER.LEFT.IP1.01. */
  lemma MarkerNameExample()
    ensures MarkerName("LEFT", 1, 1) == "MARKER.LEFT.IP1.01"
  {
    assert IntToString(1) == "1";
    assert ZeroPad2(1) == "01";
  }
}
