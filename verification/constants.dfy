/** The LHC names and settings of pyhdtoolkit/cpymadtools/constants.py.

    Every knob list is a Python list comprehension; `ListOperations.Product`
    models a comprehension with two `for` clauses (the first one outermost),
    and the deeper ones are products of products. Crossing-scheme values are
    exact reals.
 */
module Constants {
  import opened Text
  import opened ListOperations

  /** `_MAX_SECTOR_VALUE`: the LHC has eight arcs, sector 8 closes the ring. */
  const MaxSectorValue: int := 8

  /** The four interaction points with experiments. */
  const Ips: seq<int> := [1, 2, 5, 8]

  // ---------------------------------------------------------------------------
  // LHC_CROSSING_SCHEMES
  // ---------------------------------------------------------------------------

  const LhcInjScheme: map<string, real> := map[
    "on_x1" := -170.0, "on_sep1" := -2.0, "on_x2" := 170.0, "on_sep2" := 3.5,
    "on_x5" := 170.0, "on_sep5" := 2.0, "on_x8" := -170.0, "on_sep8" := -3.5,
    "phi_IR1" := 90.0, "phi_IR5" := 0.0]

  const LhcTopScheme: map<string, real> := map[
    "on_x1" := -160.0, "on_sep1" := -0.55, "on_x2" := 200.0, "on_sep2" := 1.4,
    "on_x5" := 160.0, "on_sep5" := 0.55, "on_oh5" := -1.8, "on_x8" := -250.0,
    "on_sep8" := -1.0, "phi_IR1" := 90.0, "phi_IR5" := 0.0]

  const HllhcInjScheme: map<string, real> := map[
    "on_x1" := 295.0, "on_sep1" := -2.0, "on_x2" := 170.0, "on_sep2" := 3.5,
    "on_x5" := 295.0, "on_sep5" := 2.0, "on_x8" := -170.0, "on_sep8" := -3.5]

  const HllhcTopScheme: map<string, real> := map[
    "on_x1" := 250.0, "on_sep1" := -0.75, "on_x2" := 170.0, "on_sep2" := 1.0,
    "on_x5" := 250.0, "on_sep5" := 0.75, "on_x8" := -200.0, "on_sep8" := -1.0,
    "on_crab1" := -190.0, "on_crab5" := -190.0]

  /** The default orbit schemes `setup_lhc_orbit` accepts. */
  const CrossingSchemes: map<string, map<string, real>> := map[
    "flat" := map[], "lhc_inj" := LhcInjScheme, "lhc_top" := LhcTopScheme,
    "hllhc_inj" := HllhcInjScheme, "hllhc_top" := HllhcTopScheme]

  /** Exactly five schemes; "flat" sets nothing (every orbit variable falls back
      to 0), and the HL-LHC schemes leave the phases to the optics. */
  lemma CrossingSchemesShape()
    ensures CrossingSchemes.Keys == {"flat", "lhc_inj", "lhc_top", "hllhc_inj", "hllhc_top"}
    ensures CrossingSchemes["flat"] == map[]
    ensures "phi_IR1" in CrossingSchemes["lhc_inj"] && "phi_IR1" in CrossingSchemes["lhc_top"]
    ensures "phi_IR1" !in CrossingSchemes["hllhc_inj"] && "phi_IR1" !in CrossingSchemes["hllhc_top"]
  {
  }

  // ---------------------------------------------------------------------------
  // IP bump flags
  // ---------------------------------------------------------------------------

  /** `[f"{prefix}{ip}" for ip in ips]`. */
  function IpFlags(prefix: string, ips: seq<int>): (r: seq<string>)
    ensures |r| == |ips| && forall k :: 0 <= k < |ips| ==> r[k] == prefix + IntToString(ips[k])
  {
    Map(ips, ip => prefix + IntToString(ip))
  }

  const CrossingAngleFlags: seq<string> :=
    IpFlags("on_x", Ips) + ["on_x1h", "on_x5v", "on_s_x1h", "on_s_x5v"]

  const ParallelSeparationFlags: seq<string> :=
    IpFlags("on_sep", Ips) + ["on_sep1v", "on_sep5h", "on_s_sep1v", "on_s_sep5h"]

  /** Offsets, in the plane of the crossing angle. */
  const IpOffsetFlags: seq<string> :=
    IpFlags("on_o", Ips) + ["on_o1h"] + IpFlags("on_oh", [1, 5]) + IpFlags("on_ov", [1, 2, 5])

  /** Angles, in the plane of the separation. */
  const AngleFlags: seq<string> := IpFlags("on_a", Ips) + ["on_a1v"]

  const ExperimentStateFlags: seq<string> := ["on_alice", "on_lhcb", "on_sol_atlas", "on_sol_cms", "on_sol_alice"]

  const Ip2SpecialFlag: seq<string> := ["on_oe2"]

  lemma OneDigit(n: nat)
    requires n < 10
    ensures IntToString(n) == [DigitChar(n)]
  {
  }

  lemma IpFlagsOfIps(prefix: string)
    ensures IpFlags(prefix, Ips) == [prefix + "1", prefix + "2", prefix + "5", prefix + "8"]
  {
    OneDigit(1);
    OneDigit(2);
    OneDigit(5);
    OneDigit(8);
  }

  /** The crossing-angle flags: one per IP in IP order, then the four
      plane-specific ones. */
  lemma CrossingAngleFlagsValue()
    ensures CrossingAngleFlags == ["on_x1", "on_x2", "on_x5", "on_x8", "on_x1h", "on_x5v", "on_s_x1h", "on_s_x5v"]
  {
    IpFlagsOfIps("on_x");
    assert "on_x" + "1" == "on_x1" && "on_x" + "2" == "on_x2" && "on_x" + "5" == "on_x5" && "on_x" + "8" == "on_x8";
  }

  lemma IpOffsetFlagsValue()
    ensures IpOffsetFlags == ["on_o1", "on_o2", "on_o5", "on_o8", "on_o1h", "on_oh1", "on_oh5", "on_ov1", "on_ov2", "on_ov5"]
  {
    IpFlagsOfIps("on_o");
    assert "on_o" + "1" == "on_o1" && "on_o" + "2" == "on_o2" && "on_o" + "5" == "on_o5" && "on_o" + "8" == "on_o8";
    OneDigit(1);
    OneDigit(2);
    OneDigit(5);
    var oh, ov := IpFlags("on_oh", [1, 5]), IpFlags("on_ov", [1, 2, 5]);
    assert oh[0] == "on_oh" + "1" == "on_oh1" && oh[1] == "on_oh" + "5" == "on_oh5";
    assert ov[0] == "on_ov" + "1" == "on_ov1" && ov[1] == "on_ov" + "2" == "on_ov2" && ov[2] == "on_ov" + "5" == "on_ov5";
    assert oh == ["on_oh1", "on_oh5"];
    assert ov == ["on_ov1", "on_ov2", "on_ov5"];
  }

  // ---------------------------------------------------------------------------
  // Triplet corrector knobs
  // ---------------------------------------------------------------------------

  const TripletSides: seq<string> := ["r", "l"]

  /** `[f"{family}.{side}{ip}" for side in ("r", "l") for ip in (1, 2, 5, 8)]`. */
  function TripletKnobs(family: string): seq<string> {
    Product(TripletSides, Ips, (side, ip) => family + "." + side + IntToString(ip))
  }

  const KqsxKnobs: seq<string> := TripletKnobs("kqsx3")
  const KcsxKnobs: seq<string> := TripletKnobs("kcsx3")
  const KcssxKnobs: seq<string> := TripletKnobs("kcssx3")
  const KcoxKnobs: seq<string> := TripletKnobs("kcox3")
  const KcosxKnobs: seq<string> := TripletKnobs("kcosx3")
  const KctxKnobs: seq<string> := TripletKnobs("kctx3")

  /** Eight names: the right side for the four IPs, then the left side. */
  lemma TripletKnobsLayout(family: string, side: nat, ip: nat)
    requires side < 2 && ip < 4
    ensures |TripletKnobs(family)| == 8
    ensures TripletKnobs(family)[4 * side + ip] == family + "." + TripletSides[side] + IntToString(Ips[ip])
  {
    ProductAt(TripletSides, Ips, (side, ip) => family + "." + side + IntToString(ip), side, ip);
    RowStartIsProduct(side, 4);
  }

  lemma KqsxKnobsExample()
    ensures KqsxKnobs[0] == "kqsx3.r1" && KqsxKnobs[7] == "kqsx3.l8"
  {
    TripletKnobsLayout("kqsx3", 0, 0);
    TripletKnobsLayout("kqsx3", 1, 3);
    OneDigit(1);
    OneDigit(8);
  }

  // ---------------------------------------------------------------------------
  // Arc corrector knobs
  // ---------------------------------------------------------------------------

  /** `f"{sector}{sector+1 if sector < _MAX_SECTOR_VALUE else 1}"`: the two IPs
      an arc joins. */
  function SectorPair(sector: int): string {
    IntToString(sector) + IntToString(if sector < MaxSectorValue then sector + 1 else 1)
  }

  /** Each of the eight arcs is named by two digits, its own and the next one
      round the ring: sector 8 wraps to "81". */
  lemma SectorPairDigits(sector: int)
    requires 1 <= sector <= MaxSectorValue
    ensures SectorPair(sector) == [DigitChar(sector), DigitChar(sector % 8 + 1)]
    ensures sector < 8 ==> SectorPair(sector) == [DigitChar(sector), DigitChar(sector + 1)]
    ensures sector == 8 ==> SectorPair(sector) == "81"
  {
    OneDigit(sector);
    OneDigit(sector % 8 + 1);
  }

  /** The sector pair determines the sector. */
  lemma SectorPairInjective(s1: int, s2: int)
    requires 1 <= s1 <= MaxSectorValue && 1 <= s2 <= MaxSectorValue
    requires SectorPair(s1) == SectorPair(s2)
    ensures s1 == s2
  {
    SectorPairDigits(s1);
    SectorPairDigits(s2);
    assert DigitChar(s1) == DigitChar(s2);
  }

  const Beams: seq<int> := [1, 2]
  const Families: seq<string> := ["f", "d"]
  const Sectors: seq<int> := [1, 2, 3, 4, 5, 6, 7, 8]

  function Pair<A, B>(a: A, b: B): (A, B) {
    (a, b)
  }

  /** Tune trims: `f"kqt{family}.a{pair}.b{beam}"`. */
  function KqtfName(beam: int, family: string, sector: int): string {
    "kqt" + family + ".a" + SectorPair(sector) + ".b" + IntToString(beam)
  }

  /** Loops: beam, then family, then sector. */
  const KqtfKnobs: seq<string> :=
    Product(Product(Beams, Families, Pair), Sectors, (bf: (int, string), s) => KqtfName(bf.0, bf.1, s))

  lemma BeamFamilyLayout(beam: nat, family: nat)
    requires beam < 2 && family < 2
    ensures var bf := Product(Beams, Families, Pair);
            |bf| == 4 && bf[2 * beam + family] == (Beams[beam], Families[family])
  {
    ProductAt(Beams, Families, Pair, beam, family);
    RowStartIsProduct(beam, 2);
    RowStartIsProduct(2, 2);
  }

  lemma KqtfKnobsLayout(beam: nat, family: nat, sector: nat)
    requires beam < 2 && family < 2 && sector < 8
    ensures |KqtfKnobs| == 32
    ensures KqtfKnobs[16 * beam + 8 * family + sector] == KqtfName(Beams[beam], Families[family], Sectors[sector])
  {
    BeamFamilyLayout(beam, family);
    ProductAt(Product(Beams, Families, Pair), Sectors, (bf: (int, string), s) => KqtfName(bf.0, bf.1, s), 2 * beam + family, sector);
    RowStartIsProduct(2 * beam + family, 8);
    RowStartIsProduct(4, 8);
  }

  /** Sextupole correctors: `f"ks{family}{beam_id}.a{pair}b{beam}"`. */
  function KsfName(beam: int, beamId: int, family: string, sector: int): string {
    "ks" + family + IntToString(beamId) + "." + ArcSuffix(beam, sector)
  }

  /** Loops: beam, then beam_id, then family, then sector. */
  const KsfKnobs: seq<string> :=
    Product(Product(Product(Beams, Beams, Pair), Families, Pair), Sectors,
            (bif: ((int, int), string), s) => KsfName(bif.0.0, bif.0.1, bif.1, s))

  lemma KsfKnobsLayout(beam: nat, beamId: nat, family: nat, sector: nat)
    requires beam < 2 && beamId < 2 && family < 2 && sector < 8
    ensures |KsfKnobs| == 64
    ensures KsfKnobs[32 * beam + 16 * beamId + 8 * family + sector]
         == KsfName(Beams[beam], Beams[beamId], Families[family], Sectors[sector])
  {
    var bif := Product(Product(Beams, Beams, Pair), Families, Pair);
    BeamsFamiliesLayout(beam, beamId, family);
    ProductAt(bif, Sectors, (bif: ((int, int), string), s) => KsfName(bif.0.0, bif.0.1, bif.1, s),
              4 * beam + 2 * beamId + family, sector);
    RowStartIsProduct(4 * beam + 2 * beamId + family, 8);
    RowStartIsProduct(8, 8);
  }

  lemma BeamsFamiliesLayout(beam: nat, beamId: nat, family: nat)
    requires beam < 2 && beamId < 2 && family < 2
    ensures var bif := Product(Product(Beams, Beams, Pair), Families, Pair);
            |bif| == 8 && bif[4 * beam + 2 * beamId + family] == ((Beams[beam], Beams[beamId]), Families[family])
  {
    var bi := Product(Beams, Beams, Pair);
    ProductAt(Beams, Beams, Pair, beam, beamId);
    RowStartIsProduct(beam, 2);
    ProductAt(bi, Families, Pair, 2 * beam + beamId, family);
    RowStartIsProduct(2 * beam + beamId, 2);
    RowStartIsProduct(4, 2);
  }

  /** The arc part of a corrector name: `f"a{pair}b{beam}"`. */
  function ArcSuffix(beam: int, sector: int): string {
    "a" + SectorPair(sector) + "b" + IntToString(beam)
  }

  /** Spool pieces and skew sextupoles: `f"{family}.a{pair}b{beam}"`. */
  function ArcName(family: string, beam: int, sector: int): string {
    family + "." + ArcSuffix(beam, sector)
  }

  /** Loops: beam, then sector. */
  function ArcKnobs(family: string): seq<string> {
    Product(Beams, Sectors, (b, s) => ArcName(family, b, s))
  }

  const KssKnobs: seq<string> := ArcKnobs("kss")
  const KcsKnobs: seq<string> := ArcKnobs("kcs")
  const KcoKnobs: seq<string> := ArcKnobs("kco")
  const KcdKnobs: seq<string> := ArcKnobs("kcd")

  lemma ArcKnobsLayout(family: string, beam: nat, sector: nat)
    requires beam < 2 && sector < 8
    ensures |ArcKnobs(family)| == 16
    ensures ArcKnobs(family)[8 * beam + sector] == ArcName(family, Beams[beam], Sectors[sector])
  {
    ProductAt(Beams, Sectors, (b, s) => ArcName(family, b, s), beam, sector);
    RowStartIsProduct(beam, 8);
  }

  /** Arc octupoles: `f"ko{family}.a{pair}b{beam}"`. */
  function KoName(beam: int, family: string, sector: int): string {
    "ko" + family + "." + ArcSuffix(beam, sector)
  }

  /** Loops: beam, then family, then sector. */
  const KoKnobs: seq<string> :=
    Product(Product(Beams, Families, Pair), Sectors, (bf: (int, string), s) => KoName(bf.0, bf.1, s))

  lemma KoKnobsLayout(beam: nat, family: nat, sector: nat)
    requires beam < 2 && family < 2 && sector < 8
    ensures |KoKnobs| == 32
    ensures KoKnobs[16 * beam + 8 * family + sector] == KoName(Beams[beam], Families[family], Sectors[sector])
  {
    BeamFamilyLayout(beam, family);
    ProductAt(Product(Beams, Families, Pair), Sectors, (bf: (int, string), s) => KoName(bf.0, bf.1, s), 2 * beam + family, sector);
    RowStartIsProduct(2 * beam + family, 8);
    RowStartIsProduct(4, 8);
  }

  /** Skew quadrupoles in the arcs' short straight sections: six groups of
      four, by insertion side for each beam, then by arc. */
  const KqsKnobs: seq<string> :=
    Map([1, 3, 5, 7], ip => "kqs.r" + IntToString(ip) + "b1")
    + Map([2, 4, 6, 8], ip => "kqs.l" + IntToString(ip) + "b1")
    + Map([2, 4, 6, 8], s => "kqs.a" + SectorPair(s) + "b1")
    + Map([2, 4, 6, 8], ip => "kqs.r" + IntToString(ip) + "b2")
    + Map([3, 5, 7, 1], ip => "kqs.l" + IntToString(ip) + "b2")
    + Map([1, 3, 5, 7], s => "kqs.a" + SectorPair(s) + "b2")

  /** 24 names, twelve per beam; the arc group of beam 1 ends with the
      wrapping sector 81. */
  lemma KqsKnobsShape()
    ensures |KqsKnobs| == 24
    ensures KqsKnobs[0] == "kqs.r1b1" && KqsKnobs[11] == "kqs.a81b1"
  {
    OneDigit(1);
    SectorPairDigits(8);
  }
}
