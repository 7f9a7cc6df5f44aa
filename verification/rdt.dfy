/** Resonance driving term helpers of pyhdtoolkit/optics/rdt.py.

    An RDT f_jklm is given as an integer or a string; the code works on
    `str(rdt)`, whose characters must be exactly four decimal digits j, k, l, m
    (the unpacking `j, k, l, m = map(int, str(rdt))` raises ValueError on any
    other length and on any character `int` rejects).
 */
module Rdt {
  import opened Errors
  import opened Text

  /** An RDT argument: a Python `int` or `str`. */
  datatype RdtArg = IntRdt(n: int) | StrRdt(s: string)

  /** `str(rdt)`. */
  function RdtText(rdt: RdtArg): string {
    match rdt
    case IntRdt(n) => IntToString(n)
    case StrRdt(s) => s
  }

  datatype Indices = Indices(j: nat, k: nat, l: nat, m: nat)

  predicate ValidIndices(ix: Indices) {
    ix.j < 10 && ix.k < 10 && ix.l < 10 && ix.m < 10
  }

  /** The four-character text of digit indices. */
  function IndicesText(ix: Indices): (t: string)
    requires ValidIndices(ix)
    ensures |t| == 4 && AllDigits(t)
  {
    [DigitChar(ix.j), DigitChar(ix.k), DigitChar(ix.l), DigitChar(ix.m)]
  }

  /** `j, k, l, m = map(int, str(rdt))`. */
  function Decompose(rdt: RdtArg): (r: Result<Indices>)
    ensures r.Ok? <==> |RdtText(rdt)| == 4 && AllDigits(RdtText(rdt))
    ensures r.Err? ==> r.error == ValueError
    ensures r.Ok? ==> ValidIndices(r.value) && IndicesText(r.value) == RdtText(rdt)
  {
    var t := RdtText(rdt);
    if |t| == 4 && AllDigits(t) then
      Ok(Indices(DigitValue(t[0]), DigitValue(t[1]), DigitValue(t[2]), DigitValue(t[3])))
    else Err(ValueError)
  }

  /** Writing four digit indices and decomposing the text gives them back. */
  lemma DecomposeOfIndicesText(ix: Indices)
    requires ValidIndices(ix)
    ensures Decompose(StrRdt(IndicesText(ix))) == Ok(ix)
  {
  }

  /** An integer RDT with a leading zero index loses that zero in `str`, so
      the decomposition fails: f0110 must be passed as the string "0110". */
  lemma IntegerRdtBelowThousandFails(n: nat)
    requires n < 1000
    ensures Decompose(IntRdt(n)) == Err(ValueError)
  {
    NatToStringShort(n);
  }

  lemma NatToStringShort(n: nat)
    requires n < 1000
    ensures |NatToString(n)| <= 3
  {
    if n >= 10 {
      assert n / 10 < 100;
      if n / 10 >= 10 {
        assert n / 10 / 10 < 10;
      }
    }
  }

  // ---------------------------------------------------------------------------
  // rdt_to_order_and_type
  // ---------------------------------------------------------------------------

  /** "normal" when l + m is even, "skew" otherwise. */
  function RdtType(ix: Indices): string {
    if (ix.l + ix.m) % 2 == 0 then "normal" else "skew"
  }

  /** The `orders` table: magnet names for orders 1..8. */
  const OrderNames: map<int, string> := map[
    1 := "dipole", 2 := "quadrupole", 3 := "sextupole", 4 := "octupole",
    5 := "decapole", 6 := "dodecapole", 7 := "tetradecapole", 8 := "hexadecapole"]

  /** `orders[n]`, KeyError outside 1..8. */
  function OrderName(n: int): (r: Result<string>)
    ensures r.Ok? <==> 1 <= n <= 8
    ensures r.Err? ==> r.error == KeyError(IntToString(n))
  {
    if n in OrderNames then Ok(OrderNames[n]) else Err(KeyError(IntToString(n)))
  }

  /** `rdt_to_order_and_type(rdt)`: "{type}_{order}". */
  function RdtToOrderAndType(rdt: RdtArg): (r: Result<string>)
    ensures Decompose(rdt).Err? ==> r == Err(ValueError)
    ensures Decompose(rdt).Ok? ==>
              var ix := Decompose(rdt).value;
              var order := ix.j + ix.k + ix.l + ix.m;
              (r.Ok? <==> 1 <= order <= 8) &&
              (r.Err? ==> r.error == KeyError(IntToString(order))) &&
              (r.Ok? ==> r.value == RdtType(ix) + "_" + OrderNames[order])
  {
    var ix :- Decompose(rdt);
    var name :- OrderName(ix.j + ix.k + ix.l + ix.m);
    Ok(RdtType(ix) + "_" + name)
  }

  /** The order names are distinct. */
  lemma OrderNamesInjective(a: int, b: int)
    requires a in OrderNames && b in OrderNames && OrderNames[a] == OrderNames[b]
    ensures a == b
  {
  }

  /** The result determines the parity of l + m and the order j + k + l + m:
      two RDTs get the same description exactly when both agree. */
  lemma RdtToOrderAndTypeDistinguishes(r1: RdtArg, r2: RdtArg)
    requires RdtToOrderAndType(r1).Ok? && RdtToOrderAndType(r2).Ok?
    ensures var ix1, ix2 := Decompose(r1).value, Decompose(r2).value;
            RdtToOrderAndType(r1) == RdtToOrderAndType(r2) <==>
              ((ix1.l + ix1.m) % 2 == (ix2.l + ix2.m) % 2 &&
               ix1.j + ix1.k + ix1.l + ix1.m == ix2.j + ix2.k + ix2.l + ix2.m)
  {
    var ix1, ix2 := Decompose(r1).value, Decompose(r2).value;
    var o1, o2 := ix1.j + ix1.k + ix1.l + ix1.m, ix2.j + ix2.k + ix2.l + ix2.m;
    var s1, s2 := RdtToOrderAndType(r1).value, RdtToOrderAndType(r2).value;
    if s1 == s2 {
      var t1, t2 := RdtType(ix1), RdtType(ix2);
      // "normal_" and "skew_" differ in their first character.
      assert s1[0] == t1[0] && s2[0] == t2[0];
      assert t1 == t2;
      assert s1[|t1| + 1..] == OrderNames[o1];
      assert s2[|t2| + 1..] == OrderNames[o2];
      OrderNamesInjective(o1, o2);
    }
  }

  /** An integer RDT of four digits, the first non-zero, decomposes into its
      decimal digits. */
  lemma IntegerRdtDecomposes(j: nat, k: nat, l: nat, m: nat)
    requires 1 <= j < 10 && k < 10 && l < 10 && m < 10
    ensures Decompose(IntRdt(1000 * j + 100 * k + 10 * l + m)) == Ok(Indices(j, k, l, m))
  {
    var n := 1000 * j + 100 * k + 10 * l + m;
    var n1, n2 := 100 * j + 10 * k + l, 10 * j + k;
    assert n / 10 == n1 && n % 10 == m;
    assert n1 / 10 == n2 && n1 % 10 == l;
    assert n2 / 10 == j && n2 % 10 == k;
    assert NatToString(n2) == [DigitChar(j), DigitChar(k)];
    assert NatToString(n1) == [DigitChar(j), DigitChar(k), DigitChar(l)];
    assert NatToString(n) == [DigitChar(j), DigitChar(k), DigitChar(l), DigitChar(m)];
    assert IndicesText(Indices(j, k, l, m)) == NatToString(n);
  }

  lemma RdtToOrderAndTypeExampleInteger()
    ensures RdtToOrderAndType(IntRdt(1001)) == Ok("skew_quadrupole")
  {
    IntegerRdtDecomposes(1, 0, 0, 1);
    assert Decompose(IntRdt(1001)) == Ok(Indices(1, 0, 0, 1));
    assert RdtType(Indices(1, 0, 0, 1)) == "skew";
    assert "skew" + "_" + "quadrupole" == "skew_quadrupole";
  }

  lemma RdtToOrderAndTypeExampleSkew()
    ensures RdtToOrderAndType(StrRdt("0030")) == Ok("skew_sextupole")
  {
    assert Decompose(StrRdt("0030")) == Ok(Indices(0, 0, 3, 0));
    assert RdtType(Indices(0, 0, 3, 0)) == "skew";
    assert "skew" + "_" + "sextupole" == "skew_sextupole";
  }

  lemma RdtToOrderAndTypeExampleNormal()
    ensures RdtToOrderAndType(StrRdt("0011")) == Ok("normal_quadrupole")
  {
    assert Decompose(StrRdt("0011")) == Ok(Indices(0, 0, 1, 1));
    assert "normal" + "_" + "quadrupole" == "normal_quadrupole";
  }

  /** Order 10 has no name. */
  lemma RdtToOrderAndTypeExampleTooHigh()
    ensures RdtToOrderAndType(StrRdt("5500")) == Err(KeyError("10"))
  {
    assert Decompose(StrRdt("5500")) == Ok(Indices(5, 5, 0, 0));
    assert NatToString(10) == "10" by {
      assert NatToString(1) == "1";
    }
  }

  // ---------------------------------------------------------------------------
  // determine_rdt_line
  // ---------------------------------------------------------------------------

  type Line = (int, int, int)

  /** `determine_rdt_line(rdt, plane)`: the spectral line of the RDT in the
      plane "X" or "Y" (case-sensitive); decomposition errors come first. */
  function DetermineRdtLine(rdt: RdtArg, plane: string): (r: Result<Line>)
    ensures Decompose(rdt).Err? ==> r == Err(ValueError)
    ensures Decompose(rdt).Ok? ==> (r.Ok? <==> plane == "X" || plane == "Y")
    ensures Decompose(rdt).Ok? && r.Err? ==> r.error == KeyError(plane)
    ensures r.Ok? ==> r.value.2 == 0
  {
    var ix :- Decompose(rdt);
    var lines := map["X" := (1 - ix.j + ix.k, ix.m - ix.l, 0), "Y" := (ix.k - ix.j, 1 - ix.l + ix.m, 0)];
    if plane in lines then Ok(lines[plane]) else Err(KeyError(plane))
  }

  /** The two planes see the same RDT one unit apart: the X line is the Y line
      shifted by (+1, -1). */
  lemma RdtLinesOfBothPlanes(rdt: RdtArg)
    requires Decompose(rdt).Ok?
    ensures var x, y := DetermineRdtLine(rdt, "X").value, DetermineRdtLine(rdt, "Y").value;
            x.0 == y.0 + 1 && x.1 == y.1 - 1
  {
  }

  /** A line is the offset of the indices from the plane's own frequency:
      (k - j, m - l) plus one unit in the plane's own coordinate. */
  lemma RdtLineIsIndexDifference(rdt: RdtArg)
    requires Decompose(rdt).Ok?
    ensures var ix := Decompose(rdt).value;
            DetermineRdtLine(rdt, "X") == Ok((1 + ix.k - ix.j, ix.m - ix.l, 0)) &&
            DetermineRdtLine(rdt, "Y") == Ok((ix.k - ix.j, 1 + ix.m - ix.l, 0))
  {
  }

  lemma DetermineRdtLineExamples()
    ensures DetermineRdtLine(StrRdt("1001"), "X") == Ok((0, 1, 0))
    ensures DetermineRdtLine(StrRdt("1001"), "Y") == Ok((-1, 2, 0))
    ensures DetermineRdtLine(StrRdt("1001"), "x") == Err(KeyError("x"))
    ensures DetermineRdtLine(StrRdt("101"), "X") == Err(ValueError)
  {
  }
}
