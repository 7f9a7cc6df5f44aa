/** The tune-diagram integer maths of pyhdtoolkit/plotting/tune.py:
    `farey_sequence` and the order check and style tables of
    `plot_tune_diagram`.

    A fraction p/q is the pair `(p, q)`; fractions are compared by cross
    multiplication (denominators are positive throughout). The Farey sequence
    of order n lists the reduced fractions in [0, 1] with denominator at most
    n, in ascending order.
 */
module TuneDiagram {
  import opened Errors
  import NumberOperations
  import Text

  type Fraction = (int, int)

  /** p1/q1 < p2/q2 for positive denominators. */
  predicate Less(x: Fraction, y: Fraction) {
    x.0 * y.1 < y.0 * x.1
  }

  /** p1/q1 == p2/q2 for positive denominators. */
  predicate SameValue(x: Fraction, y: Fraction) {
    x.0 * y.1 == y.0 * x.1
  }

  /** Neighbours in a Farey sequence: determinant one. */
  predicate Adjacent(x: Fraction, y: Fraction) {
    x.1 * y.0 - x.0 * y.1 == 1
  }

  /** A fraction the Farey sequence of order n has to contain (by value). */
  predicate InUnitRange(x: Fraction, n: int) {
    1 <= x.1 <= n && 0 <= x.0 <= x.1
  }

  /** The shape of the generator's output: from 0/1 to 1/1, every term in
      [0, 1] with denominator at most n, neighbours with determinant one and
      denominators summing beyond n. */
  predicate FareyChain(r: seq<Fraction>, n: int) {
    n >= 1 && |r| >= 1 && r[0] == (0, 1) && r[|r| - 1] == (1, 1) &&
    (forall i :: 0 <= i < |r| ==> InUnitRange(r[i], n)) &&
    (forall i :: 0 <= i < |r| - 1 ==> Adjacent(r[i], r[i + 1]) && r[i].1 + r[i + 1].1 > n)
  }

  // ---------------------------------------------------------------------------
  // Arithmetic helpers
  // ---------------------------------------------------------------------------

  lemma MulAtLeast(x: int, b: int)
    ensures x >= 1 && b >= 0 ==> b * x >= b
  {
    if x >= 1 && b >= 0 {
      assert b * x == b * (x - 1) + b;
      assert b * (x - 1) >= 0;
    }
  }

  lemma MulLess(x: int, y: int, z: int)
    requires x < y && z > 0
    ensures x * z < y * z
  {
    assert y * z - x * z == (y - x) * z;
    MulAtLeast(y - x, z);
  }

  /** Ordering of fractions is transitive. */
  lemma LessTrans(x: Fraction, y: Fraction, z: Fraction)
    requires x.1 > 0 && y.1 > 0 && z.1 > 0
    requires Less(x, y) && Less(y, z)
    ensures Less(x, z)
  {
    MulLess(x.0 * y.1, y.0 * x.1, z.1);
    MulLess(y.0 * z.1, z.0 * y.1, x.1);
    var e := x.0 * z.1 - z.0 * x.1;
    assert e * y.1 < 0;
    MulAtLeast(e, y.1);
  }

  /** Nothing with a denominator below b + d lies strictly between two Farey
      neighbours a/b and c/d. */
  lemma Gap(x: Fraction, y: Fraction, p: Fraction)
    requires x.1 >= 1 && y.1 >= 1 && p.1 >= 1 && Adjacent(x, y)
    ensures Less(x, p) && Less(p, y) ==> p.1 >= x.1 + y.1
  {
    var (a, b) := x;
    var (c, d) := y;
    var (pp, q) := p;
    if Less(x, p) && Less(p, y) {
      var u := c * q - pp * d;
      var v := pp * b - a * q;
      assert q == q * (b * c - a * d);
      assert q == b * u + d * v;
      MulAtLeast(u, b);
      MulAtLeast(v, d);
    }
  }

  // ---------------------------------------------------------------------------
  // farey_sequence
  // ---------------------------------------------------------------------------

  /** The fractions of [0, 1] with denominator at most n above a/b: what is
      left for the generator to emit. */
  function Above(n: int, x: Fraction): set<Fraction> {
    set p: int, q: int | 1 <= q <= n && 0 <= p <= q && x.0 * q < p * x.1 :: (p, q)
  }

  /** One step of the recurrence: with k = (n + b) div d, the next term after
      a/b, c/d is (k*c - a)/(k*d - b); it stays a Farey neighbour. */
  lemma StepKeepsNeighbours(n: int, a: int, b: int, c: int, d: int, k: int)
    requires 1 <= b && 1 <= d <= n && b + d > n && b * c - a * d == 1
    requires k == (n + b) / d
    ensures 1 <= k * d - b <= n && d + (k * d - b) > n
    ensures d * (k * c - a) - c * (k * d - b) == 1
  {
    assert n + b == k * d + (n + b) % d;
    assert d * (k * c - a) - c * (k * d - b) == b * c - a * d;
  }

  /** Before the last term the successor is at most 1, and at 1/1 the
      successor's numerator is n + 1. */
  lemma SuccessorBound(n: int, a: int, b: int, c: int, d: int)
    requires 0 <= a <= b && 1 <= b && 1 <= d <= n && b + d > n && b * c - a * d == 1
    ensures 1 <= c
    ensures a < b ==> c <= d
    ensures a == b ==> a == 1 && b == 1 && c == n + 1
  {
    MulAtLeast(c, b);
    assert b * c == 1 + a * d;
    MulAtLeast(d, a);
    if a < b {
      assert 1 == b * (c - d) + (b - a) * d;
      MulAtLeast(d, b - a);
      MulAtLeast(c - d, b);
    }
    if a == b {
      assert b * (c - d) == 1;
      MulAtLeast(c - d, b);
      MulAtLeast(b, c - d);
    }
  }

  /** The emitted term a/b leaves the set of fractions still to come. */
  lemma AboveShrinks(n: int, a: int, b: int, c: int, d: int)
    requires 0 <= a < b && 1 <= b && 1 <= d <= n && 0 <= c <= d && b * c - a * d == 1
    ensures Above(n, (c, d)) < Above(n, (a, b))
    ensures |Above(n, (c, d))| < |Above(n, (a, b))|
  {
    forall f | f in Above(n, (c, d)) ensures f in Above(n, (a, b)) {
      LessTrans((a, b), (c, d), f);
    }
    assert (c, d) in Above(n, (a, b));
    assert (c, d) !in Above(n, (c, d));
    var big := Above(n, (a, b));
    SubsetCard(Above(n, (c, d)), big - {(c, d)});
    assert |big - {(c, d)}| == |big| - 1;
  }

  lemma {:induction false} SubsetCard<T>(x: set<T>, y: set<T>)
    requires x <= y
    ensures |x| <= |y|
    decreases |x|
  {
    if x != {} {
      var e :| e in x;
      SubsetCard(x - {e}, y - {e});
    }
  }

  /** Everything one turn of the loop needs about the current window
      a/b, c/d (with c <= n, so a/b is not yet the last term). */
  lemma Step(n: int, a: int, b: int, c: int, d: int, k: int)
    requires 0 <= a <= b && 1 <= b <= n && 1 <= d <= n && b + d > n && b * c - a * d == 1
    requires c <= n && k == (n + b) / d
    ensures InUnitRange((c, d), n) && Adjacent((a, b), (c, d))
    ensures 1 <= k * d - b <= n && d + (k * d - b) > n
    ensures d * (k * c - a) - c * (k * d - b) == 1
    ensures |Above(n, (c, d))| < |Above(n, (a, b))|
  {
    SuccessorBound(n, a, b, c, d);
    AboveShrinks(n, a, b, c, d);
    StepKeepsNeighbours(n, a, b, c, d, k);
  }

  /** `farey_sequence(order)`. `int((order + b) / d)` is the floor quotient
      of two positive integers, as float division is exact on them below 2^53. */
  method FareySequence(order: int) returns (r: seq<Fraction>)
    ensures |r| >= 1 && r[0] == (0, 1)
    ensures order < 1 ==> r == [(0, 1)]
    ensures order >= 1 ==> FareyChain(r, order)
    ensures order == 1 ==> r == [(0, 1), (1, 1)]
    ensures order == 2 ==> r == [(0, 1), (1, 2), (1, 1)]
  {
    r := [(0, 1)];
    if order < 1 {
      // c = 1 > order: the loop body never runs.
      return;
    }
    var n := order;
    var a, b, c, d := 0, 1, 1, n;
    while c <= n
      invariant |r| >= 1 && r[0] == (0, 1) && r[|r| - 1] == (a, b)
      invariant 0 <= a <= b && 1 <= b <= n
      invariant 1 <= d <= n && b + d > n && b * c - a * d == 1
      invariant forall i :: 0 <= i < |r| ==> InUnitRange(r[i], n)
      invariant forall i :: 0 <= i < |r| - 1 ==> Adjacent(r[i], r[i + 1]) && r[i].1 + r[i + 1].1 > n
      decreases |Above(n, (a, b))|
    {
      var k := (n + b) / d;
      Step(n, a, b, c, d, k);
      r := r + [(c, d)];
      a, b, c, d := c, d, k * c - a, k * d - b;
    }
    SuccessorBound(n, a, b, c, d);
    FareyChainSmallOrders(r, n);
  }

  /** Along a Farey chain the terms strictly increase. */
  lemma {:induction false} FareyChainIncreasing(r: seq<Fraction>, n: int, i: nat, j: nat)
    requires FareyChain(r, n)
    requires i < j < |r|
    ensures Less(r[i], r[j])
    decreases j - i
  {
    if j > i + 1 {
      FareyChainIncreasing(r, n, i, j - 1);
      LessTrans(r[i], r[j - 1], r[j]);
    }
  }

  /** The last index whose term is at most p/q, found by walking right. */
  lemma {:induction false} Bracket(r: seq<Fraction>, n: int, p: Fraction, j: nat) returns (i: nat)
    requires FareyChain(r, n) && j < |r| && !Less(p, r[j])
    ensures j <= i < |r| && !Less(p, r[i])
    ensures i < |r| - 1 ==> Less(p, r[i + 1])
    decreases |r| - j
  {
    if j == |r| - 1 || Less(p, r[j + 1]) {
      i := j;
    } else {
      i := Bracket(r, n, p, j + 1);
    }
  }

  /** Every fraction of [0, 1] with denominator at most n occurs, by value. */
  lemma FareyChainComplete(r: seq<Fraction>, n: int, p: Fraction)
    requires FareyChain(r, n) && InUnitRange(p, n)
    ensures exists i :: 0 <= i < |r| && SameValue(r[i], p)
  {
    var i := Bracket(r, n, p, 0);
    if i < |r| - 1 {
      Gap(r[i], r[i + 1], p);
    }
    assert SameValue(r[i], p);
  }

  /** Every term is in lowest terms: a common divisor of numerator and
      denominator divides 1. */
  lemma FareyChainReduced(r: seq<Fraction>, n: int, i: nat, g: int)
    requires FareyChain(r, n) && i < |r|
    requires NumberOperations.Divides(g, r[i].0) && NumberOperations.Divides(g, r[i].1)
    ensures NumberOperations.Divides(g, 1)
  {
    if i == 0 {
      assert r[i].1 == 1;
    } else {
      var (a, b) := r[i - 1];
      var (c, d) := r[i];
      assert b * c - a * d == 1;
      var kc :| c == kc * g;
      var kd :| d == kd * g;
      assert 1 == (b * kc - a * kd) * g;
    }
  }

  /** The chains of orders 1 and 2. */
  lemma FareyChainSmallOrders(r: seq<Fraction>, n: int)
    requires FareyChain(r, n)
    ensures n == 1 ==> r == [(0, 1), (1, 1)]
    ensures n == 2 ==> r == [(0, 1), (1, 2), (1, 1)]
  {
    if n == 1 {
      FareyChainOrderOne();
      FareyChainUnique(r, [(0, 1), (1, 1)], 1);
    } else if n == 2 {
      FareyChainOrderTwo();
      FareyChainUnique(r, [(0, 1), (1, 2), (1, 1)], 2);
    }
  }

  lemma FareyChainOrderOne()
    ensures FareyChain([(0, 1), (1, 1)], 1)
  {
    var r: seq<Fraction> := [(0, 1), (1, 1)];
    assert Adjacent(r[0], r[1]);
  }

  lemma FareyChainOrderTwo()
    ensures FareyChain([(0, 1), (1, 2), (1, 1)], 2)
  {
    var r: seq<Fraction> := [(0, 1), (1, 2), (1, 1)];
    assert Adjacent(r[0], r[1]) && Adjacent(r[1], r[2]);
  }

  /** Two right neighbours of x with the same value are the same pair. */
  lemma NeighbourUnique(x: Fraction, y: Fraction, z: Fraction)
    requires x.1 >= 1 && Adjacent(x, y) && Adjacent(x, z) && SameValue(y, z)
    ensures y == z
  {
    var (a, b) := x;
    var (c, d) := y;
    var (c', d') := z;
    assert b * (c - c') - a * (d - d') == 0;
    assert (c - c') * d == c * (d - d');
    assert (d - d') * (b * c - a * d) == d * (b * (c - c') - a * (d - d'));
    assert d - d' == 0;
    assert b * (c - c') == 0;
  }

  /** After a common term, two chains of the same order continue alike:
      neither successor can lie strictly before the other. */
  lemma NextIsDetermined(r: seq<Fraction>, s: seq<Fraction>, n: int, i: nat)
    requires FareyChain(r, n) && FareyChain(s, n)
    requires 0 < i < |r| && i < |s| && r[i - 1] == s[i - 1]
    ensures r[i] == s[i]
  {
    var x := r[i - 1];
    Gap(x, r[i], s[i]);
    Gap(x, s[i], r[i]);
    NeighbourUnique(x, r[i], s[i]);
  }

  /** In a chain 1/1 occurs only as the last term. */
  lemma OneIsLast(s: seq<Fraction>, n: int)
    requires FareyChain(s, n)
    ensures forall k :: 0 <= k < |s| - 1 ==> s[k] != (1, 1)
  {
    forall k | 0 <= k < |s| - 1 ensures s[k] != (1, 1) {
      FareyChainIncreasing(s, n, k, |s| - 1);
    }
  }

  lemma {:induction false} FareyChainPrefix(r: seq<Fraction>, s: seq<Fraction>, n: int, i: nat)
    requires FareyChain(r, n) && FareyChain(s, n)
    requires i < |r| && i < |s|
    ensures r[..i + 1] == s[..i + 1]
    decreases i
  {
    if i > 0 {
      FareyChainPrefix(r, s, n, i - 1);
      assert r[i - 1] == s[i - 1] by {
        assert r[..i][i - 1] == s[..i][i - 1];
      }
      NextIsDetermined(r, s, n, i);
      assert r[..i + 1] == r[..i] + [r[i]];
      assert s[..i + 1] == s[..i] + [s[i]];
    }
  }

  /** There is only one chain of each order: the generator's output is the
      Farey sequence, whatever route computes it. */
  lemma FareyChainUnique(r: seq<Fraction>, s: seq<Fraction>, n: int)
    requires FareyChain(r, n) && FareyChain(s, n)
    ensures r == s
  {
    var m := if |r| <= |s| then |r| else |s|;
    FareyChainPrefix(r, s, n, m - 1);
    assert r[m - 1] == s[m - 1] by {
      assert r[..m][m - 1] == s[..m][m - 1];
    }
    OneIsLast(r, n);
    OneIsLast(s, n);
    assert |r| == |s|;
    assert r == r[..m] && s == s[..m];
  }

  // ---------------------------------------------------------------------------
  // plot_tune_diagram: order check and style tables
  // ---------------------------------------------------------------------------

  datatype Color = Named(name: string) | Rgb(red: real, green: real, blue: real)

  /** The keyword arguments one order's resonance lines are drawn with. */
  datatype LineStyle = LineStyle(order: int, alpha: real, linestyle: string, linewidth: real, color: Color, legend: string)

  const OrderToAlpha: map<int, real> := map[1 := 1.0, 2 := 0.75, 3 := 0.65, 4 := 0.55, 5 := 0.45, 6 := 0.35]

  const OrderToRgb: map<int, Color> := map[
    1 := Rgb(152.0 / 255.0, 52.0 / 255.0, 48.0 / 255.0),
    2 := Rgb(57.0 / 255.0, 119.0 / 255.0, 175.0 / 255.0),
    3 := Rgb(239.0 / 255.0, 133.0 / 255.0, 54.0 / 255.0),
    4 := Rgb(82.0 / 255.0, 157.0 / 255.0, 62.0 / 255.0),
    5 := Rgb(197.0 / 255.0, 57.0 / 255.0, 50.0 / 255.0),
    6 := Rgb(141.0 / 255.0, 107.0 / 255.0, 184.0 / 255.0)]

  const OrderToLinestyle: map<int, string> :=
    map[1 := "solid", 2 := "solid", 3 := "solid", 4 := "dashed", 5 := "dashed", 6 := "dashed"]

  const OrderToLinewidth: map<int, real> := map[1 := 2.0, 2 := 1.75, 3 := 1.5, 4 := 1.25, 5 := 1.0, 6 := 0.75]

  const OrderToLabel: map<int, string> :=
    map[1 := "1st order", 2 := "2nd order", 3 := "3rd order", 4 := "4th order", 5 := "5th order", 6 := "6th order"]

  /** Every style table is defined exactly on the orders 1 .. 6. */
  lemma TablesCoverOrders(order: int)
    ensures order in OrderToAlpha <==> 1 <= order <= 6
    ensures order in OrderToLinestyle <==> 1 <= order <= 6
    ensures order in OrderToLinewidth <==> 1 <= order <= 6
    ensures order in OrderToRgb <==> 1 <= order <= 6
    ensures order in OrderToLabel <==> 1 <= order <= 6
  {
  }

  /** The tables' entries for one order. */
  function OrderStyle(order: int, differentiate: bool): (st: LineStyle)
    requires 1 <= order <= 6
    ensures st.order == order && st.legend == OrderToLabel[order]
    ensures st.color == Named("blue") <==> !differentiate
  {
    TablesCoverOrders(order);
    LineStyle(order, OrderToAlpha[order], OrderToLinestyle[order], OrderToLinewidth[order],
              if differentiate then OrderToRgb[order] else Named("blue"), OrderToLabel[order])
  }

  /** Style of one order, looked up in the tables: KeyError for an order none
      of them holds (they all hold exactly 1 .. 6, `TablesCoverOrders`). */
  function StyleFor(order: int, differentiate: bool): (st: Result<LineStyle>)
    ensures st.Ok? <==> 1 <= order <= 6
    ensures st.Err? ==> st.error == KeyError(Text.IntToString(order))
    ensures st.Ok? ==> st.value.order == order && st.value.legend == OrderToLabel[order]
    ensures st.Ok? ==> (st.value.color == Named("blue") <==> !differentiate)
  {
    if 1 <= order <= 6 then Ok(OrderStyle(order, differentiate))
    else Err(KeyError(Text.IntToString(order)))
  }

  /** The styles, from `max_order` down to 1, for orders whose lines
      `plot_tune_diagram` draws (highest first, so the low orders end up on top);
      ValueError outside 1..6. */
  function PlotTuneDiagramStyles(maxOrder: int, differentiate: bool): (r: Result<seq<LineStyle>>)
    ensures r.Ok? <==> 1 <= maxOrder <= 6
    ensures r.Err? ==> r.error == ValueError
    ensures r.Ok? ==> |r.value| == maxOrder
    ensures r.Ok? ==> forall i :: 0 <= i < |r.value| ==>
              StyleFor(maxOrder - i, differentiate) == Ok(r.value[i])
  {
    if maxOrder > 6 || maxOrder < 1 then Err(ValueError)
    else Ok(StylesDownFrom(maxOrder, differentiate))
  }

  /** The styles of orders `order`, `order - 1`, ..., 1. */
  function StylesDownFrom(order: nat, differentiate: bool): (r: seq<LineStyle>)
    requires order <= 6
    ensures |r| == order
    ensures forall i :: 0 <= i < order ==> r[i] == OrderStyle(order - i, differentiate)
    decreases order
  {
    if order == 0 then []
    else [OrderStyle(order, differentiate)] + StylesDownFrom(order - 1, differentiate)
  }

  /** Lower orders are drawn more opaque and thicker, and solid up to order 3. */
  lemma StylesEmphasiseLowOrders(o1: int, o2: int)
    requires 1 <= o1 < o2 <= 6
    ensures OrderToAlpha[o1] > OrderToAlpha[o2] && OrderToLinewidth[o1] > OrderToLinewidth[o2]
    ensures OrderToLinestyle[o1] == "solid" <==> o1 <= 3
  {
  }
}
