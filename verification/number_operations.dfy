/** `NumberOperations` from pyhdtoolkit/utils/operations.py, on integers
    (`clamp_number` on reals).

    Divisibility is the usual existential notion, `Divides(d, n)` when `n` is a
    multiple of `d`; `gcd` and `lcm` are characterised against it. Python's
    `reduce` over an empty sequence raises TypeError and returns the single
    element of a one-element sequence unchanged; both behaviours are kept.
 */
module NumberOperations {
  import opened Errors
  import ListOperations

  // ---------------------------------------------------------------------------
  // clamp_number
  // ---------------------------------------------------------------------------

  function Max(a: real, b: real): real {
    if a >= b then a else b
  }

  function Min(a: real, b: real): real {
    if a <= b then a else b
  }

  function Dist(a: real, b: real): real {
    if a >= b then a - b else b - a
  }

  /** `clamp_number(num, a_val, b_val)`: the point of the closed range spanned by
      the two bounds that is nearest to `num`. */
  function ClampNumber(num: real, a: real, b: real): (r: real)
    ensures Min(a, b) <= r <= Max(a, b)
    ensures Min(a, b) <= num <= Max(a, b) ==> r == num
    ensures forall y :: Min(a, b) <= y <= Max(a, b) ==> Dist(r, num) <= Dist(y, num)
  {
    Max(Min(num, Max(a, b)), Min(a, b))
  }

  /** The order of the two bounds does not matter. */
  lemma ClampNumberSymmetric(num: real, a: real, b: real)
    ensures ClampNumber(num, a, b) == ClampNumber(num, b, a)
  {
  }

  /** Clamping an already clamped number changes nothing. */
  lemma ClampNumberIdempotent(num: real, a: real, b: real)
    ensures ClampNumber(ClampNumber(num, a, b), a, b) == ClampNumber(num, a, b)
  {
  }

  // ---------------------------------------------------------------------------
  // Divisibility
  // ---------------------------------------------------------------------------

  ghost predicate Divides(d: int, n: int) {
    exists k :: n == k * d
  }

  function Abs(x: int): nat {
    if x < 0 then -x else x
  }

  lemma DividesAbs(d: int, n: int)
    ensures Divides(d, n) <==> Divides(d, Abs(n))
  {
    if Divides(d, n) {
      var k :| n == k * d;
      assert Abs(n) == (if n < 0 then -k else k) * d;
    }
    if Divides(d, Abs(n)) {
      var k :| Abs(n) == k * d;
      assert n == (if n < 0 then -k else k) * d;
    }
  }

  lemma DividesTrans(a: int, b: int, c: int)
    requires Divides(a, b) && Divides(b, c)
    ensures Divides(a, c)
  {
    var k1 :| b == k1 * a;
    var k2 :| c == k2 * b;
    assert c == (k2 * k1) * a;
  }

  lemma DividesRefl(a: int)
    ensures Divides(a, a) && Divides(a, 0)
  {
    assert a == 1 * a;
    assert 0 == 0 * a;
  }

  /** Cancelling a non-zero factor. */
  lemma MulCancel(a: int, b: int, g: int)
    requires g != 0 && a * g == b * g
    ensures a == b
  {
    assert (a - b) * g == 0;
  }

  lemma MulBound(j: int, g: int)
    ensures j >= 1 && g >= 1 ==> j * g >= g
  {
    if j >= 1 && g >= 1 {
      assert j * g == (j - 1) * g + g;
      assert (j - 1) * g >= 0;
    }
  }

  /** The only multiple of `g` strictly inside `(-|g|, |g|)` is zero. */
  lemma MultipleInRange(j: int, g: int)
    requires g != 0 && -(Abs(g) as int) < j * g < Abs(g)
    ensures j == 0
  {
    MulBound(j, g);
    MulBound(-j, g);
    MulBound(j, -g);
    MulBound(-j, -g);
    assert (-j) * g == -(j * g) && j * (-g) == -(j * g) && (-j) * (-g) == j * g;
  }

  lemma DivExact(k: int, g: int)
    requires g != 0
    ensures (k * g) / g == k
  {
    var q := (k * g) / g;
    var m := (k * g) % g;
    assert k * g == q * g + m;
    assert m == (k - q) * g;
    MultipleInRange(k - q, g);
  }

  // ---------------------------------------------------------------------------
  // math.gcd and greatest_common_divisor
  // ---------------------------------------------------------------------------

  /** Euclid's algorithm on non-negative integers. */
  function GcdNat(a: nat, b: nat): (g: nat)
    ensures g == 0 <==> a == 0 && b == 0
    decreases b
  {
    if b == 0 then a else GcdNat(b, a % b)
  }

  lemma {:induction false} GcdNatDivides(a: nat, b: nat)
    ensures Divides(GcdNat(a, b), a) && Divides(GcdNat(a, b), b)
    decreases b
  {
    var g := GcdNat(a, b);
    if b == 0 {
      DividesRefl(a);
    } else {
      var q, r := a / b, a % b;
      assert g == GcdNat(b, r);
      GcdNatDivides(b, r);
      var k1 :| b == k1 * g;
      var k2 :| r == k2 * g;
      DivMod(a, b);
      LinearCombination(q, b, r, k1, k2, g);
      assert a == (q * k1 + k2) * g;
    }
  }

  lemma DivMod(a: nat, b: nat)
    requires b > 0
    ensures a == (a / b) * b + a % b
  {
  }

  lemma LinearCombination(q: int, b: int, r: int, k1: int, k2: int, g: int)
    requires b == k1 * g && r == k2 * g
    ensures q * b + r == (q * k1 + k2) * g
  {
  }

  lemma {:induction false} GcdNatGreatest(a: nat, b: nat, d: int)
    requires Divides(d, a) && Divides(d, b)
    ensures Divides(d, GcdNat(a, b))
    decreases b
  {
    if b != 0 {
      var ka :| a == ka * d;
      var kb :| b == kb * d;
      var q := a / b;
      assert a % b == a - q * b;
      assert a % b == (ka - q * kb) * d;
      GcdNatGreatest(b, a % b, d);
    }
  }

  lemma BezoutStep(a: int, b: int, q: int, r: int, u: int, v: int, g: int)
    requires a == q * b + r && u * b + v * r == g
    ensures v * a + (u - v * q) * b == g
  {
  }

  /** Bezout coefficients from the extended Euclidean algorithm. */
  function Bezout(a: nat, b: nat): (p: (int, int))
    ensures p.0 * a + p.1 * b == GcdNat(a, b)
    decreases b
  {
    if b == 0 then (1, 0)
    else
      var p' := Bezout(b, a % b);
      var q := a / b;
      DivMod(a, b);
      BezoutStep(a, b, q, a % b, p'.0, p'.1, GcdNat(b, a % b));
      (p'.1, p'.0 - p'.1 * q)
  }

  /** `math.gcd(a, b)`: always non-negative, `gcd(0, 0) == 0`. */
  function Gcd(a: int, b: int): (g: nat)
    ensures g == 0 <==> a == 0 && b == 0
  {
    GcdNat(Abs(a), Abs(b))
  }

  lemma GcdDivides(a: int, b: int)
    ensures Divides(Gcd(a, b), a) && Divides(Gcd(a, b), b)
  {
    GcdNatDivides(Abs(a), Abs(b));
    DividesAbs(Gcd(a, b), a);
    DividesAbs(Gcd(a, b), b);
  }

  /** `math.gcd` is the greatest common divisor in the divisibility order. */
  lemma GcdIsGreatestCommonDivisor(a: int, b: int)
    ensures Divides(Gcd(a, b), a) && Divides(Gcd(a, b), b)
    ensures forall d :: Divides(d, a) && Divides(d, b) ==> Divides(d, Gcd(a, b))
  {
    GcdDivides(a, b);
    forall d | Divides(d, a) && Divides(d, b) ensures Divides(d, Gcd(a, b)) {
      DividesAbs(d, a);
      DividesAbs(d, b);
      GcdNatGreatest(Abs(a), Abs(b), d);
    }
  }

  lemma SignedFactor(p: int, a: int)
    ensures (if a < 0 then -p else p) * a == p * Abs(a)
  {
  }

  /** Bezout's identity for `math.gcd` on any integers. */
  function GcdBezout(a: int, b: int): (p: (int, int))
    ensures p.0 * a + p.1 * b == Gcd(a, b)
  {
    var p := Bezout(Abs(a), Abs(b));
    var x := if a < 0 then -p.0 else p.0;
    var y := if b < 0 then -p.1 else p.1;
    SignedFactor(p.0, a);
    SignedFactor(p.1, b);
    (x, y)
  }

  /** `reduce(math.gcd, s)` on a non-empty `s`. */
  function GcdFold(s: seq<int>): int
    requires |s| >= 1
    decreases |s|
  {
    if |s| == 1 then s[0] else Gcd(GcdFold(s[..|s| - 1]), s[|s| - 1])
  }

  ghost predicate DividesAll(d: int, s: seq<int>) {
    forall i :: 0 <= i < |s| ==> Divides(d, s[i])
  }

  lemma {:induction false} GcdFoldIsGreatest(s: seq<int>)
    requires |s| >= 1
    ensures DividesAll(GcdFold(s), s)
    ensures forall d :: DividesAll(d, s) ==> Divides(d, GcdFold(s))
    decreases |s|
  {
    if |s| == 1 {
      DividesRefl(s[0]);
    } else {
      var pre, last := s[..|s| - 1], s[|s| - 1];
      GcdFoldIsGreatest(pre);
      var h := GcdFold(pre);
      GcdIsGreatestCommonDivisor(h, last);
      forall i | 0 <= i < |s| ensures Divides(GcdFold(s), s[i]) {
        if i < |s| - 1 {
          assert s[i] == pre[i];
          DividesTrans(GcdFold(s), h, s[i]);
        }
      }
      forall d | DividesAll(d, s) ensures Divides(d, GcdFold(s)) {
        assert DividesAll(d, pre) by {
          forall i | 0 <= i < |pre| ensures Divides(d, pre[i]) {
            assert pre[i] == s[i];
          }
        }
        assert Divides(d, s[|s| - 1]);
      }
    }
  }

  /** `greatest_common_divisor(sequence)`: TypeError on an empty sequence; a
      single element is returned as is (possibly negative); otherwise the
      non-negative greatest common divisor of all elements. */
  function GreatestCommonDivisor(s: seq<int>): (r: Result<int>)
    ensures r.Err? <==> s == []
    ensures r.Err? ==> r.error == TypeError
    ensures |s| == 1 ==> r == Ok(s[0])
    ensures |s| >= 2 ==> r.Ok? && r.value >= 0
    ensures r.Ok? ==> DividesAll(r.value, s)
    ensures r.Ok? ==> forall d :: DividesAll(d, s) ==> Divides(d, r.value)
  {
    if s == [] then Err(TypeError)
    else
      GcdFoldIsGreatest(s);
      Ok(GcdFold(s))
  }

  lemma GreatestCommonDivisorExamples()
    ensures GreatestCommonDivisor([54, 24]) == Ok(6)
    ensures GreatestCommonDivisor([57, 37, 18]) == Ok(1)
    ensures GreatestCommonDivisor([0, 0]) == Ok(0)
  {
    assert GcdNat(54, 24) == 6;
    assert GcdNat(57, 37) == 1;
    assert GcdNat(1, 18) == 1;
    assert [57, 37, 18][..2] == [57, 37];
    assert [57, 37][..1] == [57];
  }

  // ---------------------------------------------------------------------------
  // is_divisible_by
  // ---------------------------------------------------------------------------

  /** Python's `%` on integers: the remainder takes the sign of the divisor. */
  function PyMod(a: int, b: int): (r: int)
    requires b != 0
    ensures b > 0 ==> 0 <= r < b
    ensures b < 0 ==> b < r <= 0
    ensures Divides(b, a - r)
  {
    var e := a % b;
    assert a - e == (a / b) * b;
    if b < 0 && e != 0 then
      assert a - (e + b) == (a / b - 1) * b;
      e + b
    else e
  }

  /** `is_divisible_by(dividend, divisor)` on integers. */
  function IsDivisibleBy(dividend: int, divisor: int): (r: Result<bool>)
    ensures r.Err? <==> divisor == 0
    ensures r.Err? ==> r.error == ZeroDivisionError
    ensures r.Ok? ==> (r.value <==> Divides(divisor, dividend))
  {
    if divisor == 0 then Err(ZeroDivisionError)
    else
      PyModZeroIffDivides(dividend, divisor);
      Ok(PyMod(dividend, divisor) == 0)
  }

  lemma PyModZeroIffDivides(a: int, b: int)
    requires b != 0
    ensures PyMod(a, b) == 0 <==> Divides(b, a)
  {
    var r := PyMod(a, b);
    if Divides(b, a) {
      var k :| a == k * b;
      var j :| a - r == j * b;
      assert r == (k - j) * b;
      MultipleInRange(k - j, b);
    }
  }

  lemma IsDivisibleByExamples()
    ensures IsDivisibleBy(25, 5) == Ok(true)
    ensures IsDivisibleBy(-5, 5) == Ok(true)
    ensures IsDivisibleBy(-100, -7) == Ok(false)
    ensures IsDivisibleBy(35, 15) == Ok(false)
    ensures IsDivisibleBy(50, 0) == Err(ZeroDivisionError)
  {
  }

  // ---------------------------------------------------------------------------
  // least_common_multiple
  // ---------------------------------------------------------------------------

  /** `_lcm(x, y)` with exact integer division: `x * y // gcd(x, y)`.
      ZeroDivisionError when both are zero (then `gcd` is zero). */
  function LcmPair(x: int, y: int): (r: Result<int>)
    ensures r.Err? <==> x == 0 && y == 0
    ensures r.Err? ==> r.error == ZeroDivisionError
  {
    var g := Gcd(x, y);
    if g == 0 then Err(ZeroDivisionError) else Ok((x * y) / g)
  }

  /** The pair result is a common multiple of both arguments, and times the
      gcd it gives back their product. */
  lemma LcmPairCommonMultiple(x: int, y: int)
    requires x != 0 || y != 0
    ensures Divides(x, LcmPair(x, y).value) && Divides(y, LcmPair(x, y).value)
    ensures LcmPair(x, y).value * Gcd(x, y) == x * y
    ensures LcmPair(x, y).value == 0 <==> x == 0 || y == 0
  {
    var g := Gcd(x, y);
    var l := LcmPair(x, y).value;
    assert l == (x * y) / g;
    GcdDivides(x, y);
    var p :| x == p * g;
    var q :| y == q * g;
    MulSwapRight(p, g, y);
    DivExact(p * y, g);
    assert l == p * y;
    MulExchange(p, q, g);
    assert l == q * x;
    MulZero(p, y);
    MulZero(p, g);
  }

  lemma MulSwapRight(a: int, b: int, c: int)
    ensures (a * b) * c == (a * c) * b
  {
  }

  lemma MulExchange(p: int, q: int, g: int)
    ensures p * (q * g) == q * (p * g)
  {
  }

  lemma MulComm(a: int, b: int)
    ensures a * b == b * a
  {
  }

  lemma MulZero(a: int, b: int)
    ensures a * b == 0 <==> a == 0 || b == 0
  {
  }

  /** The arithmetic core: with `u*x + v*y == g` and `l*g == x*y`, a common
      multiple `m` of `x` and `y` is `l * (u*t + v*s)`. */
  lemma BezoutCancel(x: int, y: int, m: int, g: int, l: int, u: int, v: int, s: int, t: int)
    requires g != 0 && g == u * x + v * y && l * g == x * y
    requires m == s * x && m == t * y
    ensures m == l * (u * t + v * s)
  {
    var w := u * t + v * s;
    var prod := x * y;
    RegroupProduct(m, u, x, t, y);
    RegroupProduct(m, v, y, s, x);
    assert y * x == prod;
    assert m * g == m * (u * x) + m * (v * y);
    assert m * g == w * prod;
    assert m * g == (l * w) * g by {
      assert w * (l * g) == (l * w) * g;
    }
    MulCancel(m, l * w, g);
  }

  /** The pair result divides every common multiple (through Bezout's identity). */
  lemma LcmPairDividesCommonMultiples(x: int, y: int, m: int)
    requires x != 0 || y != 0
    requires Divides(x, m) && Divides(y, m)
    ensures Divides(LcmPair(x, y).value, m)
  {
    var l := LcmPair(x, y).value;
    LcmPairCommonMultiple(x, y);
    var uv := GcdBezout(x, y);
    var s :| m == s * x;
    var t :| m == t * y;
    var g := Gcd(x, y);
    assert g == uv.0 * x + uv.1 * y && l * g == x * y;
    BezoutCancel(x, y, m, g, l, uv.0, uv.1, s, t);
    var k := uv.0 * t + uv.1 * s;
    MulComm(l, k);
    assert m == k * l;
  }

  lemma RegroupProduct(m: int, u: int, x: int, t: int, y: int)
    requires m == t * y
    ensures m * (u * x) == (u * t) * (x * y)
  {
  }

  /** `_lcm` computes the least common multiple (signed as `x * y`). */
  lemma LcmPairIsLeastCommonMultiple(x: int, y: int)
    requires x != 0 || y != 0
    ensures Divides(x, LcmPair(x, y).value) && Divides(y, LcmPair(x, y).value)
    ensures forall m :: Divides(x, m) && Divides(y, m) ==> Divides(LcmPair(x, y).value, m)
    ensures LcmPair(x, y).value == 0 <==> x == 0 || y == 0
  {
    LcmPairCommonMultiple(x, y);
    forall m | Divides(x, m) && Divides(y, m) ensures Divides(LcmPair(x, y).value, m) {
      LcmPairDividesCommonMultiples(x, y, m);
    }
  }

  /** `reduce(_lcm, s)` on a non-empty `s`. */
  function LcmFold(s: seq<int>): (r: Result<int>)
    requires |s| >= 1
    ensures r.Err? ==> r.error == ZeroDivisionError
    decreases |s|
  {
    if |s| == 1 then Ok(s[0])
    else
      var acc :- LcmFold(s[..|s| - 1]);
      LcmPair(acc, s[|s| - 1])
  }

  /** Two zeros in the sequence: the situation in which the fold divides by zero. */
  ghost predicate TwoZeros(s: seq<int>) {
    exists i, j :: 0 <= i < j < |s| && s[i] == 0 && s[j] == 0
  }

  ghost predicate MultipleOfAll(m: int, s: seq<int>) {
    forall i :: 0 <= i < |s| ==> Divides(s[i], m)
  }

  /** The fold fails exactly on two zeros; otherwise it is a common multiple of
      all elements that divides every common multiple, zero iff a zero occurs. */
  lemma {:induction false} LcmFoldIsLeast(s: seq<int>)
    requires |s| >= 1
    ensures LcmFold(s).Err? <==> TwoZeros(s)
    ensures LcmFold(s).Ok? ==> (LcmFold(s).value == 0 <==> 0 in s)
    ensures LcmFold(s).Ok? ==> MultipleOfAll(LcmFold(s).value, s)
    ensures LcmFold(s).Ok? ==> forall m :: MultipleOfAll(m, s) ==> Divides(LcmFold(s).value, m)
    decreases |s|
  {
    if |s| == 1 {
      DividesRefl(s[0]);
      assert !TwoZeros(s);
    } else {
      var pre, last := s[..|s| - 1], s[|s| - 1];
      assert s == pre + [last];
      LcmFoldIsLeast(pre);
      assert TwoZeros(s) <==> TwoZeros(pre) || (0 in pre && last == 0) by {
        if TwoZeros(s) {
          var i, j :| 0 <= i < j < |s| && s[i] == 0 && s[j] == 0;
          if j < |s| - 1 {
            assert pre[i] == 0 && pre[j] == 0;
          } else {
            assert pre[i] == 0;
          }
        }
        if TwoZeros(pre) {
          var i, j :| 0 <= i < j < |pre| && pre[i] == 0 && pre[j] == 0;
          assert s[i] == 0 && s[j] == 0;
        }
        if 0 in pre && last == 0 {
          var i :| 0 <= i < |pre| && pre[i] == 0;
          assert s[i] == 0 && s[|s| - 1] == 0;
        }
      }
      if LcmFold(pre).Ok? {
        var acc := LcmFold(pre).value;
        if acc != 0 || last != 0 {
          var l := LcmPair(acc, last).value;
          LcmPairIsLeastCommonMultiple(acc, last);
          forall i | 0 <= i < |s| ensures Divides(s[i], l) {
            if i < |s| - 1 {
              assert s[i] == pre[i];
              DividesTrans(s[i], acc, l);
            }
          }
          forall m | MultipleOfAll(m, s) ensures Divides(l, m) {
            assert MultipleOfAll(m, pre) by {
              forall i | 0 <= i < |pre| ensures Divides(pre[i], m) {
                assert pre[i] == s[i];
              }
            }
            assert Divides(last, m);
          }
        }
      }
    }
  }

  /** `least_common_multiple(*args)`: the positional arguments are spread (each
      must be iterable, else TypeError) and folded with `_lcm`; nothing left to
      fold raises TypeError. */
  function LeastCommonMultiple(args: seq<ListOperations.Item<int>>): (r: Result<int>)
    ensures ListOperations.Spread(args).Err? ==> r == Err(TypeError)
    ensures ListOperations.Spread(args) == Ok([]) ==> r == Err(TypeError)
    ensures ListOperations.Spread(args).Ok? && ListOperations.Spread(args).value != [] ==>
              var numbers := ListOperations.Spread(args).value;
              (r.Err? <==> TwoZeros(numbers)) &&
              (r.Err? ==> r.error == ZeroDivisionError) &&
              (r.Ok? ==> MultipleOfAll(r.value, numbers)) &&
              (r.Ok? ==> forall m :: MultipleOfAll(m, numbers) ==> Divides(r.value, m))
  {
    var numbers :- ListOperations.Spread(args);
    if numbers == [] then Err(TypeError)
    else
      LcmFoldIsLeast(numbers);
      LcmFold(numbers)
  }

  /** One fold step on a known prefix. */
  lemma LcmFoldStep(s: seq<int>, acc: int)
    requires |s| >= 2 && LcmFold(s[..|s| - 1]) == Ok(acc)
    ensures LcmFold(s) == LcmPair(acc, s[|s| - 1])
  {
  }

  /** The pair result named by its defining equation. */
  lemma LcmPairOf(x: int, y: int, g: nat, l: int)
    requires GcdNat(Abs(x), Abs(y)) == g && g != 0 && x * y == l * g
    ensures LcmPair(x, y) == Ok(l)
  {
    DivExact(l, g);
  }

  lemma LeastCommonMultipleExamples()
    ensures LcmFold([4, 5]) == Ok(20)
    ensures LcmFold([0, 0]) == Err(ZeroDivisionError)
  {
    assert [4, 5][..1] == [4];
    LcmFoldStep([4, 5], 4);
    assert GcdNat(4, 5) == 1;
    LcmPairOf(4, 5, 1, 20);
    assert [0, 0][..1] == [0];
    LcmFoldStep([0, 0], 0);
  }

  /** A negative argument makes the result negative. */
  lemma LeastCommonMultipleExampleNegative()
    ensures LcmFold([-1, 5, 10]) == Ok(-10)
  {
    assert [-1, 5][..1] == [-1];
    LcmFoldStep([-1, 5], -1);
    assert GcdNat(1, 5) == 1;
    LcmPairOf(-1, 5, 1, -5);
    assert [-1, 5, 10][..2] == [-1, 5];
    LcmFoldStep([-1, 5, 10], -5);
    assert GcdNat(5, 10) == 5;
    LcmPairOf(-5, 10, 5, -10);
  }

  /** A single zero makes the result zero. */
  lemma LeastCommonMultipleExampleZero()
    ensures LcmFold([0, 10, 50]) == Ok(0)
  {
    assert [0, 10][..1] == [0];
    LcmFoldStep([0, 10], 0);
    assert GcdNat(0, 10) == 10;
    LcmPairOf(0, 10, 10, 0);
    assert [0, 10, 50][..2] == [0, 10];
    LcmFoldStep([0, 10, 50], 0);
    assert GcdNat(0, 50) == 50;
    LcmPairOf(0, 50, 50, 0);
  }

  lemma LeastCommonMultipleExampleLong()
    ensures LcmFold([2, 5, 17, 632]) == Ok(53720)
  {
    assert [2, 5][..1] == [2];
    LcmFoldStep([2, 5], 2);
    assert GcdNat(2, 5) == 1;
    LcmPairOf(2, 5, 1, 10);
    assert [2, 5, 17][..2] == [2, 5];
    LcmFoldStep([2, 5, 17], 10);
    assert GcdNat(10, 17) == 1;
    LcmPairOf(10, 17, 1, 170);
    assert [2, 5, 17, 632][..3] == [2, 5, 17];
    LcmFoldStep([2, 5, 17, 632], 170);
    assert GcdNat(170, 632) == 2;
    LcmPairOf(170, 632, 2, 53720);
  }

  // ---------------------------------------------------------------------------
  // _lcm as written: true division through a double
  // ---------------------------------------------------------------------------

  /** 2^53: below it every integer is a double. */
  const TwoPow53: nat := 0x20_0000_0000_0000

  /** Distance between neighbouring doubles around the magnitude `a`. */
  function Spacing(a: nat): (u: nat)
    ensures u >= 1
    ensures a <= TwoPow53 ==> u <= 2
    decreases a
  {
    if a < TwoPow53 then 1 else 2 * Spacing(a / 2)
  }

  /** The double nearest to the integer `q`, ties to even mantissa: how Python
      rounds the true quotient of two integers. Overflow is checked apart. */
  function NearestDouble(q: int): (d: int)
    ensures Abs(q) < TwoPow53 ==> d == q
  {
    var a := Abs(q);
    var u := Spacing(a);
    var lo := (a / u) * u;
    var rem := a % u;
    var m := if 2 * rem < u then lo
             else if 2 * rem > u then lo + u
             else if (a / u) % 2 == 0 then lo else lo + u;
    if q < 0 then -m else m
  }

  /** 2^1024: the first magnitude beyond the largest finite double. */
  const TwoPow1024: nat := 0x10000000000000000000000000000000000000000000000000000000000000000000000000000000000000000000000000000000000000000000000000000000000000000000000000000000000000000000000000000000000000000000000000000000000000000000000000000000000000000000000000000000000000000

  /** `_lcm(x, y)` as written, `int(x * y / math.gcd(x, y))`: the exact
      quotient is rounded to a double (OverflowError beyond the double range)
      and truncated back to an integer, which for a double of this size is
      the double itself. */
  function LcmPairAsWritten(x: int, y: int): (r: Result<int>)
    ensures r.Err? && r.error == ZeroDivisionError <==> x == 0 && y == 0
    ensures (x != 0 || y != 0) && Abs(LcmPair(x, y).value) < TwoPow53 ==> r == LcmPair(x, y)
  {
    var g := Gcd(x, y);
    if g == 0 then Err(ZeroDivisionError)
    else
      var d := NearestDouble((x * y) / g);
      if Abs(d) >= TwoPow1024 then Err(OverflowError) else Ok(d)
  }

  /** Beyond 2^53 the float division loses the last bits: for 2^53 + 1 and 2
      (coprime) the code returns 2^54, which is not a multiple of 2^53 + 1,
      while the least common multiple is 2^54 + 2. */
  lemma LcmPairAsWrittenLosesPrecision()
    ensures LcmPairAsWritten(TwoPow53 + 1, 2) == Ok(2 * TwoPow53)
    ensures LcmPair(TwoPow53 + 1, 2) == Ok(2 * TwoPow53 + 2)
    ensures (2 * TwoPow53) % (TwoPow53 + 1) != 0
  {
    assert GcdNat(TwoPow53 + 1, 2) == 1 by {
      assert (TwoPow53 + 1) % 2 == 1;
      assert GcdNat(2, 1) == 1;
    }
    var q := (TwoPow53 + 1) * 2;
    assert q == 2 * TwoPow53 + 2;
    assert Spacing(q) == 4 by {
      assert q / 2 == TwoPow53 + 1;
      assert (TwoPow53 + 1) / 2 == TwoPow53 / 2;
      assert Spacing(TwoPow53 / 2) == 1;
    }
    assert q / 4 == TwoPow53 / 2 && q % 4 == 2;
    assert NearestDouble(q) == 2 * TwoPow53;
  }
}
