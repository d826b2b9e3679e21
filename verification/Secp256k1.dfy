/**
 The point addition and scalar multiplication behind the wallet addresses, on the curve
 y^2 = x^3 + 7 of section 2.4.1 of SEC 2, with the addition of section 2.2.1 of SEC 1.
 The field prime, the order and the generator are parameters.
 */
module Secp256k1 {
  import opened Outcomes
  import opened PrimeField

  datatype Point = Infinity | Affine(x: int, y: int)

  /** _secp_add */
  function Add(left: Point, right: Point, p: int): Point
    requires p > 2
  {
    if left.Infinity? then right
    else if right.Infinity? then left
    else if left.x == right.x && (left.y + right.y) % p == 0 then Infinity
    else Through(left, right.x, Slope(left, right, p), p)
  }

  function Slope(left: Point, right: Point, p: int): int
    requires p > 2 && left.Affine? && right.Affine?
  {
    if left == right then (3 * left.x * left.x) * PowerMod(2 * left.y, p - 2, p) % p
    else (right.y - left.y) * PowerMod((right.x - left.x) % p, p - 2, p) % p
  }

  /** The third point of the line through `left` with the given slope and the second abscissa, reflected. */
  function Through(left: Point, x2: int, slope: int, p: int): Point
    requires p > 2 && left.Affine?
  {
    var x3 := (slope * slope - left.x - x2) % p;
    Affine(x3, (slope * (left.x - x3) - left.y) % p)
  }

  predicate OnCurve(a: Point, p: int)
    requires p > 2
  {
    a.Affine? ==> 0 <= a.x < p && 0 <= a.y < p && Zero(a.y * a.y - a.x * a.x * a.x - 7, p)
  }

  // ----- the line meets the cubic in a third point of the curve

  /** g of the cubic f(x) = x^3 + 7 - (s(x - x1) + y1)^2, which is (x - x1) g(x) for a point (x1, y1). */
  function Quotient(x: int, x1: int, y1: int, s: int): int {
    x * x + x * x1 + x1 * x1 - s * s * (x - x1) - 2 * s * y1
  }

  lemma CubesDiffer(x: int, x1: int)
    ensures (x - x1) * (x * x + x * x1 + x1 * x1) == x * x * x - x1 * x1 * x1
  {
    assert x * (x * x + x * x1 + x1 * x1) == x * x * x + x * x * x1 + x * x1 * x1;
    assert x1 * (x * x + x * x1 + x1 * x1) == x * x * x1 + x * x1 * x1 + x1 * x1 * x1;
  }

  lemma LineSquared(d: int, s: int, y1: int)
    ensures (s * d + y1) * (s * d + y1) == d * (s * s * d) + d * (2 * s * y1) + y1 * y1
  {
    var t := s * d;
    assert (t + y1) * (t + y1) == t * t + 2 * t * y1 + y1 * y1;
    assert d * (s * s * d) == t * t;
    assert d * (2 * s * y1) == 2 * (s * d) * y1;
  }

  lemma Distributes(d: int, a: int, b: int, c: int)
    ensures d * (a - b - c) == d * a - d * b - d * c
  {
  }

  lemma CubicFactors(x: int, x1: int, y1: int, s: int)
    ensures x * x * x + 7 - (s * (x - x1) + y1) * (s * (x - x1) + y1)
            == (x - x1) * Quotient(x, x1, y1, s) - (y1 * y1 - x1 * x1 * x1 - 7)
  {
    var d := x - x1;
    CubesDiffer(x, x1);
    LineSquared(d, s, y1);
    Distributes(d, x * x + x * x1 + x1 * x1, s * s * d, 2 * s * y1);
  }

  lemma QuotientFactors(x: int, x1: int, x2: int, y1: int, s: int)
    ensures Quotient(x, x1, y1, s) - Quotient(x2, x1, y1, s) == (x - x2) * (x + x2 + x1 - s * s)
  {
    assert (x - x2) * (x + x2 + x1 - s * s)
           == (x - x2) * (x + x2) + (x - x2) * x1 - (x - x2) * (s * s);
    assert (x - x2) * (x + x2) == x * x - x2 * x2;
    assert s * s * (x - x1) - s * s * (x2 - x1) == (x - x2) * (s * s);
  }

  lemma {:induction false} ThroughIsOnCurve(left: Point, x2: int, s: int, p: int)
    requires p > 2 && left.Affine? && OnCurve(left, p)
    requires Zero(Quotient(x2, left.x, left.y, s), p)
    ensures OnCurve(Through(left, x2, s, p), p)
  {
    var x1, y1 := left.x, left.y;
    var x3 := (s * s - x1 - x2) % p;
    ReducedIsSame(s * s - x1 - x2, p);
    QuotientFactors(x3, x1, x2, y1, s);
    ZeroTimes(x3 + x2 + x1 - s * s, x3 - x2, p);
    ZeroPlus((x3 - x2) * (x3 + x2 + x1 - s * s), Quotient(x2, x1, y1, s), p);
    CubicFactors(x3, x1, y1, s);
    ZeroTimes(Quotient(x3, x1, y1, s), x3 - x1, p);
    ZeroPlus((x3 - x1) * Quotient(x3, x1, y1, s), y1 * y1 - x1 * x1 * x1 - 7, p);
    var u := s * (x3 - x1) + y1;
    ReflectedIsOnCurve(x3 * x3 * x3, u, p);
    assert s * (x1 - x3) - y1 == -u by {
      assert s * (x1 - x3) == -(s * (x3 - x1));
    }
  }

  lemma ReflectedIsOnCurve(cube: int, u: int, p: int)
    requires p > 2 && Zero(cube + 7 - u * u, p)
    ensures var y := (-u) % p; Zero(y * y - cube - 7, p)
  {
    var y := (-u) % p;
    ReducedIsSame(-u, p);
    assert Zero(y + u, p);
    ZeroTimes(y + u, y - u, p);
    var d := (y + u) * (y - u);
    assert d == y * y - u * u;
    ZeroPlus(d, cube + 7 - u * u, p);
  }

  /** A slope n / d, computed with the power, satisfies slope * d = n. */
  lemma {:induction false} SlopeDivides(n: int, d: int, e: int, p: int)
    requires IsPrime(p) && p > 2 && !Zero(d, p) && Zero(d - e, p)
    ensures Zero(n * PowerMod(e, p - 2, p) % p * d - n, p)
  {
    if Zero(e, p) {
      ZeroPlus(d - e, e, p);
    }
    InverseByPower(e, p);
    var inverse := PowerMod(e, p - 2, p);
    var slope := n * inverse % p;
    ReducedIsSame(n * inverse, p);
    ZeroTimes(slope - n * inverse, d, p);
    ZeroTimes(d - e, n * inverse, p);
    ZeroTimes(e * inverse - 1, n, p);
    ZeroPlus((slope - n * inverse) * d, (d - e) * (n * inverse), p);
    ZeroPlus((slope - n * inverse) * d + (d - e) * (n * inverse), (e * inverse - 1) * n, p);
    SlopeIdentity(slope, n, d, e, inverse);
  }

  lemma SlopeIdentity(slope: int, n: int, d: int, e: int, inverse: int)
    ensures slope * d - n == (slope - n * inverse) * d + (d - e) * (n * inverse) + (e * inverse - 1) * n
  {
    var m := n * inverse;
    assert (slope - m) * d == slope * d - m * d;
    assert (d - e) * m == d * m - e * m;
    assert (e * inverse - 1) * n == e * m - n;
  }

  lemma TangentQuotient(x1: int, y1: int, s: int)
    ensures Quotient(x1, x1, y1, s) == (s * (2 * y1) - 3 * x1 * x1) * -1
  {
    assert s * s * (x1 - x1) == 0;
    assert 2 * s * y1 == s * (2 * y1);
  }

  lemma {:induction false} TangentMeets(left: Point, p: int)
    requires IsPrime(p) && p > 2 && left.Affine? && OnCurve(left, p) && (left.y + left.y) % p != 0
    ensures Zero(Quotient(left.x, left.x, left.y, Slope(left, left, p)), p)
  {
    var x1, y1 := left.x, left.y;
    var s := Slope(left, left, p);
    assert Zero(2 * y1 - 2 * y1, p) by {
      assert 2 * y1 - 2 * y1 == 0;
    }
    SlopeDivides(3 * x1 * x1, 2 * y1, 2 * y1, p);
    ZeroTimes(s * (2 * y1) - 3 * x1 * x1, -1, p);
    TangentQuotient(x1, y1, s);
  }

  lemma {:induction false} ChordSlope(left: Point, right: Point, p: int)
    requires IsPrime(p) && p > 2 && left.Affine? && right.Affine? && OnCurve(left, p) && OnCurve(right, p)
    requires left.x != right.x
    ensures !Zero(right.x - left.x, p) && 0 <= Slope(left, right, p) < p
    ensures Zero(Slope(left, right, p) * (right.x - left.x) - (right.y - left.y), p)
  {
    var d := right.x - left.x;
    if Zero(d, p) {
      SmallAndSame(right.x, left.x, p);
    }
    ReducedIsSame(d, p);
    SlopeDivides(right.y - left.y, d, d % p, p);
  }

  lemma {:induction false} ChordMeets(left: Point, right: Point, p: int)
    requires IsPrime(p) && p > 2 && left.Affine? && right.Affine? && OnCurve(left, p) && OnCurve(right, p)
    requires left.x != right.x
    ensures Zero(Quotient(right.x, left.x, left.y, Slope(left, right, p)), p)
  {
    var x1, y1, x2, y2 := left.x, left.y, right.x, right.y;
    var s, d := Slope(left, right, p), right.x - left.x;
    ChordSlope(left, right, p);
    var u := s * d + y1;
    ZeroTimes(u - y2, u + y2, p);
    assert (u - y2) * (u + y2) == u * u - y2 * y2;
    ZeroPlus(u * u - y2 * y2, y2 * y2 - x2 * x2 * x2 - 7, p);
    ZeroPlus(y1 * y1 - x1 * x1 * x1 - 7, (u * u - y2 * y2) + (y2 * y2 - x2 * x2 * x2 - 7), p);
    CubicFactors(x2, x1, y1, s);
    FactorCancels(d, Quotient(x2, x1, y1, s), p);
  }

  /** Two points of one abscissa that are not opposite are equal. */
  lemma {:induction false} SameAbscissa(left: Point, right: Point, p: int)
    requires IsPrime(p) && p > 2 && left.Affine? && right.Affine? && OnCurve(left, p) && OnCurve(right, p)
    requires left.x == right.x && (left.y + right.y) % p != 0
    ensures left == right
  {
    SameRoot(left.y, right.y, left.x * left.x * left.x + 7, p);
  }

  /** Two reduced square roots that are not opposite are the same. */
  lemma {:induction false} SameRoot(a: int, b: int, c: int, p: int)
    requires IsPrime(p) && 0 <= a < p && 0 <= b < p && !Zero(a + b, p)
    requires Zero(a * a - c, p) && Zero(b * b - c, p)
    ensures a == b
  {
    SquaresDiffer(a, b, c, p);
    FactorCancels(a + b, a - b, p);
    SmallAndSame(a, b, p);
  }

  lemma SquaresDiffer(a: int, b: int, c: int, p: int)
    requires p > 0 && Zero(a * a - c, p) && Zero(b * b - c, p)
    ensures Zero((a + b) * (a - b), p)
  {
    ZeroPlus(a * a - c, b * b - c, p);
    assert (a + b) * (a - b) == (a * a - c) - (b * b - c);
  }

  /** _secp_add stays on the curve: opposite points, doubling and the general chord alike. */
  lemma {:induction false} AddStaysOnCurve(left: Point, right: Point, p: int)
    requires IsPrime(p) && p > 2 && OnCurve(left, p) && OnCurve(right, p)
    ensures OnCurve(Add(left, right, p), p)
  {
    if left.Affine? && right.Affine? && !(left.x == right.x && (left.y + right.y) % p == 0) {
      if left.x == right.x {
        SameAbscissa(left, right, p);
        TangentMeets(left, p);
      } else {
        ChordMeets(left, right, p);
      }
      ThroughIsOnCurve(left, right.x, Slope(left, right, p), p);
    }
  }

  /**
   The sum of two points that are not opposite, by the equations of section 2.2.1 of SEC 1: s is the slope
   of the chord or of the tangent, and r its third point with the curve, reflected.
   */
  predicate SumEquations(a: Point, b: Point, r: Point, s: int, p: int)
    requires p > 2 && a.Affine? && b.Affine? && r.Affine?
  {
    && (if a == b then Zero(2 * s * a.y - 3 * a.x * a.x, p) else Zero(s * (b.x - a.x) - (b.y - a.y), p))
    && Zero(r.x - (s * s - a.x - b.x), p)
    && Zero(r.y + a.y + s * (r.x - a.x), p)
  }

  predicate Reduced(a: Point, p: int) {
    a.Affine? && 0 <= a.x < p && 0 <= a.y < p
  }

  /** The line of the computed slope is the chord or the tangent, and its slope is not vertical. */
  lemma {:induction false} SlopeIsSlope(left: Point, right: Point, p: int)
    requires IsPrime(p) && p > 2 && left.Affine? && right.Affine? && OnCurve(left, p) && OnCurve(right, p)
    requires !(left.x == right.x && (left.y + right.y) % p == 0)
    ensures var s := Slope(left, right, p);
            if left == right then !Zero(2 * left.y, p) && Zero(2 * s * left.y - 3 * left.x * left.x, p)
            else !Zero(right.x - left.x, p) && Zero(s * (right.x - left.x) - (right.y - left.y), p)
  {
    if left.x == right.x {
      SameAbscissa(left, right, p);
      var s := Slope(left, left, p);
      TangentMeets(left, p);
      ZeroTimes(Quotient(left.x, left.x, left.y, s), -1, p);
      TangentQuotient(left.x, left.y, s);
      assert Quotient(left.x, left.x, left.y, s) * -1 == 2 * s * left.y - 3 * left.x * left.x by {
        assert 2 * s * left.y == s * (2 * left.y);
      }
    } else {
      ChordSlope(left, right, p);
    }
  }

  lemma {:induction false} ThroughSolves(left: Point, x2: int, s: int, p: int)
    requires p > 2 && left.Affine?
    ensures var r := Through(left, x2, s, p);
            && Reduced(r, p) && Zero(r.x - (s * s - left.x - x2), p)
            && Zero(r.y + left.y + s * (r.x - left.x), p)
  {
    var r := Through(left, x2, s, p);
    ReducedIsSame(s * s - left.x - x2, p);
    ReducedIsSame(s * (left.x - r.x) - left.y, p);
    assert r.y - (s * (left.x - r.x) - left.y) == r.y + left.y + s * (r.x - left.x) by {
      assert s * (left.x - r.x) == -(s * (r.x - left.x));
    }
  }

  /** _secp_add of two points that are not opposite is the one reduced point of these equations. */
  lemma {:induction false} AddIsTheSum(left: Point, right: Point, r: Point, p: int)
    requires IsPrime(p) && p > 2 && left.Affine? && right.Affine? && OnCurve(left, p) && OnCurve(right, p)
    requires !(left.x == right.x && (left.y + right.y) % p == 0)
    ensures r == Add(left, right, p) <==> Reduced(r, p) && exists s :: SumEquations(left, right, r, s, p)
  {
    var t, sum := Slope(left, right, p), Add(left, right, p);
    SlopeIsSlope(left, right, p);
    ThroughSolves(left, right.x, t, p);
    assert SumEquations(left, right, sum, t, p);
    if Reduced(r, p) {
      forall s | SumEquations(left, right, r, s, p) ensures r == sum {
        SumIsUnique(left, right, r, s, sum, t, p);
      }
    }
  }

  lemma {:induction false} SumIsUnique(a: Point, b: Point, r: Point, s: int, q: Point, t: int, p: int)
    requires IsPrime(p) && p > 2 && a.Affine? && b.Affine? && Reduced(r, p) && Reduced(q, p)
    requires if a == b then !Zero(2 * a.y, p) else !Zero(b.x - a.x, p)
    requires SumEquations(a, b, r, s, p) && SumEquations(a, b, q, t, p)
    ensures r == q
  {
    if a == b {
      TangentsAgree(s, t, a.x, a.y, p);
    } else {
      SlopesAgree(s, t, b.x - a.x, b.y - a.y, p);
    }
    ThirdPointsAgree(a, b.x, s, t, r, q, p);
  }

  lemma TangentsAgree(s: int, t: int, x: int, y: int, p: int)
    requires IsPrime(p) && !Zero(2 * y, p) && Zero(2 * s * y - 3 * x * x, p) && Zero(2 * t * y - 3 * x * x, p)
    ensures Zero(s - t, p)
  {
    assert s * (2 * y) == 2 * s * y && t * (2 * y) == 2 * t * y;
    SlopesAgree(s, t, 2 * y, 3 * x * x, p);
  }

  lemma ThirdPointsAgree(a: Point, x2: int, s: int, t: int, r: Point, q: Point, p: int)
    requires p > 0 && a.Affine? && Reduced(r, p) && Reduced(q, p) && Zero(s - t, p)
    requires Zero(r.x - (s * s - a.x - x2), p) && Zero(r.y + a.y + s * (r.x - a.x), p)
    requires Zero(q.x - (t * t - a.x - x2), p) && Zero(q.y + a.y + t * (q.x - a.x), p)
    ensures r == q
  {
    AbscissasAgree(s, t, a.x + x2, r.x, q.x, p);
    OrdinatesAgree(s, t, r.x - a.x, a.y, r.y, q.y, p);
  }

  lemma SlopesAgree(s: int, t: int, d: int, n: int, p: int)
    requires IsPrime(p) && !Zero(d, p) && Zero(s * d - n, p) && Zero(t * d - n, p)
    ensures Zero(s - t, p)
  {
    ZeroPlus(s * d - n, t * d - n, p);
    assert (s * d - n) - (t * d - n) == d * (s - t);
    FactorCancels(d, s - t, p);
  }

  /** x = u - c and z = v - c agree when u and v do. */
  lemma ReducedAgree(u: int, v: int, c: int, x: int, z: int, p: int)
    requires p > 0 && 0 <= x < p && 0 <= z < p && Zero(u - v, p)
    requires Zero(x - (u - c), p) && Zero(z - (v - c), p)
    ensures x == z
  {
    ZeroPlus(x - (u - c), z - (v - c), p);
    ZeroPlus((x - (u - c)) - (z - (v - c)), u - v, p);
    SmallAndSame(x, z, p);
  }

  lemma AbscissasAgree(s: int, t: int, c: int, x: int, z: int, p: int)
    requires p > 0 && 0 <= x < p && 0 <= z < p && Zero(s - t, p)
    requires Zero(x - (s * s - c), p) && Zero(z - (t * t - c), p)
    ensures x == z
  {
    ZeroTimes(s - t, s + t, p);
    assert (s - t) * (s + t) == s * s - t * t;
    ReducedAgree(s * s, t * t, c, x, z, p);
  }

  lemma OrdinatesAgree(s: int, t: int, d: int, c: int, y: int, z: int, p: int)
    requires p > 0 && 0 <= y < p && 0 <= z < p && Zero(s - t, p)
    requires Zero(y + c + s * d, p) && Zero(z + c + t * d, p)
    ensures y == z
  {
    var u, v := s * d, t * d;
    ZeroTimes(s - t, -d, p);
    assert (s - t) * -d == -u - -v;
    ReducedAgree(-u, -v, c, y, z, p);
  }

  /** The point at infinity is the identity and opposite points cancel. */
  lemma AddHasInverses(a: Point, p: int)
    requires p > 2 && OnCurve(a, p)
    ensures Add(a, Infinity, p) == a == Add(Infinity, a, p)
    ensures a.Affine? ==> Add(a, Affine(a.x, (-a.y) % p), p) == Infinity
  {
    if a.Affine? {
      ReducedIsSame(-a.y, p);
      assert a.y + (-a.y) % p == (-a.y) % p - (-a.y);
    }
  }

  lemma SameResidue(a: int, b: int, p: int)
    requires p > 0 && Zero(a - b, p)
    ensures a % p == b % p
  {
    ReducedIsSame(a, p);
    ReducedIsSame(b, p);
    ZeroPlus(a % p - a, b % p - b, p);
    ZeroPlus((a % p - a) - (b % p - b), a - b, p);
    SmallAndSame(a % p, b % p, p);
  }

  /** A reduced slope over a chord is determined by slope * d = n, so it can be read from either end. */
  lemma {:induction false} SlopeIsSymmetric(left: Point, right: Point, p: int)
    requires IsPrime(p) && p > 2 && left.Affine? && right.Affine? && OnCurve(left, p) && OnCurve(right, p)
    requires left.x != right.x
    ensures Slope(left, right, p) == Slope(right, left, p)
  {
    var d, n := right.x - left.x, right.y - left.y;
    var s, t := Slope(left, right, p), Slope(right, left, p);
    ChordSlope(left, right, p);
    ChordSlope(right, left, p);
    Opposite(t, left.x, right.x, left.y, right.y);
    OneSlope(s, t, n, d, p);
  }

  lemma Opposite(t: int, x1: int, x2: int, y1: int, y2: int)
    ensures t * (x1 - x2) - (y1 - y2) == -(t * (x2 - x1) - (y2 - y1))
  {
    assert t * (x1 - x2) == -(t * (x2 - x1));
  }

  lemma OneSlope(s: int, t: int, n: int, d: int, p: int)
    requires IsPrime(p) && !Zero(d, p) && 0 <= s < p && 0 <= t < p
    requires Zero(s * d - n, p) && Zero(-(t * d - n), p)
    ensures s == t
  {
    ZeroPlus(s * d - n, -(t * d - n), p);
    assert (s * d - n) + -(t * d - n) == d * (s - t);
    FactorCancels(d, s - t, p);
    SmallAndSame(s, t, p);
  }

  lemma {:induction false} AddCommutes(left: Point, right: Point, p: int)
    requires IsPrime(p) && p > 2 && OnCurve(left, p) && OnCurve(right, p)
    ensures Add(left, right, p) == Add(right, left, p)
  {
    if left.Affine? && right.Affine? && left.x != right.x {
      SlopeIsSymmetric(left, right, p);
      ChordSlope(left, right, p);
      var s := Slope(left, right, p);
      var x3 := (s * s - left.x - right.x) % p;
      var a, b := s * (left.x - x3) - left.y, s * (right.x - x3) - right.y;
      var gap := s * (right.x - left.x) - (right.y - left.y);
      assert a - b == -gap by {
        assert s * (left.x - x3) - s * (right.x - x3) == -(s * (right.x - left.x));
      }
      ZeroTimes(gap, -1, p);
      SameResidue(a, b, p);
    } else if left.Affine? && right.Affine? && (left.y + right.y) % p != 0 {
      SameAbscissa(left, right, p);
    }
  }

  // ----- the double-and-add loop

  /** n times g by an addition, one g at a time. */
  function Multiple<T>(add: (T, T) -> T, zero: T, g: T, n: nat): T
    decreases n
  {
    if n == 0 then zero else add(Multiple(add, zero, g, n - 1), g)
  }

  ghost predicate AssociatesAt<T>(add: (T, T) -> T, zero: T, g: T, m: nat, n: nat) {
    && add(Multiple(add, zero, g, m), zero) == Multiple(add, zero, g, m)
    && add(Multiple(add, zero, g, m), add(Multiple(add, zero, g, n), g))
       == add(add(Multiple(add, zero, g, m), Multiple(add, zero, g, n)), g)
  }

  /** Associativity for the sums the loop forms, and the right identity. */
  ghost predicate Associates<T>(add: (T, T) -> T, zero: T, g: T) {
    forall m: nat, n: nat :: AssociatesAt(add, zero, g, m, n)
  }

  lemma {:induction false} MultiplesAdd<T>(add: (T, T) -> T, zero: T, g: T, m: nat, n: nat)
    requires Associates(add, zero, g)
    ensures add(Multiple(add, zero, g, m), Multiple(add, zero, g, n)) == Multiple(add, zero, g, m + n)
    decreases n
  {
    if n == 0 {
      assert AssociatesAt(add, zero, g, m, 0);
    } else {
      MultiplesAdd(add, zero, g, m, n - 1);
      assert AssociatesAt(add, zero, g, m, n - 1);
    }
  }

  ghost predicate ClosedUnder<T(!new)>(add: (T, T) -> T, holds: T -> bool) {
    forall a, b :: holds(a) && holds(b) ==> holds(add(a, b))
  }

  /** The value of the scalar is what is done and the rest at its weight. */
  ghost predicate Splits(scalar: nat, done: nat, rest: nat, weight: nat) {
    scalar == done + rest * weight
  }

  lemma HalvingSplits(scalar: nat, done: nat, rest: nat, weight: nat)
    requires Splits(scalar, done, rest, weight)
    ensures Splits(scalar, if rest % 2 == 1 then done + weight else done, rest / 2, weight + weight)
  {
    var half := rest / 2;
    assert half * (weight + weight) == (half + half) * weight;
    assert rest == half + half + rest % 2;
    assert rest * weight == (half + half) * weight + (rest % 2) * weight;
  }

  /** Where the addition associates, x is the n-th multiple. */
  ghost predicate Tracks<T>(add: (T, T) -> T, zero: T, g: T, x: T, n: nat) {
    Associates(add, zero, g) && add(zero, g) == g ==> x == Multiple(add, zero, g, n)
  }

  lemma {:induction false} SumTracks<T>(add: (T, T) -> T, zero: T, g: T, x: T, m: nat, y: T, n: nat)
    requires Tracks(add, zero, g, x, m) && Tracks(add, zero, g, y, n)
    ensures Tracks(add, zero, g, add(x, y), m + n)
  {
    if Associates(add, zero, g) {
      MultiplesAdd(add, zero, g, m, n);
    }
  }

  lemma FirstTracks<T>(add: (T, T) -> T, zero: T, g: T)
    ensures Tracks(add, zero, g, zero, 0) && Tracks(add, zero, g, g, 1)
  {
    assert Multiple(add, zero, g, 1) == add(Multiple(add, zero, g, 0), g);
  }

  /** The loop of _secp_multiply over any addition, from the lowest bit of the scalar. */
  method DoubleAndAdd<T(!new)>(add: (T, T) -> T, zero: T, g: T, scalar: nat, ghost holds: T -> bool)
    returns (result: T)
    ensures Tracks(add, zero, g, result, scalar)
    ensures ClosedUnder(add, holds) && holds(zero) && holds(g) ==> holds(result)
  {
    result := zero;
    var addend, rest := g, scalar;
    ghost var done, weight := 0, 1;
    FirstTracks(add, zero, g);
    while rest != 0
      invariant Splits(scalar, done, rest, weight)
      invariant ClosedUnder(add, holds) && holds(zero) && holds(g) ==> holds(result) && holds(addend)
      invariant Tracks(add, zero, g, result, done) && Tracks(add, zero, g, addend, weight)
      decreases rest
    {
      HalvingSplits(scalar, done, rest, weight);
      if rest % 2 == 1 {
        SumTracks(add, zero, g, result, done, addend, weight);
        result := add(result, addend);
        done := done + weight;
      }
      SumTracks(add, zero, g, addend, weight, addend, weight);
      addend := add(addend, addend);
      rest, weight := rest / 2, weight + weight;
    }
  }

  /** Addition modulo p. */
  function Sum(p: int): (Point, Point) -> Point
    requires p > 2
  {
    (a: Point, b: Point) => Add(a, b, p)
  }

  function Times(n: nat, g: Point, p: int): Point
    requires p > 2
  {
    Multiple(Sum(p), Infinity, g, n)
  }

  lemma {:induction false} MultiplesStayOnCurve(n: nat, g: Point, p: int)
    requires IsPrime(p) && p > 2 && OnCurve(g, p)
    ensures OnCurve(Times(n, g, p), p)
  {
    if n == 0 {
    } else {
      MultiplesStayOnCurve(n - 1, g, p);
      AddStaysOnCurve(Times(n - 1, g, p), g, p);
    }
  }

  lemma AdditionIsClosed(p: int)
    requires IsPrime(p) && p > 2
    ensures ClosedUnder(Sum(p), (a: Point) => OnCurve(a, p))
  {
    forall a: Point, b: Point | OnCurve(a, p) && OnCurve(b, p) ensures OnCurve(Add(a, b, p), p) {
      AddStaysOnCurve(a, b, p);
    }
  }

  /**
   _secp_multiply. Every result is a point of the curve; where addition associates on the multiples
   of g it is the scalar multiple, and it is refused exactly outside the range or at infinity.
   */
  method Multiply(scalar: int, order: int, g: Point, p: int) returns (r: Option<Point>)
    requires p > 2
    ensures scalar <= 0 || scalar >= order ==> r.None?
    ensures r.Some? ==> r.value.Affine?
    ensures r.Some? && IsPrime(p) && OnCurve(g, p) ==> OnCurve(r.value, p)
    ensures Associates(Sum(p), Infinity, g) && 0 < scalar < order ==>
              r == if Times(scalar, g, p).Infinity? then None else Some(Times(scalar, g, p))
  {
    if scalar <= 0 || scalar >= order {
      return None;
    }
    var result := DoubleAndAdd(Sum(p), Infinity, g, scalar, (a: Point) => OnCurve(a, p));
    if IsPrime(p) {
      AdditionIsClosed(p);
    }
    r := if result.Infinity? then None else Some(result);
  }

  // ----- the constants of the script

  const SECP_P: int := 0xFFFFFFFFFFFFFFFFFFFFFFFFFFFFFFFFFFFFFFFFFFFFFFFFFFFFFFFEFFFFFC2F
  const SECP_N: int := 0xFFFFFFFFFFFFFFFFFFFFFFFFFFFFFFFEBAAEDCE6AF48A03BBFD25E8CD0364141
  const SECP_G: Point :=
    Affine(0x79BE667EF9DCBBAC55A06295CE870B07029BFCDB2DCE28D959F2815B16F81798,
           0x483ADA7726A3C4655DA4FBFC0E1108A8FD17B448A68554199C47D08FFB10D4B8)

  lemma GeneratorIsOnCurve()
    ensures OnCurve(SECP_G, SECP_P)
  {
  }

  /** _secp_multiply at the constants of the script: the public point of a private key. */
  method PublicPoint(scalar: int) returns (r: Option<Point>)
    ensures scalar <= 0 || scalar >= SECP_N ==> r.None?
    ensures r.Some? ==> r.value.Affine?
    ensures r.Some? && IsPrime(SECP_P) ==> OnCurve(r.value, SECP_P)
    ensures Associates(Sum(SECP_P), Infinity, SECP_G) && 0 < scalar < SECP_N ==>
              r == if Times(scalar, SECP_G, SECP_P).Infinity? then None else Some(Times(scalar, SECP_G, SECP_P))
  {
    GeneratorIsOnCurve();
    r := Multiply(scalar, SECP_N, SECP_G, SECP_P);
  }
}
