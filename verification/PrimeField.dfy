/** Arithmetic modulo a prime: cancellation, and inverses by Fermat's little theorem. */
module PrimeField {
  import opened Sorting

  ghost predicate IsPrime(p: int) {
    p >= 2 && forall d :: 2 <= d < p ==> p % d != 0
  }

  /** x is zero modulo p. */
  predicate Zero(x: int, p: int)
    requires p > 0
  {
    x % p == 0
  }

  lemma LargeMultiple(k: int, p: int)
    requires p > 0
    ensures k >= 1 ==> k * p >= p
    ensures k <= -1 ==> k * p <= -p
  {
    if k >= 1 {
      assert (k - 1) * p >= 0;
    } else if k <= -1 {
      assert (-k - 1) * p >= 0;
    }
  }

  lemma MultipleIsZero(k: int, p: int)
    requires p > 0
    ensures Zero(k * p, p)
  {
    var x := k * p;
    var q, r := x / p, x % p;
    assert x == q * p + r;
    assert (k - q) * p == r;
    LargeMultiple(k - q, p);
  }

  lemma ZeroTimes(x: int, y: int, p: int)
    requires p > 0 && Zero(x, p)
    ensures Zero(x * y, p) && Zero(y * x, p)
  {
    var k := x / p;
    assert x == k * p;
    assert x * y == (k * y) * p;
    MultipleIsZero(k * y, p);
  }

  lemma ZeroPlus(x: int, y: int, p: int)
    requires p > 0 && Zero(x, p) && Zero(y, p)
    ensures Zero(x + y, p) && Zero(x - y, p)
  {
    var k, l := x / p, y / p;
    assert x == k * p && y == l * p;
    assert x + y == (k + l) * p && x - y == (k - l) * p;
    MultipleIsZero(k + l, p);
    MultipleIsZero(k - l, p);
  }

  lemma ReducedIsSame(x: int, p: int)
    requires p > 0
    ensures Zero(x - x % p, p) && Zero(x % p - x, p)
    ensures Zero(x % p, p) <==> Zero(x, p)
  {
    var k := x / p;
    assert x - x % p == k * p && x % p - x == (-k) * p;
    MultipleIsZero(k, p);
    MultipleIsZero(-k, p);
  }

  /** Numbers below p that agree modulo p are equal. */
  lemma SmallAndSame(a: int, b: int, p: int)
    requires p > 0 && 0 <= a < p && 0 <= b < p && Zero(a - b, p)
    ensures a == b
  {
    var k := (a - b) / p;
    assert a - b == k * p;
    LargeMultiple(k, p);
  }

  // ----- Euclid: a prime that divides a product divides a factor

  lemma {:induction false} SmallFactorCancels(a: int, b: int, p: int)
    requires IsPrime(p) && 0 < a < p && Zero(a * b, p)
    ensures Zero(b, p)
    decreases a
  {
    if a == 1 {
      assert a * b == b;
    } else {
      var q, r := p / a, p % a;
      assert r != 0;
      assert r * b == p * b - q * (a * b) by {
        assert p == q * a + r;
        assert p * b == q * a * b + r * b;
        assert q * a * b == q * (a * b);
      }
      MultipleIsZero(b, p);
      ZeroTimes(a * b, q, p);
      ZeroPlus(p * b, q * (a * b), p);
      SmallFactorCancels(r, b, p);
    }
  }

  lemma FactorCancels(a: int, b: int, p: int)
    requires IsPrime(p) && Zero(a * b, p) && !Zero(a, p)
    ensures Zero(b, p)
  {
    var k, r := a / p, a % p;
    assert a == k * p + r;
    assert r * b == a * b - (k * b) * p by {
      assert a * b == (k * p + r) * b == k * p * b + r * b;
      assert k * p * b == (k * b) * p;
    }
    MultipleIsZero(k * b, p);
    ZeroPlus(a * b, (k * b) * p, p);
    SmallFactorCancels(r, b, p);
  }

  // ----- powers

  function Power(b: int, e: nat): int {
    if e == 0 then 1 else b * Power(b, e - 1)
  }

  /** pow(b, e, m) */
  function PowerMod(b: int, e: nat, m: int): int
    requires m > 0
  {
    if e == 0 then 1 % m else b * PowerMod(b, e - 1, m) % m
  }

  lemma {:induction false} PowerModIsPower(b: int, e: nat, m: int)
    requires m > 0
    ensures Zero(PowerMod(b, e, m) - Power(b, e), m)
  {
    if e == 0 {
      ReducedIsSame(1, m);
    } else {
      PowerModIsPower(b, e - 1, m);
      var reduced, exact := PowerMod(b, e - 1, m), Power(b, e - 1);
      ZeroTimes(reduced - exact, b, m);
      ReducedIsSame(b * reduced, m);
      assert b * (reduced - exact) == b * reduced - b * exact;
      ZeroPlus(b * reduced % m - b * reduced, b * (reduced - exact), m);
    }
  }

  // ----- Fermat: the multiples of a are the same residues in another order

  function Product(s: seq<int>): int {
    if s == [] then 1 else Product(s[..|s| - 1]) * s[|s| - 1]
  }

  function Residues(n: nat): (s: seq<int>)
    ensures |s| == n && forall i :: 0 <= i < n ==> s[i] == i + 1
  {
    seq(n, i requires 0 <= i => i + 1)
  }

  function Multiples(a: int, n: nat, p: int): (s: seq<int>)
    requires p > 0
    ensures |s| == n && forall i :: 0 <= i < n ==> s[i] == (a * (i + 1)) % p
  {
    seq(n, i requires 0 <= i => (a * (i + 1)) % p)
  }

  lemma {:induction false} ProductPulledOut(front: seq<int>, x: int, back: seq<int>)
    ensures Product(front + [x] + back) == Product(front + back) * x
  {
    if back == [] {
      assert front + [x] + back == front + [x] && front + back == front;
      assert (front + [x])[..|front|] == front;
    } else {
      var b, y := back[..|back| - 1], back[|back| - 1];
      ProductPulledOut(front, x, b);
      var whole, rest := front + [x] + back, front + back;
      assert whole[..|whole| - 1] == front + [x] + b && rest[..|rest| - 1] == front + b;
      assert Product(front + b) * x * y == Product(front + b) * y * x;
    }
  }

  lemma {:induction false} ProductOfPermutation(a: seq<int>, b: seq<int>)
    requires multiset(a) == multiset(b)
    ensures Product(a) == Product(b)
  {
    if a == [] {
      assert |b| == |multiset(b)| == |multiset(a)|;
    } else {
      var front, back := SplitAt(a, b);
      ProductOfPermutation(a[..|a| - 1], front + back);
      ProductPulledOut(front, a[|a| - 1], back);
    }
  }

  /** A number between 1 and p - 1 is not zero, and neither is its product with a. */
  lemma UnitTimes(a: int, x: int, p: int)
    requires IsPrime(p) && !Zero(a, p) && 0 < x < p
    ensures 0 < (a * x) % p < p
  {
    if Zero(a * x, p) {
      FactorCancels(a, x, p);
      SmallAndSame(x, 0, p);
    }
  }

  lemma MultiplesDiffer(a: int, x: int, y: int, p: int)
    requires IsPrime(p) && !Zero(a, p) && 0 < x < y < p
    ensures (a * x) % p != (a * y) % p
  {
    if (a * x) % p == (a * y) % p {
      ReducedIsSame(a * x, p);
      ReducedIsSame(a * y, p);
      assert a * (y - x) == (a * y - (a * y) % p) - (a * x - (a * x) % p);
      ZeroPlus(a * y - (a * y) % p, a * x - (a * x) % p, p);
      FactorCancels(a, y - x, p);
      SmallAndSame(y - x, 0, p);
    }
  }

  lemma {:induction false} DistinctSize(s: seq<int>)
    requires forall i, j :: 0 <= i < j < |s| ==> s[i] != s[j]
    ensures |set x | x in s| == |s|
    ensures multiset(s) == multiset(set x | x in s)
  {
    if s == [] {
    } else {
      var front, last := s[..|s| - 1], s[|s| - 1];
      DistinctSize(front);
      assert s == front + [last];
      assert last !in front;
      assert (set x | x in s) == (set x | x in front) + {last};
    }
  }

  /** n distinct numbers between 1 and n are all of them. */
  lemma {:induction false} Pigeonhole(s: seq<int>)
    requires forall i, j :: 0 <= i < j < |s| ==> s[i] != s[j]
    requires forall i :: 0 <= i < |s| ==> 1 <= s[i] <= |s|
    ensures multiset(s) == multiset(Residues(|s|))
  {
    var residues := Residues(|s|);
    var range, elements := set x | x in residues, set x | x in s;
    DistinctSize(s);
    DistinctSize(residues);
    forall i | 0 <= i < |s| ensures s[i] in residues {
      assert residues[s[i] - 1] == s[i];
    }
    assert elements <= range;
    assert |range - elements| == |range| - |elements|;
    assert elements == range;
  }

  lemma {:induction false} MultiplesAreUnits(a: int, p: int, s: seq<int>)
    requires IsPrime(p) && !Zero(a, p) && s == Multiples(a, p - 1, p)
    ensures forall i :: 0 <= i < |s| ==> 1 <= s[i] <= |s|
  {
    forall i | 0 <= i < |s| ensures 1 <= s[i] <= |s| {
      UnitTimes(a, i + 1, p);
    }
  }

  lemma {:induction false} MultiplesAreDistinct(a: int, p: int, s: seq<int>)
    requires IsPrime(p) && !Zero(a, p) && s == Multiples(a, p - 1, p)
    ensures forall i, j :: 0 <= i < j < |s| ==> s[i] != s[j]
  {
    forall i, j | 0 <= i < j < |s| ensures s[i] != s[j] {
      MultiplesDiffer(a, i + 1, j + 1, p);
    }
  }

  lemma {:induction false} MultiplesPermute(a: int, p: int)
    requires IsPrime(p) && !Zero(a, p)
    ensures Product(Multiples(a, p - 1, p)) == Product(Residues(p - 1))
  {
    var s := Multiples(a, p - 1, p);
    MultiplesAreUnits(a, p, s);
    MultiplesAreDistinct(a, p, s);
    Pigeonhole(s);
    ProductOfPermutation(s, Residues(p - 1));
  }

  /** The product of the multiples is the power of a times the product of the residues. */
  lemma {:induction false} MultiplesFactor(a: int, n: nat, p: int)
    requires p > 0
    ensures Zero(Product(Multiples(a, n, p)) - Power(a, n) * Product(Residues(n)), p)
  {
    if n == 0 {
    } else {
      MultiplesFactor(a, n - 1, p);
      assert Multiples(a, n, p)[..n - 1] == Multiples(a, n - 1, p);
      assert Residues(n)[..n - 1] == Residues(n - 1);
      var m, r, w := Product(Multiples(a, n - 1, p)), Product(Residues(n - 1)), Power(a, n - 1);
      var x := a * n;
      ReducedIsSame(x, p);
      ZeroTimes(x % p - x, m, p);
      ZeroTimes(m - w * r, x, p);
      ZeroPlus((x % p - x) * m, (m - w * r) * x, p);
      FactorStep(m, r, w, a, n, x % p);
    }
  }

  lemma FactorStep(m: int, r: int, w: int, a: int, n: int, reduced: int)
    ensures m * reduced - (a * w) * (r * n) == (reduced - a * n) * m + (m - w * r) * (a * n)
  {
    assert (reduced - a * n) * m == m * reduced - m * (a * n);
    assert (m - w * r) * (a * n) == m * (a * n) - (w * r) * (a * n);
    assert (w * r) * (a * n) == (a * w) * (r * n);
  }

  lemma {:induction false} ResiduesAreUnits(n: nat, p: int)
    requires IsPrime(p) && n < p
    ensures !Zero(Product(Residues(n)), p)
  {
    if n == 0 {
    } else {
      ResiduesAreUnits(n - 1, p);
      assert Residues(n)[..n - 1] == Residues(n - 1);
      UnitTimes(Product(Residues(n - 1)), n, p);
    }
  }

  /** Fermat's little theorem. */
  lemma {:induction false} Fermat(a: int, p: int)
    requires IsPrime(p) && !Zero(a, p)
    ensures Zero(Power(a, p - 1) - 1, p)
  {
    var r, w := Product(Residues(p - 1)), Power(a, p - 1);
    MultiplesPermute(a, p);
    MultiplesFactor(a, p - 1, p);
    assert r * (w - 1) == -(r - w * r);
    ZeroTimes(r - w * r, -1, p);
    ResiduesAreUnits(p - 1, p);
    FactorCancels(r, w - 1, p);
  }

  /** pow(a, p - 2, p) is the inverse of a. */
  lemma {:induction false} InverseByPower(a: int, p: int)
    requires IsPrime(p) && !Zero(a, p)
    ensures Zero(a * PowerMod(a, p - 2, p) - 1, p)
  {
    Fermat(a, p);
    PowerModIsPower(a, p - 2, p);
    var inverse, exact := PowerMod(a, p - 2, p), Power(a, p - 2);
    assert a * exact == Power(a, p - 1);
    InverseBy(a, inverse, exact, p);
  }

  lemma InverseBy(a: int, inverse: int, exact: int, p: int)
    requires p > 0 && Zero(inverse - exact, p) && Zero(a * exact - 1, p)
    ensures Zero(a * inverse - 1, p)
  {
    ZeroTimes(inverse - exact, a, p);
    assert a * (inverse - exact) == a * inverse - a * exact;
    ZeroPlus(a * (inverse - exact), a * exact - 1, p);
  }
}
