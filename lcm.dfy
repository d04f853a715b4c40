/**
 * Greatest common divisor and least common multiple of 2023/day08/lcm.py, on natural
 * numbers: `_gcd` is Euclid's recursion, `_lcm` divides before it multiplies, and the
 * list versions fold the pair versions from the left.
 */
module Lcm {
  import opened Wrappers

  /** `d` divides `n`; zero divides only zero. */
  predicate Divides(d: nat, n: nat) {
    if d == 0 then n == 0 else n % d == 0
  }

  /**
   * `_gcd`: zero arguments return the other one; otherwise the larger argument is
   * divided by the smaller and the recursion continues on (smaller, remainder).
   */
  function Gcd(a: nat, b: nat): (r: nat)
    ensures r == 0 <==> a == 0 && b == 0
    ensures a == 0 ==> r == b
    ensures b == 0 ==> r == a
    decreases a + b
  {
    if a == 0 then b
    else if b == 0 then a
    else
      var (x, y) := if a < b then (b, a) else (a, b);
      Gcd(y, x % y)
  }

  /** Euclidean division is unique: a quotient and remainder in range are the ones `/` and `%` give. */
  lemma DivModUnique(x: int, y: int, q: int, r: int)
    requires y > 0 && x == q * y + r && 0 <= r < y
    ensures x / y == q && x % y == r
  {
    var q', r' := x / y, x % y;
    assert x == q' * y + r' && 0 <= r' < y;
    MulDistributes(q, q', y);
    if q > q' {
      MulAtLeast(q - q', y);
    } else if q < q' {
      MulDistributes(q', q, y);
      MulAtLeast(q' - q, y);
    }
  }

  lemma MulDistributes(a: int, b: int, y: int)
    ensures (a - b) * y == a * y - b * y
  {
  }

  lemma {:induction false} MulAtLeast(k: int, y: int)
    requires k >= 1 && y > 0
    ensures k * y >= y
    decreases k
  {
    if k > 1 {
      MulAtLeast(k - 1, y);
      MulDistributes(k, 1, y);
    }
  }

  /** `n` is a multiple of `d` exactly when some `k` gives `n == k * d`. */
  lemma DividesWitness(d: nat, n: nat, k: nat)
    requires n == k * d
    ensures Divides(d, n)
  {
    if d > 0 {
      DivModUnique(n, d, k, 0);
    }
  }

  lemma DividesQuotient(d: nat, n: nat)
    requires d > 0 && Divides(d, n)
    ensures n == (n / d) * d
  {
  }

  /** A common divisor of `x` and `y` divides `x % y`, and one of `y` and `x % y` divides `x`. */
  lemma DividesRemainder(d: nat, x: nat, y: nat)
    requires y > 0
    ensures Divides(d, x) && Divides(d, y) ==> Divides(d, x % y)
    ensures Divides(d, y) && Divides(d, x % y) ==> Divides(d, x)
  {
    var q := x / y;
    assert x == q * y + x % y;
    if d > 0 && Divides(d, y) {
      var ky := y / d;
      DividesQuotient(d, y);
      if Divides(d, x) {
        var kx := x / d;
        DividesQuotient(d, x);
        assert x % y == (kx - q * ky) * d;
        DividesWitness(d, x % y, kx - q * ky);
      }
      if Divides(d, x % y) {
        var kr := (x % y) / d;
        DividesQuotient(d, x % y);
        assert x == (q * ky + kr) * d;
        DividesWitness(d, x, q * ky + kr);
      }
    }
  }

  /** `_gcd(a, b)` divides both arguments. */
  lemma {:induction false} GcdDivides(a: nat, b: nat)
    ensures Divides(Gcd(a, b), a) && Divides(Gcd(a, b), b)
    decreases a + b
  {
    if a != 0 && b != 0 {
      var (x, y) := if a < b then (b, a) else (a, b);
      GcdDivides(y, x % y);
      DividesRemainder(Gcd(a, b), x, y);
    } else {
      DividesWitness(a + b, 0, 0);
      DividesWitness(a + b, a + b, 1);
    }
  }

  /** Every common divisor of `a` and `b` divides `_gcd(a, b)`: it is the greatest one. */
  lemma {:induction false} GcdGreatest(a: nat, b: nat, d: nat)
    requires Divides(d, a) && Divides(d, b)
    ensures Divides(d, Gcd(a, b))
    decreases a + b
  {
    if a != 0 && b != 0 {
      var (x, y) := if a < b then (b, a) else (a, b);
      DividesRemainder(d, x, y);
      GcdGreatest(y, x % y, d);
    }
  }

  lemma MulStrictMono(m: nat, a: nat, b: nat)
    requires m > 0
    ensures a < b <==> m * a < m * b
  {
    if a < b {
      MulAtLeast(b - a, m);
      MulDistributes(b, a, m);
    } else if b < a {
      MulAtLeast(a - b, m);
      MulDistributes(a, b, m);
    }
  }

  lemma ModScale(m: nat, x: nat, y: nat)
    requires m > 0 && y > 0
    ensures (m * x) % (m * y) == m * (x % y)
  {
    var q, r := x / y, x % y;
    assert m * x == q * (m * y) + m * r;
    assert m * r < m * y;
    DivModUnique(m * x, m * y, q, m * r);
  }

  /** Scaling both arguments scales the gcd: `_gcd(m*a, m*b) == m * _gcd(a, b)`. */
  lemma {:induction false} GcdScale(m: nat, a: nat, b: nat)
    ensures Gcd(m * a, m * b) == m * Gcd(a, b)
    decreases a + b
  {
    if m > 0 && a != 0 && b != 0 {
      var (x, y) := if a < b then (b, a) else (a, b);
      MulStrictMono(m, a, b);
      MulStrictMono(m, b, a);
      MulAtLeast(m, a);
      MulAtLeast(m, b);
      assert Gcd(m * a, m * b) == Gcd(m * y, (m * x) % (m * y));
      ModScale(m, x, y);
      GcdScale(m, y, x % y);
    }
  }

  /**
   * `_lcm`: `a * (b // _gcd(a, b))`. Both arguments zero divides by zero, which the
   * source lets escape as an exception.
   */
  function LcmPair(a: nat, b: nat): (r: Result<nat>)
    ensures r.Failure? <==> a == 0 && b == 0
  {
    var g := Gcd(a, b);
    if g == 0 then Failure("division by zero")
    else
      var q: nat := b / g;
      Success(a * q)
  }

  /** Both arguments divide `_lcm(a, b)`; it is zero exactly when one argument is. */
  lemma LcmCommonMultiple(a: nat, b: nat)
    requires a != 0 || b != 0
    ensures LcmPair(a, b).Success?
    ensures Divides(a, LcmPair(a, b).value) && Divides(b, LcmPair(a, b).value)
    ensures LcmPair(a, b).value == 0 <==> a == 0 || b == 0
  {
    var g := Gcd(a, b);
    GcdDivides(a, b);
    var ka, kb := a / g, b / g;
    DividesQuotient(g, a);
    DividesQuotient(g, b);
    var l := a * kb;
    assert l == ka * b by {
      calc {
        a * kb;
        (ka * g) * kb;
        ka * (kb * g);
        ka * b;
      }
    }
    DividesWitness(a, l, kb);
    DividesWitness(b, l, ka);
    if a != 0 && b != 0 {
      assert kb > 0;
    }
  }

  /** Dividing both arguments by their gcd leaves coprime quotients. */
  lemma CoprimeQuotients(a: nat, b: nat)
    requires a > 0 && b > 0
    ensures var g := Gcd(a, b);
      var ok := g > 0 && a == g * (a / g) && b == g * (b / g) && Gcd(a / g, b / g) == 1; ok
  {
    var g := Gcd(a, b);
    GcdDivides(a, b);
    Cofactor(g, a);
    Cofactor(g, b);
    CoprimeAfterScale(g, a / g, b / g, a, b);
  }

  lemma CoprimeAfterScale(g: nat, a': nat, b': nat, a: nat, b: nat)
    requires g > 0 && a == g * a' && b == g * b' && Gcd(a, b) == g
    ensures Gcd(a', b') == 1
  {
    GcdScaleAt(g, a', b', a, b);
    UnitFactor(g, Gcd(a', b'));
  }

  /** `GcdScale` with the scaled arguments named. */
  lemma GcdScaleAt(m: nat, a: nat, b: nat, ma: nat, mb: nat)
    requires ma == m * a && mb == m * b
    ensures Gcd(ma, mb) == m * Gcd(a, b)
  {
    GcdScale(m, a, b);
  }

  /** A positive divisor times its cofactor gives the multiple back. */
  lemma Cofactor(d: nat, n: nat)
    requires d > 0 && Divides(d, n)
    ensures n == d * (n / d)
  {
  }

  lemma UnitFactor(g: nat, c: nat)
    requires g > 0 && g * c == g
    ensures c == 1
  {
    MulCancel(g, c, 1);
  }

  /** Euclid's lemma: if `a'` is coprime to `b'` and divides `b' * t`, it divides `t`. */
  lemma CoprimeDivides(a': nat, b': nat, s: nat, t: nat)
    requires a' > 0 && Gcd(a', b') == 1 && a' * s == b' * t
    ensures Divides(a', t)
  {
    GcdScaleAt(t, a', b', t * a', t * b');
    CommonFactor(a', t, s, t * a', t * b');
  }

  /** `a'` divides both `x == t * a'` and `y == s * a'`, so it divides their gcd `t`. */
  lemma CommonFactor(a': nat, t: nat, s: nat, x: nat, y: nat)
    requires x == t * a' && y == s * a' && Gcd(x, y) == t
    ensures Divides(a', t)
  {
    DividesWitness(a', x, t);
    DividesWitness(a', y, s);
    GcdGreatest(x, y, a');
  }

  /**
   * For positive arguments `_lcm(a, b)` divides every common multiple: it is the least
   * common multiple.
   */
  lemma LcmLeast(a: nat, b: nat, n: nat)
    requires a > 0 && b > 0 && Divides(a, n) && Divides(b, n)
    ensures Divides(LcmPair(a, b).value, n)
  {
    CoprimeQuotients(a, b);
    var g := Gcd(a, b);
    var a', b' := a / g, b / g;
    DividesQuotient(a, n);
    DividesQuotient(b, n);
    var s, t := n / a, n / b;
    SharedFactor(g, a', b', s, t, n);
    CoprimeDivides(a', b', s, t);
    DividesQuotient(a', t);
    var u := t / a';
    assert LcmPair(a, b).value == a * b';
    MultipleOfProduct(g, a', b', t, u, n);
    DividesWitness(a * b', n, u);
  }

  /** With `a == g * a'` and `b == g * b'`, the cofactors of a common multiple satisfy `a' * s == b' * t`. */
  lemma SharedFactor(g: nat, a': nat, b': nat, s: nat, t: nat, n: nat)
    requires g > 0 && n == s * (g * a') && n == t * (g * b')
    ensures a' * s == b' * t
  {
    assert g * (a' * s) == g * (b' * t);
    MulCancel(g, a' * s, b' * t);
  }

  lemma MultipleOfProduct(g: nat, a': nat, b': nat, t: nat, u: nat, n: nat)
    requires n == t * (g * b') && t == u * a'
    ensures n == u * ((g * a') * b')
  {
  }

  lemma MulCancel(g: nat, x: nat, y: nat)
    requires g > 0 && g * x == g * y
    ensures x == y
  {
    MulStrictMono(g, x, y);
    MulStrictMono(g, y, x);
  }

  /** The left fold of `gcd`'s loop: `d = _gcd(d, v)` for each remaining value. */
  function GcdFold(d: nat, vs: seq<nat>): nat
    decreases |vs|
  {
    if vs == [] then d else GcdFold(Gcd(d, vs[0]), vs[1..])
  }

  /** The folded gcd divides the start and every value, and every common divisor divides it. */
  lemma {:induction false} GcdFoldIsCommonDivisor(d: nat, vs: seq<nat>)
    ensures Divides(GcdFold(d, vs), d)
    ensures forall i :: 0 <= i < |vs| ==> Divides(GcdFold(d, vs), vs[i])
    ensures forall c: nat :: Divides(c, d) && (forall i :: 0 <= i < |vs| ==> Divides(c, vs[i])) ==>
      Divides(c, GcdFold(d, vs))
    decreases |vs|
  {
    if vs != [] {
      var g := Gcd(d, vs[0]);
      GcdFoldIsCommonDivisor(g, vs[1..]);
      var r := GcdFold(g, vs[1..]);
      GcdDivides(d, vs[0]);
      DividesTransitive(r, g, d);
      DividesTransitive(r, g, vs[0]);
      forall i | 1 <= i < |vs| ensures Divides(r, vs[i]) {
        assert vs[i] == vs[1..][i - 1];
      }
      forall c: nat | Divides(c, d) && (forall i :: 0 <= i < |vs| ==> Divides(c, vs[i]))
        ensures Divides(c, r)
      {
        GcdGreatest(d, vs[0], c);
        forall i | 0 <= i < |vs[1..]| ensures Divides(c, vs[1..][i]) {
          assert vs[1..][i] == vs[i + 1];
        }
      }
    }
  }

  lemma DividesTransitive(a: nat, b: nat, c: nat)
    requires Divides(a, b) && Divides(b, c)
    ensures Divides(a, c)
  {
    if a > 0 && b > 0 {
      DividesQuotient(a, b);
      DividesQuotient(b, c);
      var kb, kc := b / a, c / b;
      assert c == (kc * kb) * a by {
        calc {
          c;
          kc * b;
          kc * (kb * a);
          (kc * kb) * a;
        }
      }
      DividesWitness(a, c, kc * kb);
    }
  }

  /**
   * `gcd` of a list: ValueError with fewer than two values, otherwise the left fold of
   * `_gcd`, which divides every value and is divided by every common divisor.
   */
  method GcdList(a: seq<nat>) returns (r: Result<nat>)
    ensures r.Failure? <==> |a| < 2
    ensures r.Success? ==> r.value == GcdFold(a[0], a[1..])
    ensures r.Success? ==> forall i :: 0 <= i < |a| ==> Divides(r.value, a[i])
    ensures r.Success? ==> forall c: nat :: (forall i :: 0 <= i < |a| ==> Divides(c, a[i])) ==>
      Divides(c, r.value)
  {
    if |a| < 2 {
      return Failure("need at least two values");
    }
    var d := a[0];
    var i := 1;
    while i < |a|
      invariant 1 <= i <= |a|
      invariant GcdFold(d, a[i..]) == GcdFold(a[0], a[1..])
    {
      assert a[i..][1..] == a[i + 1..];
      d := Gcd(d, a[i]);
      i := i + 1;
    }
    assert a[i..] == [];
    r := Success(d);
    GcdFoldIsCommonDivisor(a[0], a[1..]);
    forall i | 0 <= i < |a| ensures Divides(d, a[i]) {
      if i > 0 {
        assert a[i] == a[1..][i - 1];
      }
    }
    forall c: nat | (forall i :: 0 <= i < |a| ==> Divides(c, a[i])) ensures Divides(c, d) {
      assert Divides(c, a[0]);
      forall i | 0 <= i < |a[1..]| ensures Divides(c, a[1..][i]) {
        assert a[1..][i] == a[i + 1];
      }
    }
  }

  /** The left fold of `lcm`'s loop, failing where `_lcm` would divide by zero. */
  function LcmFold(m: nat, vs: seq<nat>): Result<nat>
    decreases |vs|
  {
    if vs == [] then Success(m)
    else
      var next := LcmPair(m, vs[0]);
      if next.Failure? then Failure(next.error) else LcmFold(next.value, vs[1..])
  }

  /**
   * Over positive values the folded lcm succeeds, is positive, is a multiple of the
   * start and of every value, and divides every positive common multiple of them.
   */
  lemma {:induction false} LcmFoldIsLeastCommonMultiple(m: nat, vs: seq<nat>)
    requires m > 0 && forall i :: 0 <= i < |vs| ==> vs[i] > 0
    ensures LcmFold(m, vs).Success? && LcmFold(m, vs).value > 0
    ensures Divides(m, LcmFold(m, vs).value)
    ensures forall i :: 0 <= i < |vs| ==> Divides(vs[i], LcmFold(m, vs).value)
    ensures forall n: nat :: Divides(m, n) && (forall i :: 0 <= i < |vs| ==> Divides(vs[i], n)) ==>
      Divides(LcmFold(m, vs).value, n)
    decreases |vs|
  {
    if vs == [] {
      DividesWitness(m, m, 1);
    } else {
      LcmCommonMultiple(m, vs[0]);
      var l := LcmPair(m, vs[0]).value;
      LcmFoldIsLeastCommonMultiple(l, vs[1..]);
      var r := LcmFold(l, vs[1..]).value;
      DividesTransitive(m, l, r);
      DividesTransitive(vs[0], l, r);
      forall i | 1 <= i < |vs| ensures Divides(vs[i], r) {
        assert vs[i] == vs[1..][i - 1];
      }
      forall n: nat | Divides(m, n) && (forall i :: 0 <= i < |vs| ==> Divides(vs[i], n))
        ensures Divides(r, n)
      {
        LcmLeast(m, vs[0], n);
        forall i | 0 <= i < |vs[1..]| ensures Divides(vs[1..][i], n) {
          assert vs[1..][i] == vs[i + 1];
        }
      }
    }
  }

  /**
   * `lcm` of a list: ValueError with fewer than two values, otherwise the left fold of
   * `_lcm`; over positive values it is the least positive common multiple.
   */
  method LcmList(a: seq<nat>) returns (r: Result<nat>)
    ensures |a| < 2 ==> r.Failure?
    ensures |a| >= 2 ==> r == LcmFold(a[0], a[1..])
    ensures |a| >= 2 && (forall i :: 0 <= i < |a| ==> a[i] > 0) ==>
      r.Success? && r.value > 0 && (forall i :: 0 <= i < |a| ==> Divides(a[i], r.value))
  {
    if |a| < 2 {
      return Failure("need at least two values");
    }
    var m := a[0];
    var i := 1;
    while i < |a|
      invariant 1 <= i <= |a|
      invariant LcmFold(m, a[i..]) == LcmFold(a[0], a[1..])
    {
      assert a[i..][1..] == a[i + 1..];
      var next := LcmPair(m, a[i]);
      if next.Failure? {
        return Failure(next.error);
      }
      m := next.value;
      i := i + 1;
    }
    assert a[i..] == [];
    r := Success(m);
    if forall i :: 0 <= i < |a| ==> a[i] > 0 {
      LcmFoldIsLeastCommonMultiple(a[0], a[1..]);
      forall i | 0 <= i < |a| ensures Divides(a[i], m) {
        if i > 0 {
          assert a[i] == a[1..][i - 1];
        }
      }
    }
  }
}
