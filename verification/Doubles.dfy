/**
  Whole numbers as the page holds them.  A JavaScript number has 53 significant bits, so a
  larger integer is rounded when it is read; and it is printed with as few significant digits
  as still read back as the same number.
 */
module Doubles {

  /** Two to the power of 53. */
  const LIMIT: nat := 0x20_0000_0000_0000

  function Pow2(k: nat): (p: nat)
    ensures p >= 1
  {
    if k == 0 then 1 else 2 * Pow2(k - 1)
  }

  function Pow10(k: nat): (p: nat)
    ensures p >= 1
  {
    if k == 0 then 1 else 10 * Pow10(k - 1)
  }

  /** The distance of the numbers that can be held around `m`. */
  function Unit(m: nat): (u: nat)
    ensures u >= 1
  {
    if m < LIMIT then 1 else 2 * Unit(m / 2)
  }

  /** Reading `m`: the nearest number that can be held, and of two the one with the even last bit. */
  function Round(m: nat): nat {
    var u := Unit(m);
    var r := m % u;
    if 2 * r < u || (2 * r == u && m / u % 2 == 0) then m - r else m - r + u
  }

  predicate IsScaled(m: nat, a: nat, k: nat) {
    a < LIMIT && m == a * Pow2(k)
  }

  /** Fits into 53 significant bits. */
  ghost predicate FitsDouble(m: nat) {
    exists a: nat, k: nat :: IsScaled(m, a, k)
  }

  // ---------------------------------------------------------------- rounding

  /** The unit is the power of two that leaves 53 bits. */
  lemma {:induction false} UnitIsPower(m: nat) returns (k: nat)
    ensures Unit(m) == Pow2(k)
    ensures m / Pow2(k) < LIMIT
    ensures k > 0 ==> LIMIT / 2 * Pow2(k) <= m
  {
    if m < LIMIT {
      k := 0;
    } else {
      var h := UnitIsPower(m / 2);
      k := h + 1;
      HalfThenDivide(m, Pow2(h));
    }
  }

  lemma HalfThenDivide(m: nat, p: nat)
    requires p >= 1
    ensures m / (2 * p) == m / 2 / p
  {
    var a, b := m / 2, m / 2 / p;
    assert a == b * p + a % p;
    assert m == b * (2 * p) + (2 * (a % p) + m % 2);
    QuotientIs(m, 2 * p, b, 2 * (a % p) + m % 2);
  }

  lemma QuotientIs(n: nat, k: nat, q: nat, r: nat)
    requires r < k && n == q * k + r
    ensures n / k == q && n % k == r
  {
    var q', r' := n / k, n % k;
    assert n == q' * k + r';
    if q' > q {
      TimesAtLeast(q' - q, k);
    } else if q > q' {
      TimesAtLeast(q - q', k);
    }
  }

  lemma TimesAtLeast(a: nat, k: nat)
    requires a > 0
    ensures a * k >= k
  {
    assert a * k == (a - 1) * k + k;
  }

  lemma MultipleHasNoRest(a: nat, k: nat)
    requires k >= 1
    ensures a * k % k == 0
  {
    QuotientIs(a * k, k, a, 0);
  }

  /** Rounding moves a number by at most half a unit, onto a multiple of the unit. */
  lemma RoundMoves(m: nat)
    ensures Round(m) % Unit(m) == 0
    ensures m <= Round(m) ==> 2 * (Round(m) - m) <= Unit(m)
    ensures m >= Round(m) ==> 2 * (m - Round(m)) <= Unit(m)
  {
    WithoutRest(m, Unit(m));
  }

  lemma WithoutRest(m: nat, u: nat)
    requires u >= 1
    ensures m - m % u >= 0 && (m - m % u) % u == 0 && (m - m % u + u) % u == 0
  {
    var q := m / u;
    assert m - m % u == q * u;
    assert q * u + u == (q + 1) * u;
    MultipleHasNoRest(q, u);
    MultipleHasNoRest(q + 1, u);
  }

  lemma RoundKeepsExactlyMultiples(m: nat)
    ensures Round(m) == m <==> m % Unit(m) == 0
  {
    RoundMoves(m);
  }

  lemma {:induction false} Pow2Splits(a: nat, b: nat)
    ensures Pow2(a + b) == Pow2(a) * Pow2(b)
  {
    if a > 0 {
      Pow2Splits(a - 1, b);
      assert Pow2(a + b) == 2 * Pow2(a - 1 + b);
      Reassociate(2, Pow2(a - 1), Pow2(b));
    }
  }

  lemma Reassociate(x: nat, y: nat, z: nat)
    ensures x * (y * z) == x * y * z
  {
  }

  /** A number whose quotient by a power of two is small has a unit that divides that power. */
  lemma {:induction false} UnitDivides(m: nat, k: nat) returns (t: nat)
    requires m / Pow2(k) < LIMIT
    ensures Pow2(k) == t * Unit(m)
    decreases k
  {
    if m < LIMIT {
      t := Pow2(k);
    } else {
      assert k > 0;
      HalfThenDivide(m, Pow2(k - 1));
      t := UnitDivides(m / 2, k - 1);
      Reassociate(2, t, Unit(m / 2));
      Reassociate(t, 2, Unit(m / 2));
    }
  }

  lemma FittingIsMultiple(m: nat, a: nat, k: nat)
    requires IsScaled(m, a, k)
    ensures m % Unit(m) == 0
  {
    QuotientIs(m, Pow2(k), a, 0);
    var t := UnitDivides(m, k);
    MultipleHasNoRest(t, Unit(m));
    MultipleHasNoRest(a, Pow2(k));
    MultipleOfMultiple(m, Pow2(k), Unit(m));
  }

  /** A number is held as it is exactly when it fits into 53 significant bits. */
  lemma HeldExactlyWhen(m: nat)
    ensures Round(m) == m <==> FitsDouble(m)
  {
    RoundKeepsExactlyMultiples(m);
    if m % Unit(m) == 0 {
      var k := UnitIsPower(m);
      assert IsScaled(m, m / Pow2(k), k);
    }
    if a: nat, k: nat :| IsScaled(m, a, k) {
      FittingIsMultiple(m, a, k);
    }
  }

  lemma RoundTakesNearer(m: nat)
    ensures Distance(Round(m), m) <= m % Unit(m) && Distance(Round(m), m) <= Unit(m) - m % Unit(m)
  {
  }

  /** From half the limit in units on, whatever fits is a multiple of the unit. */
  lemma LargeFitsAreMultiples(d: nat, k: nat)
    requires FitsDouble(d) && k > 0 && LIMIT * Pow2(k - 1) <= d
    ensures d % Pow2(k) == 0
  {
    var a: nat, j: nat :| IsScaled(d, a, j);
    if j < k {
      ScaledIsSmall(d, a, j, k - 1);
    } else {
      ScaledIsMultiple(d, a, j, k);
    }
  }

  lemma ScaledIsMultiple(d: nat, a: nat, j: nat, k: nat)
    requires IsScaled(d, a, j) && k <= j
    ensures d % Pow2(k) == 0
  {
    Pow2Divides(k, j);
    MultipleHasNoRest(a, Pow2(j));
    MultipleOfMultiple(d, Pow2(j), Pow2(k));
  }

  lemma ScaledIsSmall(d: nat, a: nat, j: nat, k: nat)
    requires IsScaled(d, a, j) && j <= k
    ensures d < LIMIT * Pow2(k)
  {
    Pow2Divides(j, k);
    TimesIsMonotone(a + 1, LIMIT, Pow2(j));
    assert (a + 1) * Pow2(j) == d + Pow2(j);
  }

  lemma TimesIsMonotone(a: nat, b: nat, c: nat)
    requires a <= b
    ensures a * c <= b * c
  {
    assert b * c == a * c + (b - a) * c;
  }

  /** Of the multiples of `u`, none lies strictly between the two around `m`. */
  lemma MultiplesAround(m: nat, d: nat, u: nat)
    requires u >= 1 && d % u == 0
    ensures if d <= m then d + m % u <= m else d >= m - m % u + u
  {
    WithoutRest(m, u);
    var low := m - m % u;
    if low < d {
      MultiplesAdd(low, d - low, u);
      MultipleIsLarge(d - low, u);
    }
  }

  lemma NearestOfMultiples(m: nat, d: nat)
    requires d % Unit(m) == 0
    ensures Distance(Round(m), m) <= Distance(d, m)
  {
    RoundTakesNearer(m);
    MultiplesAround(m, d, Unit(m));
  }

  /** Nothing that fits into 53 bits is nearer to a number than what it is read as. */
  lemma RoundIsNearest(m: nat, d: nat)
    requires FitsDouble(d)
    ensures Distance(Round(m), m) <= Distance(d, m)
  {
    var k := UnitIsPower(m);
    if k == 0 {
      NearestOfMultiples(m, m);
    } else {
      var edge := LIMIT * Pow2(k - 1);
      if d < edge {
        MultipleHasNoRest(LIMIT / 2, Pow2(k));
        assert edge == LIMIT / 2 * Pow2(k);
        NearestOfMultiples(m, edge);
      } else {
        LargeFitsAreMultiples(d, k);
        NearestOfMultiples(m, d);
      }
    }
  }

  lemma EvenTimes(q: nat, u: nat)
    requires u >= 1 && q % 2 == 0
    ensures q * u % (2 * u) == 0
  {
    Reassociate(q / 2, 2, u);
    MultipleHasNoRest(q / 2, 2 * u);
  }

  lemma EvenMultiple(m: nat, u: nat)
    requires u >= 1
    ensures m - m % u >= 0
    ensures if m / u % 2 == 0 then (m - m % u) % (2 * u) == 0 else (m - m % u + u) % (2 * u) == 0
  {
    var q := m / u;
    assert m - m % u == q * u;
    assert q * u + u == (q + 1) * u;
    if q % 2 == 0 {
      EvenTimes(q, u);
    } else {
      EvenTimes(q + 1, u);
    }
  }

  /** What fits and is as near as the reading lies on the other side, at the next multiple of the unit. */
  lemma RivalIsOpposite(m: nat, d: nat)
    requires FitsDouble(d) && d != Round(m) && Distance(d, m) == Distance(Round(m), m)
    ensures 2 * (m % Unit(m)) == Unit(m)
  {
    var u, r := Unit(m), m % Unit(m);
    RoundTakesNearer(m);
    var k := UnitIsPower(m);
    if k > 0 {
      var edge := LIMIT * Pow2(k - 1);
      MultipleHasNoRest(LIMIT / 2, Pow2(k));
      assert edge == LIMIT / 2 * Pow2(k);
      MultiplesAround(m, edge, u);
      if edge <= d {
        LargeFitsAreMultiples(d, k);
        MultiplesAround(m, d, u);
      }
    }
  }

  /** Of two numbers that fit and are equally near, the one with the even last bit is taken. */
  lemma TieIsEven(m: nat, d: nat)
    requires FitsDouble(d) && d != Round(m) && Distance(d, m) == Distance(Round(m), m)
    ensures Round(m) % (2 * Unit(m)) == 0
  {
    RivalIsOpposite(m, d);
    EvenMultiple(m, Unit(m));
  }

  /** Relative to its size, a number is moved by at most one part in two to the power of 53. */
  lemma RoundIsClose(m: nat)
    ensures m <= Round(m) ==> LIMIT * (Round(m) - m) <= m
    ensures m >= Round(m) ==> LIMIT * (m - Round(m)) <= m
  {
    RoundMoves(m);
    var k := UnitIsPower(m);
    if k == 0 {
      assert Unit(m) == 1 && m % 1 == 0;
      RoundKeepsExactlyMultiples(m);
    }
  }

  lemma SmallIsHeld(m: nat)
    requires m <= LIMIT
    ensures Round(m) == m
  {
    RoundKeepsExactlyMultiples(m);
    assert Unit(m) <= 2;
  }

  // ---------------------------------------------------------------- printing

  function Distance(a: nat, b: nat): nat {
    if a <= b then b - a else a - b
  }

  /** `p` ends in `e` zeros and is read as `x`. */
  predicate Candidate(x: nat, p: nat, e: nat) {
    Round(p) == x && p % Pow10(e) == 0
  }

  predicate IsRounder(x: nat, p: nat, e: nat) {
    p > 0 && Candidate(x, p, e + 1)
  }

  /** With `e` final zeros, nothing that is read as `x` is rounder than `p`, or as round and closer to `x`. */
  ghost predicate IsShortestWith(x: nat, p: nat, e: nat) {
    && Candidate(x, p, e)
    && (forall other :: !IsRounder(x, other, e))
    && (forall other :: Candidate(x, other, e) ==> Distance(p, x) <= Distance(other, x))
  }

  /** `p` is how the number `x` is printed. */
  ghost predicate IsPrinted(x: nat, p: nat) {
    exists e: nat :: IsShortestWith(x, p, e)
  }

  lemma {:induction false} Pow10Divides(p: nat, a: nat, b: nat)
    requires a <= b && p % Pow10(b) == 0
    ensures p % Pow10(a) == 0
    decreases b
  {
    if a < b {
      var t := p / Pow10(b);
      assert p == t * Pow10(b) == t * (10 * Pow10(b - 1));
      Reassociate(t, 10, Pow10(b - 1));
      MultipleHasNoRest(t * 10, Pow10(b - 1));
      Pow10Divides(p, a, b - 1);
    }
  }

  /** Ten to the power of `e + 1`, halved, is an odd multiple of two to the power of `e`. */
  lemma {:induction false} HalfOfPow10(e: nat) returns (t: nat)
    ensures Pow10(e + 1) == 2 * (Pow2(e) * (2 * t + 1))
  {
    if e == 0 {
      t := 2;
    } else {
      var s := HalfOfPow10(e - 1);
      t := 5 * s + 2;
      var a := Pow2(e - 1);
      assert Pow10(e + 1) == 10 * (2 * (a * (2 * s + 1)));
      assert 10 * (2 * (a * (2 * s + 1))) == 2 * (2 * a * (2 * t + 1));
    }
  }

  lemma AtMostLimitFits(m: nat, k: nat)
    requires m % Pow2(k) == 0 && m / Pow2(k) <= LIMIT
    ensures Round(m) == m
  {
    var a := m / Pow2(k);
    assert m == a * Pow2(k);
    HeldExactlyWhen(m);
    if a < LIMIT {
      assert IsScaled(m, a, k);
    } else {
      Reassociate(LIMIT / 2, 2, Pow2(k));
      assert IsScaled(m, LIMIT / 2, k + 1);
    }
  }

  lemma RoundIsHeld(m: nat)
    ensures Round(Round(m)) == Round(m)
  {
    RoundMoves(m);
    var k := UnitIsPower(m);
    RoundedQuotient(m, k);
    AtMostLimitFits(Round(m), k);
  }

  lemma RestQuotient(m: nat, u: nat)
    requires u >= 1
    ensures m - m % u >= 0 && (m - m % u) / u == m / u && (m - m % u + u) / u == m / u + 1
  {
    var q := m / u;
    assert m - m % u == q * u;
    assert q * u + u == (q + 1) * u;
    QuotientIs(q * u, u, q, 0);
    QuotientIs((q + 1) * u, u, q + 1, 0);
  }

  lemma RoundedQuotient(m: nat, k: nat)
    requires Unit(m) == Pow2(k) && m / Pow2(k) < LIMIT
    ensures Round(m) / Pow2(k) <= LIMIT
  {
    RestQuotient(m, Unit(m));
  }

  lemma ZeroIsAlone(p: nat)
    requires Round(p) == 0
    ensures p == 0
  {
    RoundIsClose(p);
  }

  lemma {:induction false} Pow2Grows(a: nat, b: nat)
    requires a < b
    ensures Pow2(a) < Pow2(b)
    decreases b
  {
    if a + 1 < b {
      Pow2Grows(a, b - 1);
    }
  }

  lemma MultiplesAdd(a: nat, b: nat, t: nat)
    requires t >= 1 && a % t == 0
    ensures (a + b) % t == 0 <==> b % t == 0
  {
    var i, j, r := a / t, b / t, b % t;
    assert a == i * t && b == j * t + r;
    assert i * t + j * t == (i + j) * t;
    QuotientIs(a + b, t, i + j, r);
  }

  lemma MultipleOfMultiple(x: nat, b: nat, c: nat)
    requires b >= 1 && c >= 1 && x % b == 0 && b % c == 0
    ensures x % c == 0
  {
    var i, j := x / b, b / c;
    assert x == i * b && b == j * c;
    Reassociate(i, j, c);
    MultipleHasNoRest(i * j, c);
  }

  lemma MultipleIsLarge(v: nat, t: nat)
    requires t >= 1 && v % t == 0 && v > 0
    ensures v >= t && (v < 2 * t ==> v == t)
  {
    if v < 2 * t && v > t {
      QuotientIs(v, t, 1, v - t);
    } else if v < t {
      QuotientIs(v, t, 0, v);
    }
  }

  lemma HalfRest(x: nat, p: nat, d: nat, t: nat)
    requires d > 0 && t >= 1 && x == p + d && p % t == 0 && (x + d) % t == 0 && x % t != 0
    ensures 2 * (x % t) == t && 2 * d >= t
  {
    var r := x % t;
    MultiplesAdd(p, 2 * d, t);
    MultipleIsLarge(2 * d, t);
    MultiplesAdd(p, x + d, t);
    WithoutRest(x, t);
    MultiplesAdd(x - r, x - r, t);
    MultiplesAdd(2 * (x - r), 2 * r, t);
    MultipleIsLarge(2 * r, t);
  }

  lemma HalfSplits(e: nat) returns (w: nat)
    ensures Pow10(e + 1) % Pow2(e + 1) == 0 && Pow10(e + 1) == 2 * (w + Pow2(e)) && w % Pow2(e + 1) == 0
  {
    var a := Pow2(e);
    var s := HalfOfPow10(e);
    w := s * (2 * a);
    assert a * (2 * s + 1) == w + a;
    MultipleHasNoRest(s, 2 * a);
    assert 2 * (w + a) == (2 * s + 1) * (2 * a);
    MultipleHasNoRest(2 * s + 1, 2 * a);
  }

  /** Half of ten to the power of `e + 1` leaves two to the power of `e` when divided by twice that. */
  lemma HalfLeavesPower(x: nat, e: nat)
    requires 2 * (x % Pow10(e + 1)) == Pow10(e + 1)
    ensures x % Pow2(e + 1) != 0
  {
    var t, a, b := Pow10(e + 1), Pow2(e), Pow2(e + 1);
    var w := HalfSplits(e);
    WithoutRest(x, t);
    MultipleOfMultiple(x - x % t, t, b);
    MultiplesAdd(x - x % t, w + a, b);
    MultiplesAdd(w, a, b);
    if a % b == 0 {
      MultipleIsLarge(a, b);
    }
  }

  lemma {:induction false} Pow2Divides(a: nat, b: nat)
    requires a <= b
    ensures Pow2(b) % Pow2(a) == 0 && Pow2(a) <= Pow2(b)
    decreases b
  {
    if a == b {
      MultipleHasNoRest(1, Pow2(a));
    } else {
      Pow2Divides(a, b - 1);
      MultiplesAdd(Pow2(b - 1), Pow2(b - 1), Pow2(a));
    }
  }

  /** A number cannot lie half way between two equally round numbers that are both read as it. */
  lemma NoTie(x: nat, p: nat, d: nat, e: nat)
    requires d > 0 && x == p + d && Candidate(x, p, e + 1) && Candidate(x, x + d, e + 1)
    ensures x % Pow10(e + 1) == 0
  {
    var t := Pow10(e + 1);
    if x % t != 0 {
      HalfRest(x, p, d, t);
      RoundMoves(p);
      var k := UnitIsPower(p);
      HalfLeavesPower(x, e);
      PowersGrow(e);
      if k <= e {
        Pow2Divides(k, e);
      } else {
        Pow2Divides(e + 1, k);
        MultipleOfMultiple(x, Pow2(k), Pow2(e + 1));
      }
    }
  }

  lemma {:induction false} PowersGrow(e: nat)
    ensures Pow2(e) < Pow10(e + 1)
  {
    if e > 0 {
      PowersGrow(e - 1);
    }
  }

  lemma {:induction false} EqualDistance(x: nat, p: nat, q: nat, e: nat)
    requires Round(x) == x && Candidate(x, p, e) && Candidate(x, q, e)
    requires forall other :: Candidate(x, other, e) ==> Distance(p, x) <= Distance(other, x)
    requires forall other :: Candidate(x, other, e) ==> Distance(q, x) <= Distance(other, x)
    ensures p == q
  {
    if x % Pow10(e) == 0 {
      assert Candidate(x, x, e);
    } else if p != q {
      var low, d := if p < x then p else q, Distance(p, x);
      assert Distance(p, x) == d && Distance(q, x) == d;
      NoTie(x, low, d, e - 1);
    }
  }

  lemma PrintedIsUniqueBetween(x: nat, p: nat, e: nat, q: nat, f: nat)
    requires IsShortestWith(x, p, e) && IsShortestWith(x, q, f) && e <= f
    ensures p == q
  {
    if e == f {
      RoundIsHeld(p);
      EqualDistance(x, p, q, e);
    } else {
      Pow10Divides(q, e + 1, f);
      assert !IsRounder(x, q, e);
      assert q == 0;
      ZeroIsAlone(p);
    }
  }

  /** A number is printed in one way only. */
  lemma PrintedIsUnique(x: nat, p: nat, q: nat)
    requires IsPrinted(x, p) && IsPrinted(x, q)
    ensures p == q
  {
    var e: nat :| IsShortestWith(x, p, e);
    var f: nat :| IsShortestWith(x, q, f);
    if e <= f {
      PrintedIsUniqueBetween(x, p, e, q, f);
    } else {
      PrintedIsUniqueBetween(x, q, f, p, e);
    }
  }

  lemma PrintedIsRead(x: nat, p: nat)
    requires IsPrinted(x, p)
    ensures Round(p) == x
  {
  }

  /** Numbers up to two to the power of 53 are printed as they are. */
  lemma SmallIsPrinted(x: nat, p: nat)
    requires x <= LIMIT && IsPrinted(x, p)
    ensures p == x
  {
    var e: nat :| IsShortestWith(x, p, e);
    RoundIsClose(p);
    if p <= LIMIT {
      SmallIsHeld(p);
    } else {
      assert p == LIMIT + 1 && x == LIMIT;
      if e > 0 {
        Pow10Divides(p, 1, e);
      }
      SmallIsHeld(LIMIT);
      assert Candidate(x, LIMIT, e);
    }
  }

  /** Every number that can be held can be printed. */
  lemma PrintedExists(x: nat) returns (p: nat)
    requires Round(x) == x
    ensures IsPrinted(x, p)
  {
    if x == 0 {
      p := 0;
      forall other
        ensures !IsRounder(0, other, 0)
      {
        if Round(other) == 0 {
          ZeroIsAlone(other);
        }
      }
      assert IsShortestWith(0, 0, 0);
    } else {
      var e, q := RoundestExists(x, x, 0);
      p := ClosestExists(x, q, e);
      assert IsShortestWith(x, p, e);
    }
  }

  lemma {:induction false} RoundestExists(x: nat, p: nat, e: nat) returns (f: nat, q: nat)
    requires x > 0 && Candidate(x, p, e)
    ensures Candidate(x, q, f) && forall other :: !IsRounder(x, other, f)
    decreases 2 * x - e
  {
    if other :| IsRounder(x, other, e) {
      CandidateIsSmall(x, other, e + 1);
      f, q := RoundestExists(x, other, e + 1);
    } else {
      f, q := e, p;
    }
  }

  /** A number that ends in many zeros is large. */
  lemma CandidateIsSmall(x: nat, p: nat, e: nat)
    requires p > 0 && Candidate(x, p, e)
    ensures e < 2 * x
  {
    RoundIsClose(p);
    MultipleIsLarge(p, Pow10(e));
    PowerIsLarge(e);
  }

  lemma {:induction false} PowerIsLarge(e: nat)
    ensures Pow10(e) >= 2 * e && Pow10(e) > e
  {
    if e > 0 {
      PowerIsLarge(e - 1);
    }
  }

  lemma {:induction false} ClosestExists(x: nat, p: nat, e: nat) returns (q: nat)
    requires Candidate(x, p, e)
    ensures Candidate(x, q, e) && forall other :: Candidate(x, other, e) ==> Distance(q, x) <= Distance(other, x)
    decreases Distance(p, x)
  {
    if other :| Candidate(x, other, e) && Distance(other, x) < Distance(p, x) {
      q := ClosestExists(x, other, e);
    } else {
      q := p;
    }
  }

  // ---------------------------------------------------------------- a test for it

  lemma RoundFits(m: nat)
    ensures FitsDouble(Round(m))
  {
    RoundIsHeld(m);
    HeldExactlyWhen(Round(m));
  }

  /** Of two numbers that are read, the larger one is not read as less. */
  lemma RoundIsMonotone(p: nat, q: nat)
    requires p <= q
    ensures Round(p) <= Round(q)
  {
    RoundFits(p);
    RoundFits(q);
    RoundIsNearest(p, Round(q));
    RoundIsNearest(q, Round(p));
  }

  lemma ReadsBetween(x: nat, p: nat, q: nat)
    requires Round(x) == x && Round(p) == x && (p <= q <= x || x <= q <= p)
    ensures Round(q) == x
  {
    if p <= q <= x {
      RoundIsMonotone(p, q);
      RoundIsMonotone(q, x);
    } else {
      RoundIsMonotone(x, q);
      RoundIsMonotone(q, p);
    }
  }

  /** The multiple of `t` at or below `x`. */
  function Down(x: nat, t: nat): nat
    requires t >= 1
  {
    x - x % t
  }

  /** The multiple of `t` at or above `x`. */
  function Up(x: nat, t: nat): nat
    requires t >= 1
  {
    if x % t == 0 then x else x - x % t + t
  }

  lemma NeighboursAreMultiples(x: nat, t: nat)
    requires t >= 1
    ensures Down(x, t) % t == 0 && Up(x, t) % t == 0 && Down(x, t) <= x <= Up(x, t)
  {
    WithoutRest(x, t);
  }

  /** If any multiple of `t` is read as `x`, then so is the neighbour of `x` on that side, and it is closer. */
  lemma NeighbourIsRead(x: nat, t: nat, p: nat)
    requires t >= 1 && Round(x) == x && Round(p) == x && p % t == 0
    ensures p <= x ==> p <= Down(x, t) <= x && Round(Down(x, t)) == x
    ensures p > x ==> x <= Up(x, t) <= p && Round(Up(x, t)) == x
  {
    MultiplesAround(x, p, t);
    NeighboursAreMultiples(x, t);
    if p <= x {
      ReadsBetween(x, p, Down(x, t));
    } else {
      ReadsBetween(x, p, Up(x, t));
    }
  }

  /** A multiple of `t` other than zero is read as `x`. */
  predicate IsReadNear(x: nat, t: nat)
    requires t >= 1
  {
    (Down(x, t) > 0 && Round(Down(x, t)) == x) || Round(Up(x, t)) == x
  }

  /** No multiple of `t` that is read as `x` is closer to it than `n`. */
  predicate IsClosest(n: nat, x: nat, t: nat)
    requires t >= 1
  {
    && (Round(Down(x, t)) == x ==> Distance(n, x) <= Distance(Down(x, t), x))
    && (Round(Up(x, t)) == x ==> Distance(n, x) <= Distance(Up(x, t), x))
  }

  /** The zeros at the end of a number. */
  function Zeros(n: nat): nat
    requires n > 0
  {
    if n % 10 == 0 then 1 + Zeros(n / 10) else 0
  }

  lemma TenTimesMultiple(m: nat, t: nat)
    requires t >= 1
    ensures 10 * m % (10 * t) == 0 <==> m % t == 0
  {
    var q, r := m / t, m % t;
    assert m == q * t + r;
    assert 10 * m == q * (10 * t) + 10 * r;
    QuotientIs(10 * m, 10 * t, q, 10 * r);
  }

  lemma {:induction false} ZerosAreAll(n: nat)
    requires n > 0
    ensures n % Pow10(Zeros(n)) == 0 && n % Pow10(Zeros(n) + 1) != 0
  {
    if n % 10 == 0 {
      var m := n / 10;
      ZerosAreAll(m);
      TenTimesMultiple(m, Pow10(Zeros(m)));
      TenTimesMultiple(m, Pow10(Zeros(m) + 1));
    } else {
      assert Pow10(0) == 1;
      assert Pow10(1) == 10;
    }
  }

  /**
    The number is the way in which its own reading is printed: the next rounder numbers around
    the reading are read otherwise, and of the equally round ones none is closer.
   */
  predicate IsOwnPrint(n: nat) {
    n == 0 ||
    (var x, z := Round(n), Zeros(n); !IsReadNear(x, Pow10(z + 1)) && IsClosest(n, x, Pow10(z)))
  }

  lemma ShortestUsesAllZeros(x: nat, n: nat, e: nat)
    requires n > 0 && IsShortestWith(x, n, e)
    ensures e == Zeros(n)
  {
    ZerosAreAll(n);
    assert !IsRounder(x, n, e);
    if e > Zeros(n) {
      Pow10Divides(n, Zeros(n) + 1, e);
    } else if e < Zeros(n) {
      Pow10Divides(n, e + 1, Zeros(n));
    }
  }

  lemma ShortestIsOwnPrint(x: nat, n: nat, e: nat)
    requires n > 0 && IsShortestWith(x, n, e)
    ensures !IsReadNear(x, Pow10(e + 1)) && IsClosest(n, x, Pow10(e))
  {
    NeighboursAreMultiples(x, Pow10(e));
    NeighboursAreMultiples(x, Pow10(e + 1));
    assert !IsRounder(x, Down(x, Pow10(e + 1)), e) && !IsRounder(x, Up(x, Pow10(e + 1)), e);
    if Up(x, Pow10(e + 1)) == 0 {
      ZeroIsAlone(n);
    }
    assert Candidate(x, Down(x, Pow10(e)), e) ==> Distance(n, x) <= Distance(Down(x, Pow10(e)), x);
    assert Candidate(x, Up(x, Pow10(e)), e) ==> Distance(n, x) <= Distance(Up(x, Pow10(e)), x);
  }

  lemma OwnPrintIsShortest(x: nat, n: nat, e: nat)
    requires Round(n) == x && n % Pow10(e) == 0 && !IsReadNear(x, Pow10(e + 1)) && IsClosest(n, x, Pow10(e))
    ensures IsShortestWith(x, n, e)
  {
    RoundIsHeld(n);
    forall other
      ensures !IsRounder(x, other, e)
      ensures Candidate(x, other, e) ==> Distance(n, x) <= Distance(other, x)
    {
      if IsRounder(x, other, e) {
        NeighbourIsRead(x, Pow10(e + 1), other);
      }
      if Candidate(x, other, e) {
        NeighbourIsRead(x, Pow10(e), other);
      }
    }
  }

  lemma OwnPrintExactlyWhen(n: nat)
    ensures IsPrinted(Round(n), n) <==> IsOwnPrint(n)
  {
    if n == 0 {
      SmallIsHeld(0);
      var p := PrintedExists(0);
      PrintedIsRead(0, p);
      ZeroIsAlone(p);
    } else {
      ZerosAreAll(n);
      if IsOwnPrint(n) {
        OwnPrintIsShortest(Round(n), n, Zeros(n));
      }
      if e: nat :| IsShortestWith(Round(n), n, e) {
        ShortestUsesAllZeros(Round(n), n, e);
        ShortestIsOwnPrint(Round(n), n, e);
      }
    }
  }

  // ---------------------------------------------------------------- two examples

  lemma {:induction false} UnitIs(m: nat, k: nat)
    requires LIMIT / 2 * Pow2(k) <= m < LIMIT * Pow2(k) && m >= LIMIT / 2
    ensures Unit(m) == Pow2(k)
    decreases k
  {
    if k > 0 {
      UnitIs(m / 2, k - 1);
    }
  }

  /** The first integer that the page cannot hold. */
  lemma FirstNotHeld()
    ensures Round(LIMIT + 1) == LIMIT
  {
    UnitIs(LIMIT + 1, 1);
  }

  /** Half way between two numbers that are held, the even one is read: here the upper one. */
  lemma TieGoesUp()
    ensures Round(LIMIT + 3) == LIMIT + 4
  {
    UnitIs(LIMIT + 3, 1);
  }

  /** The largest 64-bit integer is read as, and so printed as, one that does not fit into 64 bits. */
  const TWO_TO_63: nat := 0x8000_0000_0000_0000
  const PRINTED_63: nat := 9_223_372_036_854_776_000

  lemma ReadsAsTwoTo63()
    ensures Round(TWO_TO_63 - 1) == TWO_TO_63 && Round(PRINTED_63) == TWO_TO_63
  {
    assert Pow2(10) == 1024;
    assert Pow2(11) == 2048;
    UnitIs(TWO_TO_63 - 1, 10);
    UnitIs(PRINTED_63, 11);
  }

  lemma NearTwoTo63(p: nat)
    requires Round(p) == TWO_TO_63
    ensures p % 10000 != 0 && (p % 1000 == 0 ==> p == PRINTED_63)
  {
    RoundIsClose(p);
    assert Distance(p, TWO_TO_63) <= 1025;
    RoundMoves(p);
    if p < TWO_TO_63 {
      assert Pow2(10) == 1024;
      UnitIs(p, 10);
    }
  }

  lemma TwoTo63IsPrinted()
    ensures IsPrinted(TWO_TO_63, PRINTED_63)
  {
    ReadsAsTwoTo63();
    assert Pow10(3) == 1000;
    assert Pow10(4) == 10000;
    forall other
      ensures !IsRounder(TWO_TO_63, other, 3)
      ensures Candidate(TWO_TO_63, other, 3) ==> other == PRINTED_63
    {
      if Round(other) == TWO_TO_63 {
        NearTwoTo63(other);
      }
    }
    assert IsShortestWith(TWO_TO_63, PRINTED_63, 3);
  }

  const TWO_TO_60: nat := 0x1000_0000_0000_0000

  const PRINTED_60: nat := 1_152_921_504_606_847_000

  lemma ReadsAsTwoTo60()
    ensures Round(TWO_TO_60) == TWO_TO_60 && Round(PRINTED_60) == TWO_TO_60
  {
    assert Pow2(8) == 256;
    UnitIs(TWO_TO_60, 8);
    UnitIs(PRINTED_60, 8);
  }

  lemma NearTwoTo60(p: nat)
    requires Round(p) == TWO_TO_60
    ensures p % 10000 != 0 && (p % 1000 == 0 ==> p == PRINTED_60)
  {
    RoundIsClose(p);
    assert Distance(p, TWO_TO_60) <= 129;
  }

  /** Two to the power of 60 is held as it is, and printed as another number. */
  lemma TwoTo60IsPrinted()
    ensures Round(TWO_TO_60) == TWO_TO_60
    ensures IsPrinted(TWO_TO_60, PRINTED_60)
  {
    ReadsAsTwoTo60();
    assert Pow10(3) == 1000;
    assert Pow10(4) == 10000;
    forall other
      ensures !IsRounder(TWO_TO_60, other, 3)
      ensures Candidate(TWO_TO_60, other, 3) ==> other == PRINTED_60
    {
      if Round(other) == TWO_TO_60 {
        NearTwoTo60(other);
      }
    }
    assert IsShortestWith(TWO_TO_60, PRINTED_60, 3);
  }
}
