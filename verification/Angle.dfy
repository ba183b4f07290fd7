/** The search for integers `n` and `e` with `n * pi / 2^e` close to an angle, over exact reals. */
module Angle {

  const MAX_SEARCH_ITERATIONS: nat := 200
  const ALMOST_PERFECT_THRESHOLD := 0.000001

  function Power(e: nat): (p: real)
    ensures p >= 1.0
  {
    if e == 0 then 1.0 else 2.0 * Power(e - 1)
  }

  /** `1 << e` as a signed 32-bit number: the last power comes out negative. */
  function Denominator(e: nat): (d: real)
    ensures d != 0.0
  {
    if e == 31 then -Power(31) else Power(e)
  }

  function GetAngleInRads(pi: real, n: nat, e: nat): real {
    n as real * pi / Denominator(e)
  }

  function Abs(x: real): real {
    if x >= 0.0 then x else -x
  }

  function Ceil(x: real): int {
    -(-x).Floor
  }

  /** How far the pair is from `a`, as the search measures it. */
  function Miss(pi: real, a: real, n: nat, e: nat): real {
    Abs(GetAngleInRads(pi, n, e) - a)
  }

  /** How far `n * pi / 2^e` is from `a`. */
  ghost function Distance(pi: real, a: real, n: nat, e: nat): real {
    Abs(n as real * pi / Power(e) - a)
  }

  /** The first `n` whose multiple of pi is not below the angle. */
  ghost predicate IsFirst(pi: real, a: real, first: nat) {
    a <= first as real * pi && (first > 0 ==> (first - 1) as real * pi < a)
  }

  /** No pair with a numerator from `first` up to `end` and an exponent up to 30 is closer. */
  ghost predicate Closest(pi: real, a: real, miss: real, first: nat, end: nat) {
    forall n: nat, e: nat :: first <= n < end && e <= 30 ==> miss <= Miss(pi, a, n, e)
  }

  /** What the search finds: an almost perfect pair, or the closest one of the whole grid. */
  ghost predicate Found(pi: real, a: real, n: nat, e: nat) {
    && e < 32 && (n < 200 || IsFirst(pi, a, n))
    && (|| Miss(pi, a, n, e) <= 0.000001
        || exists first: nat :: IsFirst(pi, a, first) && Miss(pi, a, n, e) <= Miss(pi, a, first, 0)
                                && Closest(pi, a, Miss(pi, a, n, e), first, 200))
  }

  /** The pair is within one percent of the angle, or within a millionth. */
  ghost predicate Close(pi: real, a: real, n: nat, e: nat) {
    e < 32 && (Distance(pi, a, n, e) <= a / 100.0 || Distance(pi, a, n, e) <= 0.000001)
  }

  // ---------- the shape of the grid ----------

  lemma {:induction false} PowerGrows(e1: nat, e2: nat)
    requires e1 <= e2
    ensures Power(e1) <= Power(e2)
    decreases e2 - e1
  {
    if e1 < e2 {
      PowerGrows(e1 + 1, e2);
    }
  }

  lemma QuotientOrder(x: real, y: real, p: real, q: real)
    requires 0.0 <= x <= y && 0.0 < p <= q
    ensures x / q <= y / p
  {
    var v := y / p;
    assert v * p == y;
    assert v * q >= v * p;
  }

  lemma AngleOrder(pi: real, n1: nat, e1: nat, n2: nat, e2: nat)
    requires pi > 3.0 && n1 <= n2 && e2 <= e1 <= 30
    ensures 0.0 <= GetAngleInRads(pi, n1, e1) <= GetAngleInRads(pi, n2, e2)
  {
    PowerGrows(e2, e1);
    assert n1 as real * pi <= n2 as real * pi;
    QuotientOrder(n1 as real * pi, n2 as real * pi, Power(e2), Power(e1));
  }

  lemma LastIsNegative(pi: real, n: nat)
    requires pi > 3.0 && n > 0
    ensures GetAngleInRads(pi, n, 31) < 0.0
  {
    var x, p := n as real * pi, Power(31);
    assert x > 0.0;
    assert x / -p == -(x / p);
  }

  /** At the exponent where the angle is crossed, one of the two neighbours is closest for this numerator. */
  lemma CrossingIsClosest(pi: real, a: real, n: nat, e: nat)
    requires pi > 3.0 && 0 < e <= 31 && GetAngleInRads(pi, n, e - 1) > a >= 0.0 && GetAngleInRads(pi, n, e) <= a
    ensures forall k: nat :: k <= 30 ==> Miss(pi, a, n, e - 1) <= Miss(pi, a, n, k) || Miss(pi, a, n, e) <= Miss(pi, a, n, k)
  {
    forall k: nat | k <= 30 ensures Miss(pi, a, n, e - 1) <= Miss(pi, a, n, k) || Miss(pi, a, n, e) <= Miss(pi, a, n, k) {
      if k < e {
        AngleOrder(pi, n, e - 1, n, k);
      } else {
        AngleOrder(pi, n, k, n, e);
      }
    }
  }

  // ---------- the search ----------

  /** The exponents tried for one numerator lie above `a` until one does not; the negative last power always stops them.
      Only a pair that hits `a` exactly at exponent 0 stops at once. */
  method Cross(pi: real, a: real, n: nat, highestE: nat, before: real) returns (e: nat, last: real, current: real)
    requires pi > 3.0 && a > 0.0 && n > 0 && highestE <= 30
    requires GetAngleInRads(pi, n, highestE) > a || (highestE == 0 && before == GetAngleInRads(pi, n, 0) == a)
    ensures e <= 31 && current == GetAngleInRads(pi, n, e) <= a
    ensures if e == 0 then highestE == 0 && last == current == a else last == GetAngleInRads(pi, n, e - 1) > a
  {
    LastIsNegative(pi, n);
    e, last, current := highestE, before, before;
    while e < 32
      invariant highestE <= e <= 31
      invariant forall k :: highestE <= k < e ==> GetAngleInRads(pi, n, k) > a
      invariant current == if e > highestE then GetAngleInRads(pi, n, e - 1) else before
      decreases 32 - e
    {
      last := current;
      current := GetAngleInRads(pi, n, e);
      if current <= a {
        break;
      }
      e := e + 1;
    }
  }

  /** Where the search stands before numerator `n`: its best pair is closest so far, and the grid point it goes on from
      is above `a`. */
  ghost predicate Progress(pi: real, a: real, first: nat, n: nat, bestN: nat, bestE: nat, highestE: nat, miss: real) {
    && first <= n && bestE <= 31 && highestE <= 30 && (bestN == first || bestN < 200)
    && miss == Miss(pi, a, bestN, bestE) && miss <= Miss(pi, a, first, 0) && Closest(pi, a, miss, first, n)
    && (GetAngleInRads(pi, n, highestE) > a || (n == first && highestE == 0 && GetAngleInRads(pi, n, 0) == a))
  }

  lemma FirstProgress(pi: real, a: real, first: nat)
    requires IsFirst(pi, a, first)
    ensures Progress(pi, a, first, first, first, 0, 0, Miss(pi, a, first, 0))
  {
    assert GetAngleInRads(pi, first, 0) == first as real * pi;
  }

  /** One more numerator: the better of its two pairs at the crossing, or the best so far. */
  lemma NextNumerator(pi: real, a: real, first: nat, n: nat, bestN: nat, bestE: nat, highestE: nat, e: nat, miss: real, miss': real)
    requires pi > 3.0 && a > 0.0 && n > 0 && Progress(pi, a, first, n, bestN, bestE, highestE, miss)
    requires 0 < e <= 31 && GetAngleInRads(pi, n, e) <= a < GetAngleInRads(pi, n, e - 1)
    requires miss' <= miss && miss' <= Miss(pi, a, n, e - 1) && miss' <= Miss(pi, a, n, e)
    ensures Closest(pi, a, miss', first, n + 1) && GetAngleInRads(pi, n + 1, e - 1) > a
  {
    CrossingIsClosest(pi, a, n, e);
    AngleOrder(pi, n, e - 1, n + 1, e - 1);
    forall k: nat, x: nat | first <= k < n + 1 && x <= 30 ensures miss' <= Miss(pi, a, k, x) {
      if k < n {
        assert miss <= Miss(pi, a, k, x);
      }
    }
  }

  /** When the first pair hits the angle, so does the best one. */
  lemma FirstHits(pi: real, a: real, first: nat, n: nat, bestN: nat, bestE: nat)
    requires Progress(pi, a, first, n, bestN, bestE, 0, Miss(pi, a, bestN, bestE)) && GetAngleInRads(pi, n, 0) == a
    ensures Miss(pi, a, bestN, bestE) == 0.0
  {
    assert Miss(pi, a, first, 0) == 0.0;
  }

  /** The search goes on behind the crossing. */
  lemma NextProgress(pi: real, a: real, first: nat, n: nat, bestN: nat, bestE: nat, highestE: nat, e: nat, bestN': nat, bestE': nat)
    requires pi > 3.0 && a > 0.0 && 0 < n < 200 && Progress(pi, a, first, n, bestN, bestE, highestE, Miss(pi, a, bestN, bestE))
    requires 0 < e <= 31 && GetAngleInRads(pi, n, e) <= a < GetAngleInRads(pi, n, e - 1)
    requires (bestN' == bestN || bestN' == n) && bestE' <= 31
    requires var miss' := Miss(pi, a, bestN', bestE');
             miss' <= Miss(pi, a, bestN, bestE) && miss' <= Miss(pi, a, n, e - 1) && miss' <= Miss(pi, a, n, e)
    ensures Progress(pi, a, first, n + 1, bestN', bestE', e - 1, Miss(pi, a, bestN', bestE'))
  {
    NextNumerator(pi, a, first, n, bestN, bestE, highestE, e, Miss(pi, a, bestN, bestE), Miss(pi, a, bestN', bestE'));
  }

  lemma ProductOrder(x: real, p: real, q: real)
    requires x >= 0.0 && p <= q
    ensures x * p <= x * q
  {
  }

  lemma StartsAbove(pi: real, a: real, n: nat)
    requires pi > 3.0 && n == Ceil(a / 3.0)
    ensures a <= n as real * pi
  {
    ProductOrder(n as real, 3.0, pi);
  }

  lemma OneMore(pi: real, n: nat)
    ensures (n + 1) as real * pi == n as real * pi + pi
  {
  }

  /** The first multiple of pi, with exponent 0, that is not below the angle. */
  method Approach(pi: real, a: real, start: nat) returns (n: nat)
    requires pi > 3.0 && a > 0.0 && a <= start as real * pi
    ensures n > 0 && IsFirst(pi, a, n)
  {
    n := start;
    OneMore(pi, n);
    while a <= GetAngleInRads(pi, n, 0)
      invariant a <= (n + 1) as real * pi
    {
      n := n - 1;
    }
    n := n + 1;
  }

  /** The best of the pair so far and the two pairs next to the crossing; the earlier one when they miss equally. */
  method Better(pi: real, a: real, n: nat, e: nat, last: real, current: real, bestN: nat, bestE: nat, bestApprox: real)
    returns (bestN': nat, bestE': nat, bestApprox': real, bestThreshold': real)
    requires bestE <= 31 && e <= 31 && bestApprox == GetAngleInRads(pi, bestN, bestE) && current == GetAngleInRads(pi, n, e)
    requires if e > 0 then last == GetAngleInRads(pi, n, e - 1) else Abs(last - a) >= Abs(bestApprox - a)
    ensures bestE' <= 31 && bestApprox' == GetAngleInRads(pi, bestN', bestE') && bestThreshold' == Abs(bestApprox' - a)
    ensures bestThreshold' <= Abs(bestApprox - a) && bestThreshold' <= Abs(last - a) && bestThreshold' <= Abs(current - a)
    ensures bestN' == bestN || bestN' == n
    ensures bestThreshold' == Abs(bestApprox - a) ==> bestN' == bestN && bestE' == bestE
    ensures bestThreshold' == Abs(last - a) < Abs(bestApprox - a) ==> bestN' == n && bestE' == e - 1
  {
    bestN', bestE', bestApprox', bestThreshold' := bestN, bestE, bestApprox, Abs(bestApprox - a);
    var thresholdDown := Abs(last - a);
    var thresholdUp := Abs(current - a);
    if thresholdDown < bestThreshold' {
      bestN', bestE' := n, e - 1;
      bestApprox' := last;
      bestThreshold' := thresholdDown;
    }
    if thresholdUp < bestThreshold' {
      bestN', bestE' := n, e;
      bestApprox' := current;
      bestThreshold' := thresholdUp;
    }
  }

  lemma AlmostPerfectIsFound(pi: real, a: real, n: nat, e: nat)
    requires e <= 31 && (n < 200 || IsFirst(pi, a, n)) && Miss(pi, a, n, e) <= 0.000001
    ensures Found(pi, a, n, e)
  {
  }

  lemma ProgressIsFound(pi: real, a: real, first: nat, n: nat, bestN: nat, bestE: nat, highestE: nat, miss: real)
    requires n >= 200 && IsFirst(pi, a, first) && Progress(pi, a, first, n, bestN, bestE, highestE, miss)
    ensures Found(pi, a, bestN, bestE)
  {
    assert Closest(pi, a, miss, first, 200);
  }

  /** Tries one more numerator: the search has found its pair, or goes on with the best one so far. */
  method TryNumerator(pi: real, a: real, ghost first: nat, n: nat, bestN: nat, bestE: nat, highestE: nat, current: real, bestApprox: real)
    returns (bestN': nat, bestE': nat, highestE': nat, current': real, bestApprox': real, done: bool)
    requires pi > 3.0 && a > 0.0 && n > 0 && IsFirst(pi, a, first) && n < 200
    requires Progress(pi, a, first, n, bestN, bestE, highestE, Miss(pi, a, bestN, bestE)) && bestApprox == GetAngleInRads(pi, bestN, bestE)
    requires n == first ==> current == GetAngleInRads(pi, n, 0)
    ensures bestApprox' == GetAngleInRads(pi, bestN', bestE')
    ensures done ==> Found(pi, a, bestN', bestE')
    ensures !done ==> Progress(pi, a, first, n + 1, bestN', bestE', highestE', Miss(pi, a, bestN', bestE'))
  {
    var e, last, bestThreshold;
    e, last, current' := Cross(pi, a, n, highestE, current);
    highestE' := if e == 0 then 0xffff_ffff else e - 1;
    if e == 0 {
      FirstHits(pi, a, first, n, bestN, bestE);
    }
    bestN', bestE', bestApprox', bestThreshold := Better(pi, a, n, e, last, current', bestN, bestE, bestApprox);
    done := bestApprox' == a || bestThreshold <= ALMOST_PERFECT_THRESHOLD;
    if done {
      AlmostPerfectIsFound(pi, a, bestN', bestE');
    } else {
      assert e > 0;
      NextProgress(pi, a, first, n, bestN, bestE, highestE, e, bestN', bestE');
    }
  }

  /** Follows the curve over the numerators from `first` on. */
  method Follow(pi: real, a: real, first: nat) returns (bestN: nat, bestE: nat)
    requires pi > 3.0 && a > 0.0 && first > 0 && IsFirst(pi, a, first)
    ensures Found(pi, a, bestN, bestE)
  {
    var n := first;
    FirstProgress(pi, a, first);
    bestN, bestE := n, 0;
    var highestE: nat := 0;
    var current := GetAngleInRads(pi, bestN, bestE);
    var bestApprox := current;
    while n < MAX_SEARCH_ITERATIONS
      invariant n > 0 && Progress(pi, a, first, n, bestN, bestE, highestE, Miss(pi, a, bestN, bestE))
      invariant bestApprox == GetAngleInRads(pi, bestN, bestE)
      invariant n == first ==> current == GetAngleInRads(pi, n, 0)
      decreases MAX_SEARCH_ITERATIONS - n
    {
      var done;
      bestN, bestE, highestE, current, bestApprox, done := TryNumerator(pi, a, first, n, bestN, bestE, highestE, current, bestApprox);
      if done {
        return;
      }
      n := n + 1;
    }
    ProgressIsFound(pi, a, first, n, bestN, bestE, highestE, Miss(pi, a, bestN, bestE));
  }

  // ---------- how close the pair is ----------

  function Scaled(a: real, e: nat): real {
    if e == 0 then a else 2.0 * Scaled(a, e - 1)
  }

  lemma Doubles(a: real, p: real)
    ensures a * (2.0 * p) == 2.0 * (a * p)
  {
  }

  lemma {:induction false} ScaledIsProduct(a: real, e: nat)
    ensures Scaled(a, e) == a * Power(e)
  {
    if e > 0 {
      ScaledIsProduct(a, e - 1);
      Doubles(a, Power(e - 1));
    }
  }

  /** The exponent that scales `a` to between `c` and twice `c`. */
  lemma {:induction false} Scale(a: real, c: real, e: nat) returns (x: nat)
    requires Scaled(a, e) < 2.0 * c && e <= 30 && Scaled(a, 30) >= c
    ensures e <= x <= 30 && c <= Scaled(a, x) < 2.0 * c
    decreases 30 - e
  {
    x := e;
    if Scaled(a, e) < c {
      x := Scale(a, c, e + 1);
    }
  }

  lemma Below(pi: real, q: real, r: real, x: real, y: real)
    requires pi > 0.0 && q < r + 1.0 && q * pi == x && r * pi == y
    ensures x < y + pi
  {
    var d := r + 1.0 - q;
    assert d * pi > 0.0;
    assert d * pi == r * pi + pi - q * pi;
  }

  lemma Above(pi: real, q: real, r: real, x: real, y: real)
    requires pi > 0.0 && r <= q && q * pi == x && r * pi == y
    ensures y <= x
  {
    var d := q - r;
    assert d * pi >= 0.0;
    assert d * pi == q * pi - r * pi;
  }

  lemma FloorTimes(pi: real, q: real, x: real) returns (n: int)
    requires pi > 0.0 && q * pi == x
    ensures n == q.Floor && n as real * pi <= x < n as real * pi + pi
  {
    n := q.Floor;
    Above(pi, q, n as real, x, n as real * pi);
    Below(pi, q, n as real, x, n as real * pi);
  }

  lemma Times(pi: real, x: real, y: real)
    requires pi > 0.0
    ensures x <= y ==> x * pi <= y * pi
    ensures x < y <==> x * pi < y * pi
  {
  }

  lemma Divide(x: real, p: real) returns (q: real)
    requires p > 0.0
    ensures q * p == x
  {
    q := x / p;
  }

  lemma Between(pi: real, q: real, x: real)
    requires pi > 0.0 && q * pi == x && 100.0 * pi <= x < 200.0 * pi
    ensures 100.0 <= q < 200.0
  {
    Times(pi, q, 100.0);
    Times(pi, q, 200.0);
  }

  lemma FloorBetween(q: real)
    requires 100.0 <= q < 200.0
    ensures 100 <= q.Floor < 200
  {
  }

  /** The integer part of `x / pi`. */
  lemma FloorOf(pi: real, x: real) returns (n: int)
    requires pi > 3.0 && 100.0 * pi <= x < 200.0 * pi
    ensures 100 <= n < 200 && n as real * pi <= x < n as real * pi + pi
  {
    var q := Divide(x, pi);
    Between(pi, q, x);
    FloorBetween(q);
    n := FloorTimes(pi, q, x);
  }

  lemma OverPower(x: real, a: real, p: real)
    requires p > 0.0
    ensures a - x / p == (a * p - x) / p
  {
    assert (x / p) * p == x;
  }

  lemma Ratio(x: real, y: real, p: real)
    requires p > 0.0 && 0.0 <= x <= y * p
    ensures 0.0 <= x / p <= y
  {
    assert (x / p) * p == x;
    Times(p, y, x / p);
  }

  lemma Percent(a: real, p: real)
    ensures a / 100.0 * p == a * p / 100.0
  {
  }

  lemma WithinPercent(s: real, x: real, pi: real, bound: real)
    requires x <= s < x + pi && 100.0 * pi <= s && bound == s / 100.0
    ensures 0.0 <= s - x <= bound
  {
  }

  /** The grid pair at the scaling exponent misses by less than one percent. */
  lemma FloorMiss(pi: real, a: real, e: nat) returns (n: nat)
    requires pi > 3.0 && a >= 0.0 && e <= 30 && 100.0 * pi <= Scaled(a, e) < 200.0 * pi
    ensures 100 <= n < 200 && Miss(pi, a, n, e) <= a / 100.0
    ensures n as real * pi <= Scaled(a, e)
  {
    ScaledIsProduct(a, e);
    n := FloorOf(pi, Scaled(a, e));
    var x := n as real * pi;
    var p := Power(e);
    OverPower(x, a, p);
    Percent(a, p);
    WithinPercent(Scaled(a, e), x, pi, a / 100.0 * p);
    Ratio(a * p - x, a / 100.0, p);
    assert GetAngleInRads(pi, n, e) == x / p;
  }

  lemma FirstIsSmall(pi: real, a: real, first: nat)
    requires pi > 3.0 && 0.0 < a < 100.0 * pi && IsFirst(pi, a, first)
    ensures first <= 100
  {
    if first > 0 {
      Times(pi, (first - 1) as real, 100.0);
    }
  }

  /** An angle between the two bounds has a grid pair within one percent, whose numerator is not before the first. */
  lemma GridIsFine(pi: real, a: real, first: nat) returns (n: nat, e: nat)
    requires 3.0 < pi < 4.0 && 0.0 < a < 100.0 * pi && Scaled(a, 30) >= 100.0 * pi && IsFirst(pi, a, first)
    ensures first <= n < 200 && e <= 30 && Miss(pi, a, n, e) <= a / 100.0
  {
    e := Scale(a, 100.0 * pi, 0);
    n := FloorMiss(pi, a, e);
    FirstIsSmall(pi, a, first);
  }

  lemma PowerThirty()
    ensures Power(30) == 1073741824.0
  {
    assert Power(10) == 1024.0;
    assert Power(20) == 1048576.0;
  }

  lemma TinyMiss(pi: real, a: real)
    requires 3.0 < pi < 4.0 && a >= 0.0 && a * 1073741824.0 < 100.0 * pi
    ensures Abs(pi / 1073741824.0 - a) <= 0.000001
  {
  }

  /** A tiny angle is met closely enough by numerator 1 at exponent 30. */
  lemma TinyIsAlmostPerfect(pi: real, a: real)
    requires 3.0 < pi < 4.0 && a >= 0.0 && Scaled(a, 30) < 100.0 * pi
    ensures Miss(pi, a, 1, 30) <= 0.000001
  {
    PowerThirty();
    ScaledIsProduct(a, 30);
    TinyMiss(pi, a);
  }

  lemma Farther(a: real, y: real)
    requires a >= 0.0 && y >= 0.0
    ensures Abs(y - a) <= Abs(-y - a)
  {
  }

  lemma Negated(x: real, p: real)
    requires p > 0.0
    ensures x / -p == -(x / p) && (x >= 0.0 ==> x / p >= 0.0)
  {
    assert (x / p) * -p == -x;
  }

  /** A pair that the search measures is at least as close when the last exponent is given its true sign. */
  lemma TrueMiss(pi: real, a: real, n: nat, e: nat)
    requires pi > 3.0 && a >= 0.0 && e < 32
    ensures Distance(pi, a, n, e) <= Miss(pi, a, n, e) && (e <= 30 ==> Distance(pi, a, n, e) == Miss(pi, a, n, e))
  {
    if e == 31 {
      var x := n as real * pi;
      Negated(x, Power(31));
      assert GetAngleInRads(pi, n, 31) == -(x / Power(31));
      ProductOrder(pi, 0.0, n as real);
      Farther(a, x / Power(31));
    }
  }

  lemma FirstIsOne(pi: real, a: real, first: nat)
    requires 3.0 < pi < 4.0 && a >= 0.0 && Scaled(a, 30) < 100.0 * pi && IsFirst(pi, a, first)
    ensures first <= 1
  {
    PowerThirty();
    ScaledIsProduct(a, 30);
    if first > 1 {
      ProductOrder(pi, 1.0, (first - 1) as real);
    }
  }

  lemma FirstMiss(pi: real, a: real, first: nat)
    requires pi > 3.0 && a >= 100.0 * pi && IsFirst(pi, a, first)
    ensures Miss(pi, a, first, 0) <= a / 100.0
  {
    if first > 0 {
      OneMore(pi, first - 1);
    }
    assert GetAngleInRads(pi, first, 0) == first as real * pi;
  }

  /** The search always ends within one percent of the angle or within a millionth. */
  lemma FoundIsClose(pi: real, a: real, n: nat, e: nat)
    requires 3.0 < pi < 4.0 && a >= 0.0 && Found(pi, a, n, e)
    ensures Close(pi, a, n, e)
  {
    TrueMiss(pi, a, n, e);
    var miss := Miss(pi, a, n, e);
    if first: nat :| IsFirst(pi, a, first) && miss <= Miss(pi, a, first, 0) && Closest(pi, a, miss, first, 200) {
      if a >= 100.0 * pi {
        FirstMiss(pi, a, first);
      } else if Scaled(a, 30) >= 100.0 * pi {
        ScaledIsProduct(a, 30);
        var m, x := GridIsFine(pi, a, first);
        assert miss <= Miss(pi, a, m, x);
      } else {
        TinyIsAlmostPerfect(pi, a);
        FirstIsOne(pi, a, first);
        assert miss <= Miss(pi, a, 1, 30);
      }
    }
  }

  /** A numerator whose multiple of pi is not below the angle is not before the first one. */
  lemma NotBeforeFirst(pi: real, a: real, first: nat, m: nat)
    requires pi > 3.0 && IsFirst(pi, a, first) && a <= m as real * pi
    ensures first <= m
  {
    if m < first {
      ProductOrder(pi, m as real, (first - 1) as real);
    }
  }

  lemma CloserThan(pi: real, a: real, miss: real, first: nat, m: nat, x: nat)
    requires pi > 3.0 && a >= 0.0 && IsFirst(pi, a, first) && Closest(pi, a, miss, first, 200)
    requires m < 200 && x <= 30 && a <= m as real * pi
    ensures miss <= Distance(pi, a, m, x)
  {
    NotBeforeFirst(pi, a, first, m);
    TrueMiss(pi, a, m, x);
    assert miss <= Miss(pi, a, m, x);
  }

  /** No pair is closer whose numerator is below 200 with a multiple of pi not below the angle, and whose exponent is up to 30. */
  ghost predicate NoneCloser(pi: real, a: real, n: nat, e: nat) {
    forall m: nat, x: nat :: m < 200 && x <= 30 && a <= m as real * pi ==> Distance(pi, a, n, e) <= Distance(pi, a, m, x)
  }

  /** The pair is within a millionth, or no pair of the grid is closer. */
  lemma FoundIsClosest(pi: real, a: real, n: nat, e: nat)
    requires pi > 3.0 && a >= 0.0 && Found(pi, a, n, e)
    ensures Distance(pi, a, n, e) <= 0.000001 || NoneCloser(pi, a, n, e)
  {
    TrueMiss(pi, a, n, e);
    var miss := Miss(pi, a, n, e);
    if first: nat :| IsFirst(pi, a, first) && Closest(pi, a, miss, first, 200) {
      forall m: nat, x: nat | m < 200 && x <= 30 && a <= m as real * pi ensures miss <= Distance(pi, a, m, x) {
        CloserThan(pi, a, miss, first, m, x);
      }
    }
  }

  // ---------- the whole search ----------

  method TransformDouble(pi: real, a: real) returns (bestN: nat, bestE: nat)
    requires pi > 3.0 && a >= 0.0 && Ceil(a / 3.0) < 0x1_0000_0000
    ensures Found(pi, a, bestN, bestE)
    ensures bestE < 32 && (bestN < 200 || IsFirst(pi, a, bestN))
    ensures Distance(pi, a, bestN, bestE) <= 0.000001 || NoneCloser(pi, a, bestN, bestE)
    ensures pi < 4.0 ==> Distance(pi, a, bestN, bestE) <= a / 100.0 || Distance(pi, a, bestN, bestE) <= 0.000001
  {
    var n: nat := Ceil(a / 3.0);
    bestN, bestE := n, 0;
    if a != GetAngleInRads(pi, n, 0) {
      StartsAbove(pi, a, n);
      n := Approach(pi, a, n);
      bestN, bestE := Follow(pi, a, n);
    }
    FoundIsClosest(pi, a, bestN, bestE);
    if pi < 4.0 {
      FoundIsClose(pi, a, bestN, bestE);
    }
  }
}
