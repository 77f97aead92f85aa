/** Rounding to multiples, and the few facts about integer division that the layout proofs rest on. */
module Arith {

  /** The largest multiple of `to` that does not exceed `v`. */
  function Floor(v: int, to: int): int
    requires to > 0
  {
    (v / to) * to
  }

  /** `dlp_reorder_round_up` and `dlp_make_multiple_of_n`, error branch included. */
  function RoundUp(v: int, to: int): int {
    if to <= 0 then 0 else ((v + to - 1) / to) * to
  }

  /** Groups of groupSize that cover k elements, the last one possibly short. */
  function NumGroups(k: int, groupSize: int): int
    requires groupSize > 0
  {
    (k + groupSize - 1) / groupSize
  }

  function Min(a: int, b: int): int {
    if a < b then a else b
  }

  lemma MulLe(a: int, b: int, d: int)
    requires a <= b && d >= 0
    ensures a * d <= b * d
  {
  }

  lemma NoSmallMultiple(t: int, d: int)
    requires d > 0 && -d < t * d < d
    ensures t == 0
  {
    if t >= 1 { MulLe(1, t, d); } else if t <= -1 { MulLe(t, -1, d); }
  }

  lemma DivModUnique(x: int, d: int, q: int, r: int)
    requires d > 0 && 0 <= r < d && x == q * d + r
    ensures x / d == q && x % d == r
  {
    var q', r' := x / d, x % d;
    assert x == q' * d + r' && 0 <= r' < d;
    assert (q - q') * d == q * d - q' * d == r' - r;
    NoSmallMultiple(q - q', d);
  }

  lemma MulMod(q: int, d: int)
    requires d > 0
    ensures (q * d) % d == 0 && (q * d) / d == q
  {
    DivModUnique(q * d, d, q, 0);
  }

  /** The quotient of `x` lies between two bounds exactly when `x` lies between their multiples. */
  lemma DivBetween(x: int, d: int, lo: int, hi: int)
    requires d > 0
    ensures lo * d <= x < hi * d <==> lo <= x / d < hi
  {
    var q, r := x / d, x % d;
    assert x == q * d + r;
    if lo <= q { MulLe(lo, q, d); } else { MulLe(q + 1, lo, d); assert (q + 1) * d == q * d + d; }
    if hi <= q { MulLe(hi, q, d); } else { MulLe(q + 1, hi, d); assert (q + 1) * d == q * d + d; }
  }

  lemma DivNonneg(n: int, d: int)
    requires d > 0 && n >= 0
    ensures n / d >= 0
  {
    if n / d <= -1 { MulLe(n / d, -1, d); }
  }

  /** A two-digit number stays below the product of its bases. */
  lemma TwoDigits(q: int, Q: int, d: int, r: int)
    requires 0 <= q < Q && 0 <= r < d
    ensures 0 <= q * d + r < Q * d
  {
    MulLe(0, q, d);
    MulLe(q + 1, Q, d);
    assert (q + 1) * d == q * d + d;
  }

  lemma Distribute(a: int, b: int, c: int)
    ensures (a + b) * c == a * c + b * c
  {
  }

  lemma MulAssoc(a: int, b: int, c: int)
    ensures a * (b * c) == (a * b) * c
  {
  }

  lemma MultAdd(x: int, y: int, d: int)
    requires d > 0 && x % d == 0 && y % d == 0
    ensures (x + y) % d == 0 && (x - y) % d == 0
    ensures (x + y) / d == x / d + y / d && (x - y) / d == x / d - y / d
  {
    var a, b := x / d, y / d;
    assert (a + b) * d == a * d + b * d && (a - b) * d == a * d - b * d;
    DivModUnique(x + y, d, a + b, 0);
    DivModUnique(x - y, d, a - b, 0);
  }

  /** A multiple of a multiple is a multiple. */
  lemma MultTrans(x: int, b: int, d: int)
    requires b > 0 && d > 0 && x % b == 0 && b % d == 0
    ensures x % d == 0
  {
    assert x == (x / b) * b && b == (b / d) * d;
    assert x == ((x / b) * (b / d)) * d;
    MulMod((x / b) * (b / d), d);
  }

  lemma MultLess(x: int, y: int, d: int)
    requires d > 0 && x % d == 0 && y % d == 0 && x < y
    ensures x + d <= y
  {
    var a, b := x / d, y / d;
    assert x == a * d && y == b * d;
    if b <= a { MulLe(b, a, d); }
    MulLe(a + 1, b, d);
    assert (a + 1) * d == a * d + d;
  }

  lemma FloorFacts(v: int, to: int)
    requires to > 0
    ensures Floor(v, to) <= v < Floor(v, to) + to && Floor(v, to) % to == 0
    ensures v >= 0 ==> Floor(v, to) >= 0
  {
    MulMod(v / to, to);
  }

  lemma FloorUnique(v: int, to: int, s: int)
    requires to > 0 && s % to == 0 && s <= v < s + to
    ensures Floor(v, to) == s
  {
    DivModUnique(v, to, s / to, v - s);
  }

  /** Shifting by a multiple shifts the floor. */
  lemma FloorShift(v: int, to: int, s: int)
    requires to > 0 && s % to == 0
    ensures Floor(s + v, to) == s + Floor(v, to)
  {
    FloorFacts(v, to);
    MultAdd(s, Floor(v, to), to);
    FloorUnique(s + v, to, s + Floor(v, to));
  }

  lemma RoundUpFacts(v: int, to: int)
    requires to > 0
    ensures v <= RoundUp(v, to) < v + to && RoundUp(v, to) % to == 0
  {
    FloorFacts(v + to - 1, to);
  }

  lemma RoundUpUnique(v: int, to: int, s: int)
    requires to > 0 && s % to == 0 && v <= s < v + to
    ensures RoundUp(v, to) == s
  {
    FloorUnique(v + to - 1, to, s);
  }

  /** Shifting by a multiple shifts the round-up. */
  lemma RoundUpShift(v: int, to: int, s: int)
    requires to > 0 && s % to == 0
    ensures RoundUp(s + v, to) == s + RoundUp(v, to)
  {
    RoundUpFacts(v, to);
    MultAdd(s, RoundUp(v, to), to);
    RoundUpUnique(s + v, to, s + RoundUp(v, to));
  }

  /** A multiple at or above `v` is at or above its round-up. */
  lemma RoundUpLeast(v: int, to: int, s: int)
    requires to > 0 && s % to == 0 && v <= s
    ensures RoundUp(v, to) <= s
  {
    RoundUpFacts(v, to);
    if s < RoundUp(v, to) { MultLess(s, RoundUp(v, to), to); }
  }

  lemma SlotCount(k: int, gs: int)
    requires 0 < gs && k > 0
    ensures NumGroups(k, gs) > 0
    ensures (NumGroups(k, gs) - 1) * gs < k <= NumGroups(k, gs) * gs
    ensures gs == k ==> NumGroups(k, gs) == 1
  {
    var s := NumGroups(k, gs);
    assert s * gs + (k + gs - 1) % gs == k + gs - 1;
    assert (s - 1) * gs == s * gs - gs;
    if s <= 0 { MulLe(s, 0, gs); }
    if gs == k { DivModUnique(k + gs - 1, gs, 1, k - 1); }
  }

  /** Group v is one of the groups when it starts below k. */
  lemma GroupExists(k: int, gs: int, v: int)
    requires 0 < gs && 0 <= v * gs < k
    ensures v < NumGroups(k, gs)
  {
    hide NumGroups;
    SlotCount(k, gs);
    if NumGroups(k, gs) <= v { MulLe(NumGroups(k, gs), v, gs); }
  }

  /** Sum of f over [lo, hi). */
  function IntSum(f: int -> int, lo: int, hi: int): int
    decreases hi - lo
  {
    if hi <= lo then 0 else IntSum(f, lo, hi - 1) + f(hi - 1)
  }

  lemma {:induction false} IntSumExt(f: int -> int, h: int -> int, lo: int, hi: int)
    requires forall p :: lo <= p < hi ==> f(p) == h(p)
    ensures IntSum(f, lo, hi) == IntSum(h, lo, hi)
    decreases hi - lo
  {
    if lo < hi { IntSumExt(f, h, lo, hi - 1); }
  }

  lemma {:induction false} IntSumSplit(f: int -> int, lo: int, mid: int, hi: int)
    requires lo <= mid <= hi
    ensures IntSum(f, lo, hi) == IntSum(f, lo, mid) + IntSum(f, mid, hi)
    decreases hi - mid
  {
    if mid < hi { IntSumSplit(f, lo, mid, hi - 1); }
  }

  /** A sum of values in [-bound, bound). */
  lemma {:induction false} IntSumBound(f: int -> int, bound: int, lo: int, hi: int)
    requires lo <= hi && bound > 0 && forall p :: lo <= p < hi ==> -bound <= f(p) < bound
    ensures -((hi - lo) * bound) <= IntSum(f, lo, hi) <= (hi - lo) * bound - (hi - lo)
    decreases hi - lo
  {
    if lo < hi {
      IntSumBound(f, bound, lo, hi - 1);
      Distribute(hi - 1 - lo, 1, bound);
    }
  }
}
