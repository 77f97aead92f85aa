/** Reordered int8 and four-bit buffers in the caller's terms: W(p, j) is element (p, j) of op(B). */
module BufferTerms {
  import opened Arith
  import opened CallerTerms
  import opened PanelLayout
  import opened BlockedLayout
  import opened Words
  import opened ColumnSums

  /** Elements of an int8 operand. */
  function Int8s(input: seq<Int8>, order: char, trans: char, ld: int): (int, int) -> int {
    (p, j) => var x := Place(order, trans, ld, p, j); if 0 <= x < |input| then input[x] else 0
  }

  /** Elements of a four-bit operand, two to a byte, low half first, in two's complement. */
  function Int4s(src: seq<bv8>, order: char, trans: char, ld: int): (int, int) -> int {
    (p, j) => FourBits(src, Place(order, trans, ld, p, j))
  }

  function FourBits(src: seq<bv8>, x: int): int {
    if 0 <= x / 2 < |src| then
      var half := if x % 2 == 0 then src[x / 2] as int % 16 else src[x / 2] as int / 16;
      if half < 8 then half else half - 16
    else 0
  }

  function Down(W: (int, int) -> int, j: int): int -> int { p => W(p, j) }

  /** The panels of a grouped B under the block sizes NR, NC and KC: of one group KC rows deep, of several as many whole
      groups as fit KC, or one. */
  function Panels(k: int, n: int, NR: int, NC: int, KC: int, gs: int): Shape
    requires gs > 0
  {
    Shape(k, n, Blocking(NR, 16, NC, if gs == k then KC else if gs > KC then gs else KC / gs * gs, 4))
  }

  /** Where the sum of vector v and column j is kept. */
  function Slot(at: int, nPad: int, v: int, j: int): int { at + 4 * (v * nPad + j) }

  /** The four bytes at x are v in two's complement, low byte first. */
  predicate Held(now: seq<Byte>, x: int, v: int)
    requires 0 <= x && x + 4 <= |now|
  {
    && now[x] == v % 256 && now[x + 1] == v / 256 % 256
    && now[x + 2] == v / 65536 % 256 && now[x + 3] == v / 16777216 % 256
  }

  /** The digits of v to base 256. */
  lemma Digits(v: int, b0: int, b1: int, b2: int, b3: int, q: int)
    requires 0 <= b0 < 256 && 0 <= b1 < 256 && 0 <= b2 < 256 && 0 <= b3 < 256
    requires v == b0 + 256 * (b1 + 256 * (b2 + 256 * (b3 + 256 * q)))
    ensures v % 256 == b0 && v / 256 % 256 == b1 && v / 65536 % 256 == b2 && v / 16777216 % 256 == b3
  {
    var r2 := b3 + 256 * q;
    var r1 := b2 + 256 * r2;
    var r0 := b1 + 256 * r1;
    DivModUnique(v, 256, r0, b0);
    DivModUnique(r0, 256, r1, b1);
    DivModUnique(v, 65536, r1, b0 + 256 * b1);
    DivModUnique(r1, 256, r2, b2);
    DivModUnique(v, 16777216, r2, b0 + 256 * b1 + 65536 * b2);
    DivModUnique(r2, 256, q, b3);
  }

  lemma WrapsAlike(v: int, w: int) returns (q: int)
    requires Wrap32(v) == Wrap32(w)
    ensures v == w + q * TWO32
  {
    WrapIsSame(v);
    WrapIsSame(w);
    q := v / TWO32 - w / TWO32;
  }

  lemma HeldIs(now: seq<Byte>, x: int, v: int)
    requires 0 <= x && x + 4 <= |now| && Load32(now, x) == Wrap32(v)
    ensures Held(now, x, v)
  {
    hide Wrap32;
    var b0: int, b1: int, b2: int, b3: int := now[x], now[x + 1], now[x + 2], now[x + 3];
    var q := WrapsAlike(v, b0 + 0x100 * b1 + 0x1_0000 * b2 + 0x100_0000 * b3);
    Digits(v, b0, b1, b2, b3, q);
  }

  /** From `at` on, a vector of nPad int32 for every R rows: 128 times what each column's weights of those rows add up
      to, in two's complement, and 0 for padding columns. */
  ghost predicate SumsAt(now: seq<Byte>, at: int, k: int, n: int, nPad: int, R: int, W: (int, int) -> int)
    requires R > 0
  {
    forall v, j {:trigger Slot(at, nPad, v, j)} :: 0 <= v < (k + R - 1) / R && 0 <= j < nPad ==>
      && 0 <= Slot(at, nPad, v, j) && Slot(at, nPad, v, j) + 4 <= |now|
      && Held(now, Slot(at, nPad, v, j),
              if j < n then 128 * IntSum(Down(W, j), v * R, if (v + 1) * R < k then (v + 1) * R else k) else 0)
  }

  /** A single column: k bytes and, from the next multiple of four on, a sum for every gs rows; nothing else touched. */
  ghost predicate ColumnLaid(now: seq<Byte>, was: seq<Byte>, k: int, gs: int, W: (int, int) -> int)
    requires gs > 0
  {
    var at := (k + 3) / 4 * 4;
    && |now| == |was| && 0 <= k <= at <= |was|
    && (forall p :: 0 <= p < k ==> now[p] == W(p, 0) % 256)
    && SumsAt(now, at, k, 1, 1, gs, W)
    && forall x :: k <= x < at || at + 4 * ((k + gs - 1) / gs) <= x < |was| ==> now[x] == was[x]
  }

  /** Panels a byte an element, zero where op(B) has none, with a vector of sums for every R rows behind them; nothing
      else touched. */
  ghost predicate PanelsLaid(now: seq<Byte>, was: seq<Byte>, s: Shape, R: int, W: (int, int) -> int)
    requires s.Valid() && R > 0
  {
    var nPad := (s.n + 15) / 16 * 16;
    var size := nPad * ((s.k + 3) / 4 * 4);
    && |now| == |was| && 0 <= size <= |was|
    && (forall p, j {:trigger Pos(s, p, j)} :: 0 <= p < (s.k + 3) / 4 * 4 && 0 <= j < nPad ==>
          && 0 <= Pos(s, p, j) < size
          && now[Pos(s, p, j)] == if p < s.k && j < s.n then W(p, j) % 256 else 0)
    && SumsAt(now, size, s.k, s.n, nPad, R, W)
    && forall x :: 0 <= x < |was| && size + 4 * ((s.k + R - 1) / R * nPad) <= x ==> now[x] == was[x]
  }

  /** Panels two elements a byte, low half first. */
  ghost predicate HalvesLaid(now: seq<Byte>, was: seq<Byte>, s: Shape, R: int, W: (int, int) -> int)
    requires s.Valid() && R > 0
  {
    var nPad := (s.n + 15) / 16 * 16;
    var size := nPad * ((s.k + 3) / 4 * 4) / 2;
    && |now| == |was| && 0 <= size <= |was|
    && (forall p, j {:trigger Pos(s, p, j)} :: 0 <= p < (s.k + 3) / 4 * 4 && 0 <= j < nPad ==>
          var x := Pos(s, p, j);
          && 0 <= x / 2 < size
          && (if x % 2 == 0 then now[x / 2] % 16 else now[x / 2] / 16)
             == if p < s.k && j < s.n then W(p, j) % 16 else 0)
    && SumsAt(now, size, s.k, s.n, nPad, R, W)
    && forall x :: 0 <= x < |was| && size + 4 * ((s.k + R - 1) / R * nPad) <= x ==> now[x] == was[x]
  }

  lemma ByteIs(b: Byte, v: Int8)
    requires FromByte(b) == v
    ensures b == v % 256
  {
  }

  /** The finished column in the caller's terms. */
  lemma LaidIs(now: seq<Byte>, was: seq<Byte>, col: Column, gs: int, W: (int, int) -> int)
    requires gs > 0 && |col| > 0 && ColumnBytes(|col|, gs) <= |was| && now == Laid(was, col, gs)
    requires forall p :: 0 <= p < |col| ==> col[p] == W(p, 0)
    ensures ColumnLaid(now, was, |col|, gs, W)
  {
    hide Laid, Load32, Wrap32, IntSum, Held;
    var k, at := |col|, SumOffset(|col|);
    LaidReads(was, col, gs);
    forall p | 0 <= p < k ensures now[p] == W(p, 0) % 256 { ByteIs(now[p], col[p]); }
    forall v, j | 0 <= v < (k + gs - 1) / gs && 0 <= j < 1
      ensures 0 <= Slot(at, 1, v, j) && Slot(at, 1, v, j) + 4 <= |now|
      ensures Held(now, Slot(at, 1, v, j),
                   128 * IntSum(Down(W, j), v * gs, if (v + 1) * gs < k then (v + 1) * gs else k))
    {
      MulLe(0, v, gs);
      forall p | v * gs <= p < Min((v + 1) * gs, k) ensures Values(col)(p) == Down(W, j)(p) {
        assert col[p] == W(p, 0);
      }
      IntSumExt(Values(col), Down(W, j), v * gs, Min((v + 1) * gs, k));
      HeldIs(now, at + 4 * v, 128 * GroupSum(col, gs, v));
    }
  }
}
