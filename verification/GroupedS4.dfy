/** The wide layout of the four-bit reorder: the int8 layout of the widened matrix, two weights to a byte. */
module GroupedS4 {
  import opened Arith
  import opened Traces
  import opened BlockedLayout
  import opened PanelPack
  import opened ReorderWalk
  import opened Reorder
  import opened Words
  import opened Nibbles
  import opened ColumnWords
  import opened GroupedSums
  import opened GroupedReorder
  import opened GroupedTeam
  import opened ThreadRange

  /** Two int8 weights of four significant bits in one byte, the first in the low nibble. */
  function Compress(lo: Byte, hi: Byte): Byte { lo % 16 + 16 * (hi % 16) }

  /** Four-bit weight x of a compact buffer. */
  function Nibble(s: seq<Byte>, x: int): Int8 {
    var b: int := if 0 <= x / 2 < |s| then s[x / 2] else 0;
    var u := if x % 2 == 0 then b % 16 else b / 16;
    if u < 8 then u else u - 16
  }

  /** Compressing loses nothing of a value that has four bits, whatever it shares the byte with. */
  lemma CompressKeeps(lo: Byte, hi: Byte, w: Int8)
    requires -8 <= w < 8
    ensures var b := Compress(lo, hi);
      && (lo == ToByte(w) ==> (if b % 16 < 8 then b % 16 else b % 16 - 16) == w)
      && (hi == ToByte(w) ==> (if b / 16 < 8 then b / 16 else b / 16 - 16) == w)
  {
  }

  ghost predicate HoldsNibbles(len: int, k: int, n: int, rs: int, cs: int) {
    forall p, j {:trigger Addr(p, j, rs, cs)} :: 0 <= p < k && 0 <= j < n ==> 0 <= Addr(p, j, rs, cs) / 2 < len
  }

  /** The matrix widened to int8, one row after another. */
  function WidenedMatrix(src: seq<bv8>, k: int, n: int, rs: int, cs: int): (B: Matrix<Byte>)
    requires k >= 0 && n > 0 && 0 <= k * n && HoldsNibbles(|src|, k, n, rs, cs)
    ensures |B.mem| == k * n && B.rs == n && B.cs == 1 && B.zero == 0
  {
    Matrix(seq(k * n, x requires 0 <= x < k * n => ToByte(CellS4(src, k, n, rs, cs, x))), n, 1, 0)
  }

  function CellS4(src: seq<bv8>, k: int, n: int, rs: int, cs: int, x: int): (v: Int8)
    requires n > 0 && 0 <= x < k * n && HoldsNibbles(|src|, k, n, rs, cs)
    ensures -8 <= v < 8
  {
    DivBetween(x, n, 0, k);
    S4At(src, Addr(x / n, x % n, rs, cs))
  }

  lemma WidenedAt(src: seq<bv8>, k: int, n: int, rs: int, cs: int, p: int, j: int)
    requires 0 <= p < k && 0 <= j < n && 0 <= k * n && HoldsNibbles(|src|, k, n, rs, cs)
    ensures 0 <= Addr(p, j, n, 1) < k * n
    ensures WidenedMatrix(src, k, n, rs, cs).mem[Addr(p, j, n, 1)] == ToByte(S4At(src, Addr(p, j, rs, cs)))
  {
    hide S4At;
    TwoDigits(p, k, n, j);
    DivModUnique(p * n + j, n, p, j);
  }

  lemma WidenedHolds(src: seq<bv8>, k: int, n: int, rs: int, cs: int)
    requires k > 0 && n > 0 && HoldsNibbles(|src|, k, n, rs, cs)
    ensures 0 <= k * n && WidenedMatrix(src, k, n, rs, cs).Holds(k, n)
  {
    MulLe(0, k, n);
    forall p, j | 0 <= p < k && 0 <= j < n ensures 0 <= Addr(p, j, n, 1) < k * n {
      WidenedAt(src, k, n, rs, cs, p, j);
    }
  }

  /** What is left once the columns before hi are reordered: their weights as nibbles, their sums, every other slot
      0. */
  ghost predicate CompactTo(now: seq<Byte>, was: seq<Byte>, s: Shape, gs: int, src: seq<bv8>, rs: int, cs: int, hi: int)
    requires Plan(s, gs) && HoldsNibbles(|src|, s.k, s.n, rs, cs)
  {
    WidenedHolds(src, s.k, s.n, rs, cs);
    && 0 <= s.Size() / 2 <= |was| == |now|
    && (forall p, j {:trigger Pos(s, p, j)} :: s.Padded(p, j) ==>
          && 0 <= Pos(s, p, j) < s.Size()
          && (Owns(s, 0, hi, j) ==>
                Nibble(now, Pos(s, p, j)) == if s.Live(p, j) then S4At(src, Addr(p, j, rs, cs)) else 0))
    && Tabled(now[s.Size() / 2..], was[s.Size() / 2..], 0, SumsTo(s, WidenedMatrix(src, s.k, s.n, rs, cs), gs, hi))
  }

  /** What the finished four-bit reorder leaves. */
  ghost predicate CompactReordered(now: seq<Byte>, was: seq<Byte>, s: Shape, gs: int, src: seq<bv8>, rs: int, cs: int)
    requires Plan(s, gs) && HoldsNibbles(|src|, s.k, s.n, rs, cs)
  {
    CompactTo(now, was, s, gs, src, rs, cs, s.n)
  }

  /** Bytes of that layout. */
  function CompactBytes(s: Shape, gs: int): int
    requires Plan(s, gs)
  {
    s.Size() / 2 + 4 * (Vectors(s, gs) * s.NPad())
  }

  /** `dlp_cvt_s4_to_s8_matrix`. */
  method Widen(src: seq<bv8>, k: int, n: int, rs: int, cs: int) returns (b: array<Byte>)
    requires k > 0 && n > 0 && HoldsNibbles(|src|, k, n, rs, cs)
    ensures fresh(b) && 0 <= k * n && b[..] == WidenedMatrix(src, k, n, rs, cs).mem
  {
    hide S4At, Unpack, Addr;
    MulLe(0, k, n);
    b := new Byte[k * n];
    var p := 0;
    while p < k
      invariant 0 <= p <= k && 0 <= p * n <= k * n == b.Length
      invariant forall x :: 0 <= x < p * n ==> b[x] == ToByte(CellS4(src, k, n, rs, cs, x))
    {
      Distribute(p, 1, n);
      MulLe(p + 1, k, n);
      var j := 0;
      while j < n
        invariant 0 <= j <= n && 0 <= p * n && p * n + n <= b.Length
        invariant forall x :: 0 <= x < p * n + j ==> b[x] == ToByte(CellS4(src, k, n, rs, cs, x))
      {
        PlainAddr(p, j, rs, cs);
        UnpackIsS4(src, p * rs + j * cs);
        DivModUnique(p * n + j, n, p, j);
        b[p * n + j] := ToByte(Unpack(src, p * rs + j * cs));
        j := j + 1;
      }
      p := p + 1;
    }
  }

  /** `dlp_cvt_s8_to_s4_linear`, for an even number of weights, to the bytes from `at` on. */
  method CompressAll(dst: array<Byte>, at: int, src: array<Byte>, count: int) returns (ghost tr: seq<Write<Byte>>)
    requires dst != src && 0 <= at && 0 <= count <= src.Length && count % 2 == 0 && at + count / 2 <= dst.Length
    modifies dst
    ensures forall x :: 0 <= x < dst.Length ==>
              dst[x] == if at <= x < at + count / 2 then Compress(src[2 * (x - at)], src[2 * (x - at) + 1])
                        else old(dst[x])
    ensures InBounds(tr, dst.Length) && dst[..] == Apply(old(dst[..]), tr)
    ensures forall x :: Last(tr, x) == if at <= x < at + count / 2 then Some(dst[x]) else None
  {
    hide Compress;
    tr := [];
    var i := 0;
    while i + 1 < count
      invariant 0 <= i <= count && i % 2 == 0
      invariant forall x :: 0 <= x < dst.Length ==>
                  dst[x] == if at <= x < at + i / 2 then Compress(src[2 * (x - at)], src[2 * (x - at) + 1])
                            else old(dst[x])
      invariant InBounds(tr, dst.Length) && dst[..] == Apply(old(dst[..]), tr)
      invariant forall x :: Last(tr, x) == if at <= x < at + i / 2 then Some(dst[x]) else None
    {
      ghost var w := Write(at + i / 2, Compress(src[i], src[i + 1]));
      ApplySnoc(old(dst[..]), tr, w);
      forall x ensures Last(tr + [w], x) == if w.addr == x then Some(w.val) else Last(tr, x) { LastSnoc(tr, w, x); }
      dst[at + i / 2] := Compress(src[i], src[i + 1]);
      tr := tr + [w];
      i := i + 2;
    }
  }

  /** `dlp_reorderb_nr64_s8s4s32o32` in its portable form: widen, reorder as int8, compress, copy the sums. */
  method ReorderCompact(buf: array<Byte>, s: Shape, gs: int, src: seq<bv8>, rs: int, cs: int, nThreads: int, team: int)
    requires Plan(s, gs) && HoldsNibbles(|src|, s.k, s.n, rs, cs) && CompactBytes(s, gs) <= buf.Length
    requires 1 <= team <= Ways(nThreads)
    modifies buf
    ensures CompactTo(buf[..], old(buf[..]), s, gs, src, rs, cs,
                      TaskRange(Ways(nThreads), team - 1, s.n, s.blk.NR).1)
    ensures Suffices(Ways(nThreads), team, s.n, s.blk.NR) ==>
              CompactReordered(buf[..], old(buf[..]), s, gs, src, rs, cs)
  {
    hide GroupReordered, GroupedTo, Plan, Vectors, S4At, RoundUp, Matrix.Holds, Compress, TaskRange, CompactTo,
         Suffices;
    ghost var was := buf[..];
    WideFacts(s, gs);
    PlanShape(s, gs);
    WidenedHolds(src, s.k, s.n, rs, cs);
    var wide := Widen(src, s.k, s.n, rs, cs);
    var B := Matrix(wide[..], s.n, 1, 0);
    var s8 := new Byte[WideBytes(s, gs)];
    ghost var s8was, hi := s8[..], TaskRange(Ways(nThreads), team - 1, s.n, s.blk.NR).1;
    assert B == WidenedMatrix(src, s.k, s.n, rs, cs);
    ReorderGrouped(s8, s, B, gs, nThreads, team);
    ghost var packed := s8[..];
    var size, sums := s.Size(), 4 * (Vectors(s, gs) * s.NPad());
    ghost var tr := CompressAll(buf, 0, s8, size);
    forall x | 0 <= x < sums { buf[size / 2 + x] := s8[size + x]; }
    assert packed == s8[..];
    Compacted(buf[..], was, packed, s8was, s, gs, src, rs, cs, hi);
    EndReached(s, Ways(nThreads), team);
  }

  /** Weights come in whole blocks of 64, so the compact buffer splits on a byte. */
  lemma WideFacts(s: Shape, gs: int)
    requires Plan(s, gs)
    ensures 0 < s.Size() && s.Size() % 2 == 0 && 0 <= Vectors(s, gs) * s.NPad()
  {
    hide RoundUp, NumGroups;
    SizePositive(s);
    TableSize(s, gs);
    RoundUpFacts(s.k, 4);
    MulMod(s.NPad() * (s.KPad() / 4), 4);
    assert s.Size() == (s.NPad() * (s.KPad() / 4)) * 4 by {
      MulAssoc(s.NPad(), s.KPad() / 4, 4);
      assert s.KPad() == (s.KPad() / 4) * 4;
    }
  }

  /** A reordered cell of the int8 layout holds the widened weight, or zero. */
  lemma WeightByte(s8: seq<Byte>, s8was: seq<Byte>, s: Shape, gs: int, src: seq<bv8>, rs: int, cs: int, hi: int, p: int,
                   j: int) returns (w: Int8)
    requires Plan(s, gs) && HoldsNibbles(|src|, s.k, s.n, rs, cs) && 0 <= s.k * s.n && s.Padded(p, j)
    requires WidenedMatrix(src, s.k, s.n, rs, cs).Holds(s.k, s.n) && Owns(s, 0, hi, j)
    requires GroupedTo(s8, s8was, s, gs, WidenedMatrix(src, s.k, s.n, rs, cs), hi)
    ensures -8 <= w < 8 && w == if s.Live(p, j) then S4At(src, Addr(p, j, rs, cs)) else 0
    ensures 0 <= Pos(s, p, j) < s.Size() <= |s8| && s8[Pos(s, p, j)] == ToByte(w)
  {
    hide S4At, Pos, Tabled, Addr, WidenedMatrix, SumsTo, Owns;
    var B := WidenedMatrix(src, s.k, s.n, rs, cs);
    w := if s.Live(p, j) then S4At(src, Addr(p, j, rs, cs)) else 0;
    if s.Live(p, j) { WidenedAt(src, s.k, s.n, rs, cs, p, j); }
    assert s8[Pos(s, p, j)] == B.At(s, p, j);
  }

  lemma WeightNibble(now: seq<Byte>, s8: seq<Byte>, s8was: seq<Byte>, s: Shape, gs: int, src: seq<bv8>, rs: int,
                     cs: int, hi: int, p: int, j: int)
    requires Plan(s, gs) && HoldsNibbles(|src|, s.k, s.n, rs, cs) && 0 <= s.k * s.n && s.Padded(p, j)
    requires WidenedMatrix(src, s.k, s.n, rs, cs).Holds(s.k, s.n) && Owns(s, 0, hi, j)
    requires GroupedTo(s8, s8was, s, gs, WidenedMatrix(src, s.k, s.n, rs, cs), hi)
    requires 0 < s.Size() <= |s8| && s.Size() % 2 == 0 && s.Size() / 2 <= |now|
    requires forall i :: 0 <= i < s.Size() / 2 ==> now[i] == Compress(s8[2 * i], s8[2 * i + 1])
    ensures 0 <= Pos(s, p, j) < s.Size()
    ensures Nibble(now, Pos(s, p, j)) == if s.Live(p, j) then S4At(src, Addr(p, j, rs, cs)) else 0
  {
    hide S4At, Pos, GroupedTo, Addr, Compress, Owns;
    var w := WeightByte(s8, s8was, s, gs, src, rs, cs, hi, p, j);
    var i := Pos(s, p, j) / 2;
    CompressKeeps(s8[2 * i], s8[2 * i + 1], w);
  }

  lemma Compacted(now: seq<Byte>, was: seq<Byte>, s8: seq<Byte>, s8was: seq<Byte>, s: Shape, gs: int, src: seq<bv8>,
                  rs: int, cs: int, hi: int)
    requires Plan(s, gs) && HoldsNibbles(|src|, s.k, s.n, rs, cs) && 0 <= s.k * s.n
    requires WidenedMatrix(src, s.k, s.n, rs, cs).Holds(s.k, s.n)
    requires GroupedTo(s8, s8was, s, gs, WidenedMatrix(src, s.k, s.n, rs, cs), hi)
    requires 0 < s.Size() && s.Size() % 2 == 0
    requires var table := 4 * (Vectors(s, gs) * s.NPad());
      && |now| == |was| && 0 <= table && s.Size() / 2 + table <= |was| && s.Size() + table <= |s8|
      && (forall i :: 0 <= i < s.Size() / 2 ==> now[i] == Compress(s8[2 * i], s8[2 * i + 1]))
      && forall y {:trigger now[y]} :: s.Size() / 2 <= y < |was| ==>
           now[y] == if y < s.Size() / 2 + table then s8[y - s.Size() / 2 + s.Size()] else was[y]
    ensures CompactTo(now, was, s, gs, src, rs, cs, hi)
  {
    hide S4At, RoundUp, Pos, Addr, Compress, Nibble, SumsTo, WordByte, Plan, WidenedMatrix, Owns;
    PlanShape(s, gs);
    var B, size := WidenedMatrix(src, s.k, s.n, rs, cs), s.Size();
    forall p, j | s.Padded(p, j)
      ensures 0 <= Pos(s, p, j) < size
      ensures Owns(s, 0, hi, j) ==>
                Nibble(now, Pos(s, p, j)) == if s.Live(p, j) then S4At(src, Addr(p, j, rs, cs)) else 0
    {
      CellOfPos(s, p, j);
      if Owns(s, 0, hi, j) { WeightNibble(now, s8, s8was, s, gs, src, rs, cs, hi, p, j); }
    }
    var vals := SumsTo(s, B, gs, hi);
    forall x | 0 <= x < |was| - size / 2
      ensures now[size / 2..][x]
              == if x < 4 * |vals| then WordByte(vals[x / 4], x % 4) else was[size / 2..][x]
    {
      if x < 4 * |vals| { assert s8[size..][x] == WordByte(vals[x / 4], x % 4); }
    }
  }
}
