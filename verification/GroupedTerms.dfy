/** What the grouped reorders leave, in the caller's terms. */
module GroupedTerms {
  import opened Arith
  import opened CallerTerms
  import opened BufferTerms
  import opened BlockedLayout
  import opened PanelPack
  import opened ReorderWalk
  import opened Reorder
  import opened ReorderF32
  import opened Words
  import opened Nibbles
  import opened ColumnSums
  import opened ColumnReorder
  import opened ColumnWords
  import opened GroupedLayout
  import opened GroupedSums
  import opened GroupedReorder
  import opened GroupedTeam
  import opened GroupedS4

  predicate Formed(order: char, trans: char) { order in {'r', 'R', 'c', 'C'} && trans in {'n', 'N', 't', 'T'} }

  /** The bytes of an int8 operand in memory, with the strides its characters give. */
  function Bytes8(input: seq<Int8>, order: char, trans: char, ld: int): Matrix<Byte> {
    Matrix(AsBytes(input), PlainStrides(order, trans, ld).0, PlainStrides(order, trans, ld).1, 0)
  }

  lemma Int8Is(input: seq<Int8>, order: char, trans: char, ld: int, p: int, j: int)
    requires Formed(order, trans) && 0 <= Place(order, trans, ld, p, j) < |input|
    ensures Elem(Bytes8(input, order, trans, ld), p, j) == Int8s(input, order, trans, ld)(p, j)
    ensures AsBytes(input)[Place(order, trans, ld, p, j)] == Int8s(input, order, trans, ld)(p, j) % 256
  {
    hide Place, Addr;
    StridesPlace(order, trans, ld, p, j);
  }

  lemma Padding(s: Shape)
    requires s.Valid() && s.blk.minNR == 16 && s.blk.kf == 4
    ensures s.NPad() == (s.n + 15) / 16 * 16 && s.KPad() == (s.k + 3) / 4 * 4
    ensures s.n <= s.NPad() && s.k <= s.KPad()
  {
  }

  lemma VectorCount(s: Shape, gs: int)
    requires Plan(s, gs)
    ensures VectorRows(s, gs) > 0 && Vectors(s, gs) == (s.k + VectorRows(s, gs) - 1) / VectorRows(s, gs)
  {
  }

  /** The sums behind int8 panels. */
  lemma WideSums(now: seq<Byte>, was: seq<Byte>, s: Shape, gs: int, input: seq<Int8>, order: char, trans: char, ld: int)
    requires Plan(s, gs) && Formed(order, trans) && Bytes8(input, order, trans, ld).Holds(s.k, s.n)
    requires GroupReordered(now, was, s, gs, Bytes8(input, order, trans, ld))
    ensures VectorRows(s, gs) > 0
    ensures SumsAt(now, s.Size(), s.k, s.n, s.NPad(), VectorRows(s, gs), Int8s(input, order, trans, ld))
  {
    hide Held, Addr, Place, RoundUp, Load32, Wrap32, IntSum, GroupReordered, Int8s, Elem, AsBytes, PlainStrides;
    var B, W, R := Bytes8(input, order, trans, ld), Int8s(input, order, trans, ld), VectorRows(s, gs);
    VectorCount(s, gs);
    forall v, j | 0 <= v < (s.k + R - 1) / R && 0 <= j < s.NPad()
      ensures 0 <= Slot(s.Size(), s.NPad(), v, j) && Slot(s.Size(), s.NPad(), v, j) + 4 <= |now|
      ensures Held(now, Slot(s.Size(), s.NPad(), v, j),
                   if j < s.n then 128 * IntSum(Down(W, j), v * R, if (v + 1) * R < s.k then (v + 1) * R else s.k)
                   else 0)
    {
      GroupSumsRead(now, was, s, gs, B, v, j);
      if j < s.n {
        MulLe(0, v, R);
        forall p | v * R <= p < Min((v + 1) * R, s.k) ensures ColumnValues(B, j)(p) == Down(W, j)(p) {
          StridesPlace(order, trans, ld, p, j);
          Int8Is(input, order, trans, ld, p, j);
        }
        IntSumExt(ColumnValues(B, j), Down(W, j), v * R, Min((v + 1) * R, s.k));
      }
      ZeroWord();
      HeldIs(now, Slot(s.Size(), s.NPad(), v, j),
             if j < s.n then 128 * RowSum(B, j, v * R, Min((v + 1) * R, s.k)) else 0);
    }
  }

  lemma ZeroWord()
    ensures Wrap32(0) == 0
  {
  }

  /** The finished int8 panels in the caller's terms. */
  lemma WideInTerms(now: seq<Byte>, was: seq<Byte>, s: Shape, gs: int, input: seq<Int8>, order: char, trans: char,
                    ld: int)
    requires Plan(s, gs) && Formed(order, trans) && Bytes8(input, order, trans, ld).Holds(s.k, s.n)
    requires GroupReordered(now, was, s, gs, Bytes8(input, order, trans, ld))
    ensures VectorRows(s, gs) > 0
    ensures PanelsLaid(now, was, s, VectorRows(s, gs), Int8s(input, order, trans, ld))
  {
    hide Addr, Place, RoundUp, SumsAt, Pos, Int8s, AsBytes, PlainStrides, WordByte;
    var B, W := Bytes8(input, order, trans, ld), Int8s(input, order, trans, ld);
    Padding(s);
    VectorCount(s, gs);
    WideSums(now, was, s, gs, input, order, trans, ld);
    forall p, j | 0 <= p < s.KPad() && 0 <= j < s.NPad()
      ensures 0 <= Pos(s, p, j) < s.Size() && now[Pos(s, p, j)] == if p < s.k && j < s.n then W(p, j) % 256 else 0
    {
      CellOfPos(s, p, j);
      assert now[..s.Size()][Pos(s, p, j)] == B.At(s, p, j);
      if p < s.k && j < s.n {
        StridesPlace(order, trans, ld, p, j);
        Int8Is(input, order, trans, ld, p, j);
      }
    }
    TableKept(now, was, s.Size(), SumEntries(s, B, gs, seq(s.n, j => s.k)));
  }

  lemma TableKept(now: seq<Byte>, was: seq<Byte>, at: int, vals: seq<int>)
    requires 0 <= at <= |was| == |now| && Tabled(now[at..], was[at..], 0, vals)
    ensures forall x :: 0 <= x < |was| && at + 4 * |vals| <= x ==> now[x] == was[x]
  {
    hide WordByte;
    forall x | 0 <= x < |was| && at + 4 * |vals| <= x ensures now[x] == was[x] {
      assert now[at..][x - at] == was[at..][x - at];
    }
  }

  lemma Int4Is(src: seq<bv8>, order: char, trans: char, ld: int, p: int, j: int)
    requires Formed(order, trans) && 0 <= Place(order, trans, ld, p, j) / 2 < |src|
    ensures S4At(src, Addr(p, j, PlainStrides(order, trans, ld).0, PlainStrides(order, trans, ld).1))
            == Int4s(src, order, trans, ld)(p, j)
  {
    hide Place, Addr;
    StridesPlace(order, trans, ld, p, j);
  }

  /** An element of the widened matrix is the four-bit one. */
  lemma WidenedElem(src: seq<bv8>, order: char, trans: char, ld: int, k: int, n: int, p: int, j: int)
    requires Formed(order, trans) && 0 <= p < k && 0 <= j < n && 0 <= k * n
    requires HoldsNibbles(|src|, k, n, PlainStrides(order, trans, ld).0, PlainStrides(order, trans, ld).1)
    ensures Elem(WidenedMatrix(src, k, n, PlainStrides(order, trans, ld).0, PlainStrides(order, trans, ld).1), p, j)
            == Int4s(src, order, trans, ld)(p, j)
  {
    hide Place, Addr, S4At, Int4s, PlainStrides;
    var (rs, cs) := PlainStrides(order, trans, ld);
    WidenedAt(src, k, n, rs, cs, p, j);
    StridesPlace(order, trans, ld, p, j);
    Int4Is(src, order, trans, ld, p, j);
  }

  /** The sums behind four-bit panels. */
  lemma CompactSums(now: seq<Byte>, was: seq<Byte>, s: Shape, gs: int, src: seq<bv8>, order: char, trans: char, ld: int)
    requires Plan(s, gs) && Formed(order, trans)
    requires HoldsNibbles(|src|, s.k, s.n, PlainStrides(order, trans, ld).0, PlainStrides(order, trans, ld).1)
    requires CompactReordered(now, was, s, gs, src, PlainStrides(order, trans, ld).0, PlainStrides(order, trans, ld).1)
    ensures VectorRows(s, gs) > 0
    ensures SumsAt(now, s.Size() / 2, s.k, s.n, s.NPad(), VectorRows(s, gs), Int4s(src, order, trans, ld))
  {
    hide Held, Addr, Place, RoundUp, Load32, Wrap32, IntSum, Int4s, Elem, PlainStrides, WidenedMatrix, SumEntries,
         Tabled, Pos, S4At, Vectors;
    var (rs, cs) := PlainStrides(order, trans, ld);
    WidenedHolds(src, s.k, s.n, rs, cs);
    var B, W, R := WidenedMatrix(src, s.k, s.n, rs, cs), Int4s(src, order, trans, ld), VectorRows(s, gs);
    var at, vals := s.Size() / 2, SumEntries(s, B, gs, seq(s.n, j => s.k));
    WholeSums(s, B, gs);
    VectorCount(s, gs);
    forall v, j | 0 <= v < (s.k + R - 1) / R && 0 <= j < s.NPad()
      ensures 0 <= Slot(at, s.NPad(), v, j) && Slot(at, s.NPad(), v, j) + 4 <= |now|
      ensures Held(now, Slot(at, s.NPad(), v, j),
                   if j < s.n then 128 * IntSum(Down(W, j), v * R, if (v + 1) * R < s.k then (v + 1) * R else s.k)
                   else 0)
    {
      TableEntry(s, B, gs, seq(s.n, j => s.k), v, j);
      EntryBehind(now, was, at, vals, v * s.NPad() + j);
      if j < s.n {
        MulLe(0, v, R);
        forall p | v * R <= p < Min((v + 1) * R, s.k) ensures ColumnValues(B, j)(p) == Down(W, j)(p) {
          WidenedElem(src, order, trans, ld, s.k, s.n, p, j);
        }
        IntSumExt(ColumnValues(B, j), Down(W, j), v * R, Min((v + 1) * R, s.k));
      }
      HeldIs(now, Slot(at, s.NPad(), v, j),
             if j < s.n then 128 * RowSum(B, j, v * R, Min((v + 1) * R, s.k)) else 0);
    }
  }

  lemma EntryBehind(now: seq<Byte>, was: seq<Byte>, at: int, vals: seq<int>, i: int)
    requires 0 <= at <= |was| == |now| && Tabled(now[at..], was[at..], 0, vals) && 0 <= i < |vals|
    ensures at + 4 * i + 4 <= |now| && Load32(now, at + 4 * i) == Wrap32(vals[i])
  {
    hide WordByte, Wrap32;
    EntryAt(now[at..], was[at..], 0, vals, i);
  }

  /** The finished four-bit panels in the caller's terms. */
  lemma CompactInTerms(now: seq<Byte>, was: seq<Byte>, s: Shape, gs: int, src: seq<bv8>, order: char, trans: char,
                       ld: int)
    requires Plan(s, gs) && Formed(order, trans)
    requires HoldsNibbles(|src|, s.k, s.n, PlainStrides(order, trans, ld).0, PlainStrides(order, trans, ld).1)
    requires CompactReordered(now, was, s, gs, src, PlainStrides(order, trans, ld).0, PlainStrides(order, trans, ld).1)
    ensures VectorRows(s, gs) > 0
    ensures HalvesLaid(now, was, s, VectorRows(s, gs), Int4s(src, order, trans, ld))
  {
    hide Addr, Place, RoundUp, SumsAt, Pos, Int4s, PlainStrides, WordByte, S4At, WidenedMatrix, SumEntries, Tabled;
    var (rs, cs) := PlainStrides(order, trans, ld);
    var W := Int4s(src, order, trans, ld);
    WidenedHolds(src, s.k, s.n, rs, cs);
    Padding(s);
    VectorCount(s, gs);
    CompactSums(now, was, s, gs, src, order, trans, ld);
    forall p, j | 0 <= p < s.KPad() && 0 <= j < s.NPad()
      ensures var x := Pos(s, p, j);
        && 0 <= x / 2 < s.Size() / 2
        && (if x % 2 == 0 then now[x / 2] % 16 else now[x / 2] / 16) == if p < s.k && j < s.n then W(p, j) % 16 else 0
    {
      CellOfPos(s, p, j);
      WideFacts(s, gs);
      assert Nibble(now, Pos(s, p, j)) == if s.Live(p, j) then S4At(src, Addr(p, j, rs, cs)) else 0;
      if p < s.k && j < s.n {
        StridesPlace(order, trans, ld, p, j);
        Int4Is(src, order, trans, ld, p, j);
      }
      HalfOf(now, Pos(s, p, j));
    }
    var B := WidenedMatrix(src, s.k, s.n, rs, cs);
    WholeSums(s, B, gs);
    TableKept(now, was, s.Size() / 2, SumEntries(s, B, gs, seq(s.n, j => s.k)));
  }

  lemma HalfOf(now: seq<Byte>, x: int)
    requires 0 <= x / 2 < |now|
    ensures (if x % 2 == 0 then now[x / 2] % 16 else now[x / 2] / 16) == Nibble(now, x) % 16
  {
  }

  /** The single column of an int8 operand in the caller's terms. */
  lemma TightInTerms(now: seq<Byte>, was: seq<Byte>, k: int, gs: int, input: seq<Int8>, order: char, trans: char,
                     ld: int)
    requires k > 0 && gs > 0 && Formed(order, trans) && ColumnBytes(k, gs) <= |was|
    requires Strided(|input|, k, PlainStrides(order, trans, ld).0)
    requires now == Laid(was, Gathered(input, k, PlainStrides(order, trans, ld).0), gs)
    ensures ColumnLaid(now, was, k, gs, Int8s(input, order, trans, ld))
  {
    hide Laid, ColumnLaid, Place, Addr, PlainStrides;
    var (rs, cs) := PlainStrides(order, trans, ld);
    FirstColumn(k, rs, cs);
    forall p | 0 <= p < k ensures Gathered(input, k, rs)[p] == Int8s(input, order, trans, ld)(p, 0) {
      StridesPlace(order, trans, ld, p, 0);
      assert Addr(p, 0, rs, cs) == Addr(p, 0, rs, 0);
    }
    LaidIs(now, was, Gathered(input, k, rs), gs, Int8s(input, order, trans, ld));
  }

  /** ... and of a four-bit one. */
  lemma TightHalvesInTerms(now: seq<Byte>, was: seq<Byte>, k: int, gs: int, src: seq<bv8>, order: char, trans: char,
                           ld: int)
    requires k > 0 && gs > 0 && Formed(order, trans) && ColumnBytes(k, gs) <= |was|
    requires StridedNibbles(|src|, k, PlainStrides(order, trans, ld).0)
    requires now == Laid(was, Widened(src, k, PlainStrides(order, trans, ld).0), gs)
    ensures ColumnLaid(now, was, k, gs, Int4s(src, order, trans, ld))
  {
    hide Laid, ColumnLaid, Place, Addr, PlainStrides, S4At;
    var (rs, cs) := PlainStrides(order, trans, ld);
    FirstColumn(k, rs, cs);
    forall p | 0 <= p < k ensures Widened(src, k, rs)[p] == Int4s(src, order, trans, ld)(p, 0) {
      StridesPlace(order, trans, ld, p, 0);
      assert Addr(p, 0, rs, cs) == Addr(p, 0, rs, 0);
      Int4Is(src, order, trans, ld, p, 0);
    }
    LaidIs(now, was, Widened(src, k, rs), gs, Int4s(src, order, trans, ld));
  }
}
