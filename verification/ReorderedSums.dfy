/** What the quantised kernels do with a reordered B: they add 128 to A, so that it is unsigned, accumulate in int32,
    and take back the sums stored behind the weights. */
module ReorderedSums {
  import opened Arith
  import opened CallerTerms
  import opened Errors
  import opened BlockedLayout
  import opened PanelPack
  import opened ReorderWalk
  import opened ReorderF32
  import opened Words
  import opened ColumnSums
  import opened ColumnReorder
  import opened StridedGemm
  import opened GroupedLayout
  import opened GroupedSums
  import opened GroupedReorder
  import opened GroupedEntry
  import opened SymQuant
  import opened SymQuantGemm
  import opened ReorderedQuant

  function Products(A: IntMatrix, W: IntMatrix, i: int, j: int): int -> int { p => Product(A(i, p), W(p, j)) }

  /** A as the kernels see it, one byte unsigned. */
  function Unsigned(A: IntMatrix): IntMatrix { (i, p) => A(i, p) + 128 }

  function Weights(W: IntMatrix, j: int): int -> int { p => W(p, j) }

  /** int32 accumulation of unsigned A with rows [lo, hi) of W, less a stored sum. */
  function Compensated(A: IntMatrix, W: IntMatrix, slot: int, i: int, j: int, lo: int, hi: int): int {
    Wrap32(Wrap32(IntSum(Products(Unsigned(A), W, i, j), lo, hi)) - slot)
  }

  lemma {:induction false} Offset128(A: IntMatrix, W: IntMatrix, i: int, j: int, lo: int, hi: int)
    ensures IntSum(Products(Unsigned(A), W, i, j), lo, hi)
            == IntSum(Products(A, W, i, j), lo, hi) + 128 * IntSum(Weights(W, j), lo, hi)
    decreases hi - lo
  {
    if lo < hi {
      Offset128(A, W, i, j, lo, hi - 1);
      Distribute(A(i, hi - 1), 128, W(hi - 1, j));
    }
  }

  /** With 128 times the column's sum in the slot, what is left is the signed dot product, in int32 arithmetic. */
  lemma CompensatedIs(A: IntMatrix, W: IntMatrix, slot: int, i: int, j: int, lo: int, hi: int)
    requires slot == Wrap32(128 * IntSum(Weights(W, j), lo, hi))
    ensures Compensated(A, W, slot, i, j, lo, hi) == Wrap32(IntSum(Products(A, W, i, j), lo, hi))
  {
    hide Wrap32, SameWord, IntSum, Products, Weights;
    var dot, sum := IntSum(Products(A, W, i, j), lo, hi), IntSum(Weights(W, j), lo, hi);
    Offset128(A, W, i, j, lo, hi);
    WrapCancels(dot, 128 * sum);
  }

  lemma WrapCancels(dot: int, sum: int)
    ensures Wrap32(Wrap32(dot + sum) - Wrap32(sum)) == Wrap32(dot)
  {
    hide Wrap32;
    var a := WrapTurns(dot + sum);
    var b := WrapTurns(sum);
    WrapShift(dot, a - b);
  }

  lemma WrapTurns(v: int) returns (q: int)
    ensures Wrap32(v) == v + q * TWO32
  {
    q := -(v / TWO32) - (if v % TWO32 < 0x8000_0000 then 0 else 1);
  }

  lemma WrapShift(v: int, q: int)
    ensures Wrap32(v + q * TWO32) == Wrap32(v)
  {
    DivModUnique(v + q * TWO32, TWO32, v / TWO32 + q, v % TWO32);
  }

  predicate Signed8(A: IntMatrix, i: int, k: int) { forall p :: 0 <= p < k ==> -128 <= A(i, p) < 128 }

  predicate Signed8Column(W: IntMatrix, j: int, k: int) { forall p :: 0 <= p < k ==> -128 <= W(p, j) < 128 }

  lemma BoundBy(x: int, y: int)
    requires -128 <= x < 128 && 0 <= y
    ensures -128 * y <= x * y <= 128 * y
  {
    MulLe(-128, x, y);
    MulLe(x, 128, y);
  }

  lemma ProductBound(x: int, y: int)
    requires -128 <= x < 128 && -128 <= y < 128
    ensures -16384 <= Product(x, y) <= 16384
  {
    if y >= 0 {
      BoundBy(x, y);
    } else {
      BoundBy(x, -y);
      assert x * -y == -(x * y);
    }
  }

  /** int8 dot products of rows [lo, hi). */
  lemma {:induction false} RunBound(A: IntMatrix, W: IntMatrix, i: int, j: int, lo: int, hi: int)
    requires forall p :: lo <= p < hi ==> -128 <= A(i, p) < 128 && -128 <= W(p, j) < 128
    requires lo <= hi
    ensures -16384 * (hi - lo) <= IntSum(Products(A, W, i, j), lo, hi) <= 16384 * (hi - lo)
    decreases hi - lo
  {
    if lo < hi {
      RunBound(A, W, i, j, lo, hi - 1);
      ProductBound(A(i, hi - 1), W(hi - 1, j));
    }
  }

  /** They stay within int32 whatever the operands exactly up to 131071 rows. */
  lemma DotsFitIff(k: nat)
    ensures (forall A: IntMatrix, W: IntMatrix :: Signed8(A, 0, k) && Signed8Column(W, 0, k) ==>
               Fits32(IntSum(Products(A, W, 0, 0), 0, k)))
            <==> k <= 131071
  {
    if k <= 131071 {
      forall A: IntMatrix, W: IntMatrix | Signed8(A, 0, k) && Signed8Column(W, 0, k)
        ensures Fits32(IntSum(Products(A, W, 0, 0), 0, k))
      {
        RunBound(A, W, 0, 0, 0, k);
      }
    } else {
      var low: IntMatrix := (i, p) => -128;
      assert Signed8(low, 0, k) && Signed8Column(low, 0, k);
      LowDot(low, k);
    }
  }

  lemma {:induction false} LowDot(low: IntMatrix, k: nat)
    requires forall i, p :: low(i, p) == -128
    ensures IntSum(Products(low, low, 0, 0), 0, k) == 16384 * k
  {
    if k > 0 { LowDot(low, k - 1); }
  }

  /** Rows one stored sum covers: a group in the tight column; in panels a group, or a K panel of a single group. */
  function RowsPerSum(k: int, n: int, blocks: BlockTable, groupSize: int): (rows: int)
    requires blocks.Legal() && GroupSize(groupSize, k) && n > 0
    ensures rows > 0
  {
    GroupedPlan(k, n, blocks, groupSize);
    if Tight(n, k, blocks.KC, groupSize) then groupSize
    else VectorRows(GroupedShape(k, n, blocks, groupSize), groupSize)
  }

  /** Where the kernels look for the sum of vector v and column j. */
  function SumAt(k: int, n: int, blocks: BlockTable, groupSize: int, v: int, j: int): int
    requires blocks.Legal() && GroupSize(groupSize, k) && n > 0
  {
    GroupedPlan(k, n, blocks, groupSize);
    var s := GroupedShape(k, n, blocks, groupSize);
    if Tight(n, k, blocks.KC, groupSize) then SumOffset(k) + 4 * v else s.Size() + 4 * (v * s.NPad() + j)
  }

  function SlotRead(now: seq<Byte>, at: int): int {
    if 0 <= at && at + 4 <= |now| then Load32(now, at) else 0
  }

  /** The matrix a grouped reorder was given. */
  function Given(input: seq<Int8>, rs: int, cs: int): IntMatrix { (p, j) => AsIntMem(input)(Addr(p, j, rs, cs)) }

  /** The sum a kernel takes back for the rows of vector v of column j is 128 times what those weights add up to. */
  lemma SlotHeld(now: seq<Byte>, was: seq<Byte>, k: int, n: int, blocks: BlockTable, groupSize: int, input: seq<Int8>,
                 rs: int, cs: int, v: int, j: int)
    requires blocks.Legal() && GroupSize(groupSize, k) && 0 <= j < n
    requires GroupedB(now, was, k, n, blocks, groupSize, input, rs, cs)
    requires LayoutBytes(k, n, blocks, groupSize) <= |was|
    requires 0 <= v < NumGroups(k, RowsPerSum(k, n, blocks, groupSize))
    ensures var R := RowsPerSum(k, n, blocks, groupSize);
      SlotRead(now, SumAt(k, n, blocks, groupSize, v, j))
      == Wrap32(128 * IntSum(Weights(Given(input, rs, cs), j), v * R, Min((v + 1) * R, k)))
  {
    hide NumGroups, AlignKc, RoundUp, GroupedB, Wrap32, IntSum, SlotRead, WideBytes;
    if Tight(n, k, blocks.KC, groupSize) {
      TightSlot(now, was, k, n, blocks, groupSize, input, rs, cs, v);
    } else {
      WideSlot(now, was, k, n, blocks, groupSize, input, rs, cs, v, j);
    }
  }

  lemma TightSlot(now: seq<Byte>, was: seq<Byte>, k: int, n: int, blocks: BlockTable, groupSize: int,
                  input: seq<Int8>, rs: int, cs: int, g: int)
    requires blocks.Legal() && GroupSize(groupSize, k) && n > 0 && Tight(n, k, blocks.KC, groupSize)
    requires GroupedB(now, was, k, n, blocks, groupSize, input, rs, cs)
    requires ColumnBytes(k, groupSize) <= |was| && 0 <= g < NumGroups(k, groupSize)
    ensures SlotRead(now, SumOffset(k) + 4 * g)
            == Wrap32(128 * IntSum(Weights(Given(input, rs, cs), 0), g * groupSize, Min((g + 1) * groupSize, k)))
  {
    hide Wrap32, Load32, NumGroups, Addr, Laid, AlignKc, IntSum;
    OffsetFacts(k);
    var col := Gathered(input, k, rs);
    TightSum(was, col, groupSize, g);
    forall p | g * groupSize <= p < Min((g + 1) * groupSize, k)
      ensures Values(col)(p) == Weights(Given(input, rs, cs), 0)(p)
    {
      MulLe(0, g, groupSize);
      GatheredIs(input, k, rs, cs, p);
    }
    IntSumExt(Values(col), Weights(Given(input, rs, cs), 0), g * groupSize, Min((g + 1) * groupSize, k));
  }

  lemma TightSum(was: seq<Byte>, col: Column, gs: int, g: int)
    requires gs > 0 && 0 <= g < NumGroups(|col|, gs) && ColumnBytes(|col|, gs) <= |was|
    ensures SlotRead(Laid(was, col, gs), SumOffset(|col|) + 4 * g)
            == Wrap32(128 * IntSum(Values(col), g * gs, Min((g + 1) * gs, |col|)))
  {
    hide Wrap32, Load32, NumGroups, Laid, IntSum;
    OffsetFacts(|col|);
    LaidSlot(was, col, gs, g);
  }

  lemma GatheredIs(input: seq<Int8>, k: int, rs: int, cs: int, p: int)
    requires Strided(|input|, k, rs) && 0 <= p < k
    ensures Values(Gathered(input, k, rs))(p) == Weights(Given(input, rs, cs), 0)(p)
  {
    hide Addr;
    FirstColumn(k, rs, cs);
    ColumnZero(p, rs, cs);
    GivenAt(input, rs, cs, p, 0);
  }

  lemma ColumnZero(p: int, rs: int, cs: int)
    ensures Addr(p, 0, rs, cs) == Addr(p, 0, rs, 0)
  {
  }

  lemma WideSlot(now: seq<Byte>, was: seq<Byte>, k: int, n: int, blocks: BlockTable, groupSize: int,
                 input: seq<Int8>, rs: int, cs: int, v: int, j: int)
    requires blocks.Legal() && GroupSize(groupSize, k) && 0 <= j < n && !Tight(n, k, blocks.KC, groupSize)
    requires GroupedB(now, was, k, n, blocks, groupSize, input, rs, cs)
    requires 0 <= v < NumGroups(k, RowsPerSum(k, n, blocks, groupSize))
    ensures var R := RowsPerSum(k, n, blocks, groupSize);
      SlotRead(now, SumAt(k, n, blocks, groupSize, v, j))
      == Wrap32(128 * IntSum(Weights(Given(input, rs, cs), j), v * R, Min((v + 1) * R, k)))
  {
    hide Wrap32, Load32, NumGroups, Addr, GroupReordered, AlignKc, RoundUp, Tight;
    GroupedPlan(k, n, blocks, groupSize);
    var s, B := GroupedShape(k, n, blocks, groupSize), Matrix(AsBytes(input), rs, cs, 0);
    var R := VectorRows(s, groupSize);
    PadAtLeast(s);
    GroupSumsRead(now, was, s, groupSize, B, v, j);
    MulLe(0, v, R);
    forall p | v * R <= p < Min((v + 1) * R, k)
      ensures ColumnValues(B, j)(p) == Weights(Given(input, rs, cs), j)(p)
    {
      WeightByteIs(input, k, n, rs, cs, p, j);
    }
    IntSumExt(ColumnValues(B, j), Weights(Given(input, rs, cs), j), v * R, Min((v + 1) * R, k));
  }

  lemma PadAtLeast(s: Shape)
    requires s.Valid()
    ensures s.n <= s.NPad()
  {
    RoundUpFacts(s.n, s.blk.minNR);
  }

  lemma WeightByteIs(input: seq<Int8>, k: int, n: int, rs: int, cs: int, p: int, j: int)
    requires Matrix(AsBytes(input), rs, cs, 0).Holds(k, n) && 0 <= p < k && 0 <= j < n
    ensures ColumnValues(Matrix(AsBytes(input), rs, cs, 0), j)(p) == Weights(Given(input, rs, cs), j)(p)
  {
    hide Addr;
    var x := Addr(p, j, rs, cs);
    assert 0 <= x < |AsBytes(input)| && AsBytes(input)[x] == ToByte(input[x]);
    BackAndForth(input[x]);
    GivenAt(input, rs, cs, p, j);
    assert ColumnValues(Matrix(AsBytes(input), rs, cs, 0), j)(p) == Elem(Matrix(AsBytes(input), rs, cs, 0), p, j);
  }

  lemma GivenAt(input: seq<Int8>, rs: int, cs: int, p: int, j: int)
    requires 0 <= Addr(p, j, rs, cs) < |input|
    ensures Weights(Given(input, rs, cs), j)(p) == Given(input, rs, cs)(p, j) == input[Addr(p, j, rs, cs)]
  {
    hide Addr;
    assert Given(input, rs, cs)(p, j) == AsIntMem(input)(Addr(p, j, rs, cs));
  }

  lemma BackAndForth(v: Int8)
    ensures FromByte(ToByte(v)) == v
  {
  }

  /** The weights a kernel reads from the buffer. */
  function Stored(now: seq<Byte>, k: int, n: int, blocks: BlockTable, groupSize: int): IntMatrix
    requires blocks.Legal() && GroupSize(groupSize, k) && n > 0
  {
    (p, j) => ReadGrouped(BufferMem(now), k, n, blocks, groupSize, p, j)
  }

  /** What a kernel computes for row i of A and the rows of vector v of column j, from weights and sums it reads. */
  function BlockDot(A: IntMatrix, now: seq<Byte>, k: int, n: int, blocks: BlockTable, groupSize: int, i: int, j: int,
                    v: int): int
    requires blocks.Legal() && GroupSize(groupSize, k) && n > 0
  {
    var R := RowsPerSum(k, n, blocks, groupSize);
    Compensated(A, Stored(now, k, n, blocks, groupSize), SlotRead(now, SumAt(k, n, blocks, groupSize, v, j)), i, j,
                v * R, Min((v + 1) * R, k))
  }

  /** It is the signed dot product, in int32 arithmetic; and the dot product itself for up to 131071 rows. */
  lemma BlockDotIs(A: IntMatrix, now: seq<Byte>, was: seq<Byte>, k: int, n: int, blocks: BlockTable, groupSize: int,
                   input: seq<Int8>, rs: int, cs: int, i: int, j: int, v: int)
    requires blocks.Legal() && GroupSize(groupSize, k) && 0 <= j < n
    requires GroupedB(now, was, k, n, blocks, groupSize, input, rs, cs)
    requires LayoutBytes(k, n, blocks, groupSize) <= |was|
    requires 0 <= v < NumGroups(k, RowsPerSum(k, n, blocks, groupSize))
    ensures var R := RowsPerSum(k, n, blocks, groupSize);
      var dot := IntSum(Products(A, Given(input, rs, cs), i, j), v * R, Min((v + 1) * R, k));
      && BlockDot(A, now, k, n, blocks, groupSize, i, j, v) == Wrap32(dot)
      && (Signed8(A, i, k) && R <= 131071 ==> BlockDot(A, now, k, n, blocks, groupSize, i, j, v) == dot)
  {
    hide Wrap32, GroupedB, NumGroups, RowsPerSum, SumAt, SlotRead, LayoutBytes, Given, ReadGrouped, Weights, IntSum;
    var R, W, G := RowsPerSum(k, n, blocks, groupSize), Stored(now, k, n, blocks, groupSize), Given(input, rs, cs);
    var lo, hi := v * R, Min((v + 1) * R, k);
    RowsOfVector(k, R, v);
    SlotHeld(now, was, k, n, blocks, groupSize, input, rs, cs, v, j);
    LongEnough(k, n, blocks, groupSize);
    forall p | lo <= p < hi ensures W(p, j) == G(p, j) && -128 <= G(p, j) < 128 {
      GroupedCell(now, was, k, n, blocks, groupSize, input, rs, cs, p, j);
      GivenAt(input, rs, cs, p, j);
    }
    IntSumExt(Products(Unsigned(A), W, i, j), Products(Unsigned(A), G, i, j), lo, hi);
    CompensatedIs(A, G, SlotRead(now, SumAt(k, n, blocks, groupSize, v, j)), i, j, lo, hi);
    if Signed8(A, i, k) && R <= 131071 { RunBound(A, G, i, j, lo, hi); }
  }

  lemma RowsOfVector(k: int, R: int, v: int)
    requires k > 0 && R > 0 && 0 <= v < NumGroups(k, R)
    ensures 0 <= v * R < k && Min((v + 1) * R, k) <= v * R + R
  {
    hide NumGroups;
    SlotCount(k, R);
    MulLe(0, v, R);
    MulLe(v, NumGroups(k, R) - 1, R);
    Distribute(v, 1, R);
  }

  lemma LongEnough(k: int, n: int, blocks: BlockTable, groupSize: int)
    requires blocks.Legal() && GroupSize(groupSize, k) && n > 0
    ensures LayoutBytes(k, n, blocks, groupSize) >= k
  {
    hide NumGroups, RoundUp, AlignKc, Tight;
    GroupedPlan(k, n, blocks, groupSize);
    var s := GroupedShape(k, n, blocks, groupSize);
    OffsetFacts(k);
    SlotCount(k, groupSize);
    RoundUpFacts(k, 4);
    PadAtLeast(s);
    TableSize(s, groupSize);
    MulLe(1, s.NPad(), s.KPad());
  }

  /** The group whose factors vector v is scaled by: its own, or the only one. */
  function GroupOf(k: int, groupSize: int, v: int): int { if groupSize == k then 0 else v }

  /** What the kernels add at (i, j): each vector's compensated dot product, scaled by its group's factors. */
  function KernelSum(s: Scales, dec: Decoder, A: IntMatrix, now: seq<Byte>, k: int, n: int, blocks: BlockTable, i: int,
                     j: int): real
    requires blocks.Legal() && GroupSize(s.groupSize, k) && n > 0
  {
    Sum(Terms(s, dec, A, now, k, n, blocks, i, j), NumGroups(k, RowsPerSum(k, n, blocks, s.groupSize)))
  }

  function Terms(s: Scales, dec: Decoder, A: IntMatrix, now: seq<Byte>, k: int, n: int, blocks: BlockTable, i: int,
                 j: int): int -> real
    requires blocks.Legal() && GroupSize(s.groupSize, k) && n > 0
  {
    v => Scaled(ScaleA(s, dec, k, i, GroupOf(k, s.groupSize, v)), ScaleB(s, dec, k, n, GroupOf(k, s.groupSize, v), j),
                BlockDot(A, now, k, n, blocks, s.groupSize, i, j, v))
  }

  function GroupTerms(s: Scales, dec: Decoder, A: IntMatrix, W: IntMatrix, k: int, n: int, i: int, j: int): int -> real
    requires s.groupSize > 0
  {
    g => Scaled(ScaleA(s, dec, k, i, g), ScaleB(s, dec, k, n, g, j), GroupDot(A, W, k, s.groupSize, i, j, g))
  }

  /** Up to 131071 rows a sum, a kernel that reads weights and sums from a reordered buffer adds what the quantised GEMM
      is to add. */
  lemma KernelSumIs(s: Scales, dec: Decoder, A: IntMatrix, now: seq<Byte>, was: seq<Byte>, k: int, n: int,
                    blocks: BlockTable, input: seq<Int8>, rs: int, cs: int, i: int, j: int)
    requires blocks.Legal() && GroupSize(s.groupSize, k) && 0 <= j < n && Signed8(A, i, k)
    requires GroupedB(now, was, k, n, blocks, s.groupSize, input, rs, cs)
    requires LayoutBytes(k, n, blocks, s.groupSize) <= |was| && RowsPerSum(k, n, blocks, s.groupSize) <= 131071
    ensures KernelSum(s, dec, A, now, k, n, blocks, i, j) == QuantDot(s, dec, A, Given(input, rs, cs), k, n, i, j)
  {
    hide ScaleA, ScaleB, Scaled, GroupDot, NumGroups, BlockDot, RowsPerSum, GroupedB, LayoutBytes, Given, IntSum;
    var gs, R, W := s.groupSize, RowsPerSum(k, n, blocks, s.groupSize), Given(input, rs, cs);
    var kernel, meant := Terms(s, dec, A, now, k, n, blocks, i, j), GroupTerms(s, dec, A, W, k, n, i, j);
    forall v | 0 <= v < NumGroups(k, R)
      ensures BlockDot(A, now, k, n, blocks, gs, i, j, v)
              == IntSum(Products(A, W, i, j), v * R, Min((v + 1) * R, k))
    {
      BlockDotIs(A, now, was, k, n, blocks, gs, input, rs, cs, i, j, v);
    }
    assert QuantDot(s, dec, A, W, k, n, i, j) == Sum(meant, NumGroups(k, gs)) by {
      SumExt(g => Scaled(ScaleA(s, dec, k, i, g), ScaleB(s, dec, k, n, g, j), GroupDot(A, W, k, gs, i, j, g)), meant,
             NumGroups(k, gs));
    }
    if gs != k {
      RowsAreGroups(k, n, blocks, gs);
      forall g | 0 <= g < NumGroups(k, gs) ensures kernel(g) == meant(g) { GroupDotIs(A, W, k, gs, i, j, g); }
      SumExt(kernel, meant, NumGroups(k, gs));
    } else {
      SlotCount(k, R);
      SlotCount(k, k);
      OneGroupSum(s, dec, A, W, now, k, n, blocks, i, j, NumGroups(k, R));
      GroupDotIs(A, W, k, k, i, j, 0);
      OneTerm(meant);
    }
  }

  lemma OneTerm(f: int -> real)
    ensures Sum(f, 1) == f(0)
  {
  }

  lemma RowsAreGroups(k: int, n: int, blocks: BlockTable, groupSize: int)
    requires blocks.Legal() && GroupSize(groupSize, k) && n > 0 && groupSize != k
    ensures RowsPerSum(k, n, blocks, groupSize) == groupSize
  {
    hide AlignKc;
  }

  lemma GroupDotIs(A: IntMatrix, W: IntMatrix, k: int, groupSize: int, i: int, j: int, g: int)
    ensures GroupDot(A, W, k, groupSize, i, j, g)
            == IntSum(Products(A, W, i, j), g * groupSize, Min((g + 1) * groupSize, k))
  {
    IntSumExt(p => Product(A(i, p), W(p, j)), Products(A, W, i, j), g * groupSize, Min(k, (g + 1) * groupSize));
  }

  lemma ScaledSum(a: real, b: real, x: int, y: int)
    ensures Scaled(a, b, x) + Scaled(a, b, y) == Scaled(a, b, x + y)
  {
    assert (x + y) as real == x as real + y as real;
  }

  /** The K panels of a single group add up under its one pair of factors. */
  lemma {:induction false} OneGroupSum(s: Scales, dec: Decoder, A: IntMatrix, W: IntMatrix, now: seq<Byte>, k: int,
                                       n: int, blocks: BlockTable, i: int, j: int, count: int)
    requires blocks.Legal() && GroupSize(s.groupSize, k) && n > 0 && s.groupSize == k
    requires var R := RowsPerSum(k, n, blocks, k);
      && 0 <= count <= NumGroups(k, R)
      && forall v :: 0 <= v < count ==>
           BlockDot(A, now, k, n, blocks, k, i, j, v) == IntSum(Products(A, W, i, j), v * R, Min((v + 1) * R, k))
    ensures Sum(Terms(s, dec, A, now, k, n, blocks, i, j), count)
            == Scaled(ScaleA(s, dec, k, i, 0), ScaleB(s, dec, k, n, 0, j),
                      IntSum(Products(A, W, i, j), 0, Min(count * RowsPerSum(k, n, blocks, k), k)))
    decreases count
  {
    hide ScaleA, ScaleB, Scaled, NumGroups, BlockDot, RowsPerSum;
    var R := RowsPerSum(k, n, blocks, k);
    var a, b, f := ScaleA(s, dec, k, i, 0), ScaleB(s, dec, k, n, 0, j), Products(A, W, i, j);
    if count == 0 {
      NothingScaled(a, b);
    } else {
      OneGroupSum(s, dec, A, W, now, k, n, blocks, i, j, count - 1);
      RowsOfVector(k, R, count - 1);
      Distribute(count - 1, 1, R);
      IntSumSplit(f, 0, (count - 1) * R, Min(count * R, k));
      ScaledSum(a, b, IntSum(f, 0, (count - 1) * R), IntSum(f, (count - 1) * R, Min(count * R, k)));
    }
  }

  lemma NothingScaled(a: real, b: real)
    ensures Scaled(a, b, 0) == 0.0
  {
  }

  function KernelSums(s: Scales, dec: Decoder, A: IntMatrix, now: seq<Byte>, k: int, n: int, blocks: BlockTable)
    : (int, int) -> real
    requires blocks.Legal() && GroupSize(s.groupSize, k) && n > 0
  {
    (i, j) => KernelSum(s, dec, A, now, k, n, blocks, i, j)
  }

  /** So the C such a kernel leaves, multiplying with a buffer the grouped reorder filled, is the C the quantised GEMM
      leaves on plain B. */
  lemma ReorderedKernelAgrees(order: char, transa: char, transb: char, m: int, n: int, k: int, alpha: real, a: IntMem,
                              lda: int, ldb: int, plainFmt: char, beta: real, ldc: int, blocks: BlockTable, s: Scales,
                              dec: Decoder, input: seq<Int8>, packed: seq<Byte>, packedWas: seq<Byte>, B': IntMatrix,
                              x: seq<real>, y: seq<real>, was: seq<real>)
    requires ReorderCheck(order, transb, 'b', k, n, ldb) == Success && Plain(plainFmt)
    requires blocks.Legal() && GroupSize(s.groupSize, k)
    requires LayoutBytes(k, n, blocks, s.groupSize) <= |packedWas| && RowsPerSum(k, n, blocks, s.groupSize) <= 131071
    requires GroupedB(packed, packedWas, k, n, blocks, s.groupSize, input,
                      PlainStrides(order, transb, ldb).0, PlainStrides(order, transb, ldb).1)
    requires forall i :: 0 <= i < m ==> Signed8(OpMatrix(order, transa, a, lda), i, k)
    requires IntRepresents(AsIntMem(input), order, transb, ldb, plainFmt, k, n, blocks, s.groupSize, B')
    requires Gemmed(x, was, m, n, CStrides(order, ldc).0, CStrides(order, ldc).1, alpha, beta,
                    KernelSums(s, dec, OpMatrix(order, transa, a, lda), packed, k, n, blocks))
    requires Gemmed(y, was, m, n, CStrides(order, ldc).0, CStrides(order, ldc).1, alpha, beta,
                    QuantDots(s, dec, OpMatrix(order, transa, a, lda), B', k, n))
    ensures x == y
  {
    hide Gemmed, QuantDot, GroupedB, KernelSum, LayoutBytes, RowsPerSum, Signed8, Addr;
    var (rs, cs) := PlainStrides(order, transb, ldb);
    var A, G := OpMatrix(order, transa, a, lda), Given(input, rs, cs);
    var kernel, meant := KernelSums(s, dec, A, packed, k, n, blocks), QuantDots(s, dec, A, G, k, n);
    forall i, j | 0 <= i < m && 0 <= j < n ensures kernel(i, j) == meant(i, j) {
      KernelSumIs(s, dec, A, packed, packedWas, k, n, blocks, input, rs, cs, i, j);
    }
    SameDots(x, was, m, n, CStrides(order, ldc).0, CStrides(order, ldc).1, alpha, beta, kernel, meant);
    forall p, j | 0 <= p < k && 0 <= j < n ensures G(p, j) == B'(p, j) {
      assert B'(p, j) == Op(order, transb, AsIntMem(input), ldb, p, j);
    }
    SameBSameC(x, y, was, order, transa, m, n, k, alpha, a, lda, beta, ldc, s, dec, G, B');
  }
}
