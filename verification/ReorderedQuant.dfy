/** Grouped reorder and quantised GEMM together: multiplying with a reordered int8 B. */
module ReorderedQuant {
  import opened CallerTerms
  import opened Errors
  import opened BlockedLayout
  import opened PanelPack
  import opened ReorderWalk
  import opened UnreorderWalk
  import opened ReorderF32
  import opened Words
  import opened ColumnSums
  import opened ColumnReorder
  import opened ColumnWords
  import opened StridedGemm
  import opened GroupedLayout
  import opened GroupedReorder
  import opened GroupedEntry
  import opened SymQuant
  import opened SymQuantGemm

  /** Memory of signed bytes behind a pointer. */
  function AsIntMem(s: seq<Int8>): IntMem {
    x => if 0 <= x < |s| then s[x] else 0
  }

  /** A reordered buffer behind an int8 pointer. */
  function BufferMem(s: seq<Byte>): IntMem {
    x => if 0 <= x < |s| then FromByte(s[x]) else 0
  }

  /** The weight a reordered buffer gives the kernel for (p, j) is the stored one, in the tight column as in panels. */
  lemma GroupedCell(now: seq<Byte>, was: seq<Byte>, k: int, n: int, blocks: BlockTable, groupSize: int,
                    input: seq<Int8>, rs: int, cs: int, p: int, j: int)
    requires blocks.Legal() && GroupSize(groupSize, k) && 0 <= p < k && 0 <= j < n && |was| >= k
    requires GroupedB(now, was, k, n, blocks, groupSize, input, rs, cs)
    ensures 0 <= Addr(p, j, rs, cs) < |input|
    ensures ReadGrouped(BufferMem(now), k, n, blocks, groupSize, p, j) == input[Addr(p, j, rs, cs)]
  {
    hide Addr, Pos, AlignKc, Tabled, SumByte;
    if Tight(n, k, blocks.KC, groupSize) {
      FirstColumn(k, rs, cs);
      assert now[p] == ToByte(Gathered(input, k, rs)[p]);
    } else {
      var s := GroupedShape(k, n, blocks, groupSize);
      GroupedPlan(k, n, blocks, groupSize);
      LiveHasPos(s, p, j);
      assert now[..s.Size()][Pos(s, p, j)] == Matrix(AsBytes(input), rs, cs, 0).At(s, p, j);
    }
  }

  /** A buffer the grouped reorder has filled represents op(B), for a GEMM with the same group size that is told it is
      reordered. */
  lemma GroupedRepresents(order: char, transb: char, k: int, n: int, ldb: int, fmtB: char, blocks: BlockTable,
                          groupSize: int, input: seq<Int8>, now: seq<Byte>, was: seq<Byte>)
    requires ReorderCheck(order, transb, 'b', k, n, ldb) == Success && fmtB in {'r', 'R'}
    requires blocks.Legal() && GroupSize(groupSize, k) && |was| >= k
    requires GroupedB(now, was, k, n, blocks, groupSize, input,
                      PlainStrides(order, transb, ldb).0, PlainStrides(order, transb, ldb).1)
    ensures IntRepresents(BufferMem(now), order, transb, ldb, fmtB, k, n, blocks, groupSize,
                          OpMatrix(order, transb, AsIntMem(input), ldb))
  {
    hide Addr, ReadGrouped, GroupedB;
    var (rs, cs) := PlainStrides(order, transb, ldb);
    forall p, j | 0 <= p < k && 0 <= j < n
      ensures OpMatrix(order, transb, AsIntMem(input), ldb)(p, j)
              == ReadGrouped(BufferMem(now), k, n, blocks, groupSize, p, j)
    {
      GroupedCell(now, was, k, n, blocks, groupSize, input, rs, cs, p, j);
    }
  }

  /** Two B pointers that stand for the same k x n matrix leave the same C: x and y from two accepted calls that differ
      only in how B is stored. */
  lemma SameBSameC(x: seq<real>, y: seq<real>, was: seq<real>, order: char, transa: char, m: int, n: int, k: int,
                   alpha: real, a: IntMem, lda: int, beta: real, ldc: int, s: Scales, dec: Decoder, B: IntMatrix,
                   B': IntMatrix)
    requires s.groupSize > 0 && forall p, j :: 0 <= p < k && 0 <= j < n ==> B(p, j) == B'(p, j)
    requires Gemmed(x, was, m, n, CStrides(order, ldc).0, CStrides(order, ldc).1, alpha, beta,
                    QuantDots(s, dec, OpMatrix(order, transa, a, lda), B, k, n))
    requires Gemmed(y, was, m, n, CStrides(order, ldc).0, CStrides(order, ldc).1, alpha, beta,
                    QuantDots(s, dec, OpMatrix(order, transa, a, lda), B', k, n))
    ensures x == y
  {
    hide Gemmed, QuantDot;
    var (rs, cs) := CStrides(order, ldc);
    var A := OpMatrix(order, transa, a, lda);
    forall i, j | 0 <= i < m && 0 <= j < n
      ensures QuantDots(s, dec, A, B, k, n)(i, j) == QuantDots(s, dec, A, B', k, n)(i, j)
    {
      QuantDotExt(s, dec, A, A, B, B', k, n, i, j);
    }
    SameDots(x, was, m, n, rs, cs, alpha, beta, QuantDots(s, dec, A, B, k, n), QuantDots(s, dec, A, B', k, n));
    GemmedUnique(x, y, was, m, n, rs, cs, alpha, beta, QuantDots(s, dec, A, B', k, n));
  }

  /** The quantised GEMM on a reordered buffer leaves the C it leaves on plain B, for every group size, in either
      layout: x from the reordered call, for whatever B its buffer represents, y from the plain one. */
  lemma ReorderedQuantAgrees(order: char, transa: char, transb: char, m: int, n: int, k: int, alpha: real, a: IntMem,
                             lda: int, ldb: int, fmtB: char, plainFmt: char, beta: real, ldc: int, blocks: BlockTable,
                             s: Scales, dec: Decoder, input: seq<Int8>, packed: seq<Byte>, packedWas: seq<Byte>,
                             B: IntMatrix, B': IntMatrix, x: seq<real>, y: seq<real>, was: seq<real>)
    requires ReorderCheck(order, transb, 'b', k, n, ldb) == Success
    requires fmtB in {'r', 'R'} && Plain(plainFmt)
    requires blocks.Legal() && GroupSize(s.groupSize, k) && |packedWas| >= k
    requires GroupedB(packed, packedWas, k, n, blocks, s.groupSize, input,
                      PlainStrides(order, transb, ldb).0, PlainStrides(order, transb, ldb).1)
    requires IntRepresents(BufferMem(packed), order, transb, ldb, fmtB, k, n, blocks, s.groupSize, B)
    requires IntRepresents(AsIntMem(input), order, transb, ldb, plainFmt, k, n, blocks, s.groupSize, B')
    requires Gemmed(x, was, m, n, CStrides(order, ldc).0, CStrides(order, ldc).1, alpha, beta,
                    QuantDots(s, dec, OpMatrix(order, transa, a, lda), B, k, n))
    requires Gemmed(y, was, m, n, CStrides(order, ldc).0, CStrides(order, ldc).1, alpha, beta,
                    QuantDots(s, dec, OpMatrix(order, transa, a, lda), B', k, n))
    ensures x == y
  {
    hide Gemmed, QuantDot, GroupedB, ReadGrouped, Op;
    GroupedRepresents(order, transb, k, n, ldb, fmtB, blocks, s.groupSize, input, packed, packedWas);
    var meant := OpMatrix(order, transb, AsIntMem(input), ldb);
    forall p, j | 0 <= p < k && 0 <= j < n ensures B(p, j) == B'(p, j) {
      assert meant(p, j) == ReadGrouped(BufferMem(packed), k, n, blocks, s.groupSize, p, j);
    }
    SameBSameC(x, y, was, order, transa, m, n, k, alpha, a, lda, beta, ldc, s, dec, B, B');
  }
}
