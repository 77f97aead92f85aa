/** Reorder and GEMM together: multiplying with a reordered B. */
module ReorderedGemm {
  import opened CallerTerms
  import opened Errors
  import opened BlockedLayout
  import opened PanelPack
  import opened UnreorderWalk
  import opened ReorderF32
  import opened StridedGemm
  import opened GemmF32

  function AsMem(s: seq<real>): Mem {
    x => if 0 <= x < |s| then s[x] else 0.0
  }

  /** A buffer the f32 reorder has filled represents op(B), for the GEMM that is told it is reordered. */
  lemma ReorderedRepresents(order: char, transb: char, k: int, n: int, ldb: int, NR: int, NC: int, KC: int,
                            input: seq<real>, now: seq<real>, was: seq<real>, fmtB: char)
    requires ReorderCheck(order, transb, 'b', k, n, ldb) == Success
    requires Resolved(NR, NC) && BlocksLegal(NR, NR, KC, 1) && fmtB in {'r', 'R'}
    requires F32Shape(k, n, NR, NC, KC).Valid() && InputMatrix(order, transb, ldb, input).Holds(k, n)
    requires F32Reordered(now, was, F32Shape(k, n, NR, NC, KC), InputMatrix(order, transb, ldb, input))
    ensures Represents(AsMem(now), order, transb, ldb, fmtB, k, n, F32Shape(k, n, NR, NC, KC).blk,
                       StridedB(order, transb, AsMem(input), ldb))
  {
    hide Addr, Pos;
    var s, M := F32Shape(k, n, NR, NC, KC), InputMatrix(order, transb, ldb, input);
    var B := StridedB(order, transb, AsMem(input), ldb);
    forall p, j | 0 <= p < k && 0 <= j < n
      ensures B(p, j) == ReadReordered(AsMem(now), k, n, s.blk, p, j)
    {
      assert B(p, j) == input[Addr(p, j, M.rs, M.cs)];
      if n == 1 {
        assert now[p] == M.mem[Addr(p, 0, M.rs, M.cs)];
      } else {
        LiveHasPos(s, p, j);
        assert now[Pos(s, p, j)] == M.At(s, p, j);
      }
    }
  }

  /** Row-major f32: C from a GEMM on the reordered buffer equals C from the same GEMM on plain B. */
  lemma ReorderedGemmAgrees(order: char, transa: char, transb: char, m: int, n: int, k: int, alpha: real,
                            a: Mem, lda: int, fmtA: char, ldb: int, fmtB: char, plainFmt: char, beta: real, ldc: int,
                            postOps: bool, NR: int, NC: int, KC: int, input: seq<real>, packed: seq<real>,
                            packedWas: seq<real>, x: seq<real>, y: seq<real>, was: seq<real>)
    requires GemmStatus(order, transa, transb, m, n, k, lda, fmtA, ldb, fmtB, ldc) == Success
    requires fmtB in {'r', 'R'} && Plain(plainFmt)
    requires Resolved(NR, NC) && BlocksLegal(NR, NR, KC, 1) && F32Shape(k, n, NR, NC, KC).Valid()
    requires InputMatrix(order, transb, ldb, input).Holds(k, n)
    requires F32Reordered(packed, packedWas, F32Shape(k, n, NR, NC, KC), InputMatrix(order, transb, ldb, input))
    requires !FlipMisreads(order, transa, transb, n, k, ldb, fmtB, ldc, postOps)
    requires var B := StridedB(order, transb, AsMem(input), ldb);
      && Blas(x, was, order, transa, m, n, k, alpha, a, lda,
              SeenB(order, transa, transb, n, AsMem(packed), ldb, fmtB, ldc, postOps, B), beta, ldc)
      && Blas(y, was, order, transa, m, n, k, alpha, a, lda,
              SeenB(order, transa, transb, n, AsMem(input), ldb, plainFmt, ldc, postOps, B), beta, ldc)
    ensures x == y
  {
    hide Gemmed, Addr, Represents, F32Reordered;
    ReorderedRepresents(order, transb, k, n, ldb, NR, NC, KC, input, packed, packedWas, fmtB);
    SingleAndBatchAgree(x, y, was, order, transa, transb, m, n, k, alpha, a, lda, fmtA, AsMem(packed), ldb,
                        fmtB, beta, ldc, postOps, F32Shape(k, n, NR, NC, KC).blk,
                        StridedB(order, transb, AsMem(input), ldb));
  }
}
