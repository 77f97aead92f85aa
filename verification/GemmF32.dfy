/** Operand rewriting in the f32 entry points: the column-major swap, the transposes induced when both operands
    are transposed, the two GEMV flips, and the plainer batch path. */
module GemmF32 {
  import opened Arith
  import opened CallerTerms
  import opened Errors
  import opened PanelLayout
  import opened PanelPack
  import opened StridedGemm

  /** The GEMV_N1 flip is taken with a reordered B: the vector B becomes the kernel's A. */
  predicate FlipsReordered(order: char, transa: char, n: int, fmtB: char, ldc: int, postOps: bool) {
    IsRow(order) && n == 1 && IsTrans(transa) && TagOf(fmtB) == Reordered && ldc == 1 && !postOps
  }

  /** B as a strided operand, whatever its tag. */
  function StridedB(order: char, transb: char, b: Mem, ldb: int): (int, int) -> real {
    (p, j) => Op(order, transb, b, ldb, p, j)
  }

  function VectorB(b: Mem): (int, int) -> real {
    (p, j) => b(p)
  }

  /** The B the dispatched call works on: the one it represents, except that the N1 flip reads a reordered
      vector with the strides of the operand it was reordered from. */
  function SeenB(order: char, transa: char, transb: char, n: int, b: Mem, ldb: int, fmtB: char, ldc: int,
                 postOps: bool, B: (int, int) -> real): (int, int) -> real
  {
    if FlipsReordered(order, transa, n, fmtB, ldc, postOps) then StridedB(order, transb, b, ldb) else B
  }

  /** Strides of a stored operand as the entry point sets them, by transposition alone. */
  function BaseStrides(trans: char, ld: int): (int, int) {
    if IsTrans(trans) then (1, ld) else (ld, 1)
  }

  /** `aocl_gemm_f32f32f32of32` from the strides to the kernel call. */
  method Rewrite(order: char, transa: char, transb: char, m: int, n: int, k: int, a: Mem, lda: int, fmtA: char,
                 b: Mem, ldb: int, fmtB: char, ldc: int, avx512NonZen3: bool, hasMetadata: bool, postOps: bool,
                 blk: Blocking, ghost B: (int, int) -> real) returns (call: Call)
    requires blk.Legal()
    requires GemmStatus(order, transa, transb, m, n, k, lda, fmtA, ldb, fmtB, ldc) == Success
    requires Represents(b, order, transb, ldb, fmtB, k, n, blk, B)
    ensures Means(call, order, transa, m, n, k, a, lda,
                  SeenB(order, transa, transb, n, b, ldb, fmtB, ldc, postOps, B), ldc, blk)
    ensures call.csA == 1 || call.tagA == Pack
            <==> !FlipsStrided(order, transa, transb, m, n, lda, fmtA, ldb, fmtB, ldc, postOps)
    ensures call.n == 1 || call.csB == 1 || call.tagB != Unpacked
    ensures m != 1 && n != 1 && InducesTranspose(order, transa, transb, fmtB, avx512NonZen3, hasMetadata)
            ==> call.csA == 1 && call.csB == 1
  {
    if !(m == 1 || n == 1) {
      call := RewriteGemm(order, transa, transb, m, n, k, a, lda, fmtA, b, ldb, fmtB, ldc,
                          avx512NonZen3, hasMetadata, blk, B);
    } else {
      call := RewriteGemv(order, transa, transb, m, n, k, a, lda, fmtA, b, ldb, fmtB, ldc, postOps, blk, B);
    }
  }

  /** Both operands are transposed and C is written transposed instead of packing either. */
  predicate InducesTranspose(order: char, transa: char, transb: char, fmtB: char, avx512NonZen3: bool,
                             hasMetadata: bool)
  {
    && (avx512NonZen3 || !hasMetadata) && IsTrans(transa) && IsTrans(transb)
    && !(IsRow(order) && TagOf(fmtB) == Reordered)
  }

  /** Neither m nor n is 1. */
  method RewriteGemm(order: char, transa: char, transb: char, m: int, n: int, k: int, a: Mem, lda: int, fmtA: char,
                     b: Mem, ldb: int, fmtB: char, ldc: int, avx512NonZen3: bool, hasMetadata: bool,
                     blk: Blocking, ghost B: (int, int) -> real) returns (call: Call)
    requires blk.Legal() && m != 1 && n != 1
    requires GemmStatus(order, transa, transb, m, n, k, lda, fmtA, ldb, fmtB, ldc) == Success
    requires Represents(b, order, transb, ldb, fmtB, k, n, blk, B)
    ensures Means(call, order, transa, m, n, k, a, lda, B, ldc, blk)
    ensures call.csA != 1 ==> call.tagA == Pack
    ensures call.csB != 1 ==> call.tagB != Unpacked
    ensures InducesTranspose(order, transa, transb, fmtB, avx512NonZen3, hasMetadata)
            ==> call.csA == 1 && call.csB == 1
  {
    hide Addr;
    forall x, y, rs, cs ensures Addr(x, y, rs, cs) == Addr(y, x, cs, rs) { AddrSwap(x, y, rs, cs); }
    var (rsA, csA) := BaseStrides(transa, lda);
    var (rsB, csB) := BaseStrides(transb, ldb);
    var rsC, csC := ldc, 1;
    var mtagA, mtagB := TagOf(fmtA), TagOf(fmtB);

    var mUse, nUse, aUse, bUse := m, n, a, b;
    var rsAUse, csAUse, rsBUse, csBUse, rsCUse, csCUse := rsA, csA, rsB, csB, rsC, csC;
    var mtagAUse, mtagBUse := mtagA, mtagB;

    if IsRow(order) {
      if mtagB != Reordered {
        if (avx512NonZen3 || !hasMetadata) && IsTrans(transb) && IsTrans(transa) {
          mUse, nUse := n, m;
          aUse, rsAUse, csAUse := b, csB, rsB;
          bUse, rsBUse, csBUse := a, csA, rsA;
          rsCUse, csCUse := csC, rsC;
          mtagAUse, mtagBUse := mtagB, mtagA;
        } else {
          if IsTrans(transb) { mtagB := Pack; mtagBUse := Pack; }
          if IsTrans(transa) { mtagA := Pack; mtagAUse := Pack; }
        }
      } else if IsTrans(transa) {
        mtagA := Pack;
        mtagAUse := Pack;
      }
    } else {
      if (avx512NonZen3 || !hasMetadata) && IsTrans(transa) && IsTrans(transb) {
        rsAUse, csAUse := csA, rsA;
        rsBUse, csBUse := csB, rsB;
        rsCUse, csCUse := csC, rsC;
        mtagAUse, mtagBUse := mtagA, mtagB;
      } else {
        if IsTrans(transa) && mtagA == Unpacked { mtagA := Pack; }
        if IsTrans(transb) { mtagB := Pack; }
        mUse, nUse := n, m;
        aUse, rsAUse, csAUse := b, rsB, csB;
        bUse, rsBUse, csBUse := a, rsA, csA;
        rsCUse, csCUse := rsC, csC;
        mtagAUse, mtagBUse := mtagB, mtagA;
      }
    }
    call := Call(mUse, nUse, k, aUse, rsAUse, csAUse, mtagAUse, bUse, rsBUse, csBUse, mtagBUse, rsCUse, csCUse);
  }

  /** The GEMV_N1 flip is taken, and the single column that becomes the kernel's A has elements that are not adjacent
      under a tag that does not ask for packing. */
  predicate FlipsStrided(order: char, transa: char, transb: char, m: int, n: int, lda: int, fmtA: char, ldb: int,
                         fmtB: char, ldc: int, postOps: bool)
  {
    && !postOps && ldc == 1
    && (if order in {'r', 'R'} then
          n == 1 && transa in {'t', 'T'} && transb in {'n', 'N'} && ldb != 1 && fmtB !in {'p', 'P'}
        else m == 1 && transb in {'t', 'T'} && transa in {'n', 'N'} && lda != 1 && fmtA !in {'p', 'P'})
  }

  /** m or n is 1: the column-major swap, then at most one of the two flips. */
  method RewriteGemv(order: char, transa: char, transb: char, m: int, n: int, k: int, a: Mem, lda: int, fmtA: char,
                     b: Mem, ldb: int, fmtB: char, ldc: int, postOps: bool,
                     blk: Blocking, ghost B: (int, int) -> real) returns (call: Call)
    requires blk.Legal()
    requires GemmStatus(order, transa, transb, m, n, k, lda, fmtA, ldb, fmtB, ldc) == Success
    requires Represents(b, order, transb, ldb, fmtB, k, n, blk, B)
    ensures Means(call, order, transa, m, n, k, a, lda,
                  SeenB(order, transa, transb, n, b, ldb, fmtB, ldc, postOps, B), ldc, blk)
    ensures call.csA == 1 || call.tagA == Pack
            <==> !FlipsStrided(order, transa, transb, m, n, lda, fmtA, ldb, fmtB, ldc, postOps)
    ensures call.n == 1 || call.csB == 1 || call.tagB != Unpacked
  {
    hide Addr, Means;
    var (rsA, csA) := BaseStrides(transa, lda);
    var (rsB, csB) := BaseStrides(transb, ldb);
    var rsC, csC := ldc, 1;
    var mtagA, mtagB := TagOf(fmtA), TagOf(fmtB);

    var mUse, nUse, aUse, bUse := m, n, a, b;
    var rsAUse, csAUse, rsBUse, csBUse, rsCUse, csCUse := rsA, csA, rsB, csB, rsC, csC;
    var mtagAUse, mtagBUse := mtagA, mtagB;
    var transaTmp, transbTmp := transa, transb;
    if IsRow(order) {
      if mtagB != Reordered && IsTrans(transb) { mtagB := Pack; mtagBUse := Pack; }
      if IsTrans(transa) { mtagA := Pack; mtagAUse := Pack; }
    } else {
      if IsTrans(transa) && mtagA == Unpacked { mtagA := Pack; }
      if IsTrans(transb) { mtagB := Pack; }
      mUse, nUse := n, m;
      aUse, rsAUse, csAUse := b, rsB, csB;
      bUse, rsBUse, csBUse := a, rsA, csA;
      rsCUse, csCUse := rsC, csC;
      mtagAUse, mtagBUse := mtagB, mtagA;
      transaTmp, transbTmp := transb, transa;
    }
    var mTmp, nTmp, aTmp, bTmp := mUse, nUse, aUse, bUse;
    var rsATmp, csATmp, rsBTmp, csBTmp, rsCTmp, csCTmp := rsAUse, csAUse, rsBUse, csBUse, rsCUse, csCUse;
    var mtagATmp, mtagBTmp := mtagAUse, mtagBUse;
    ghost var base := Call(mTmp, nTmp, k, aTmp, rsATmp, csATmp, mtagATmp, bTmp, rsBTmp, csBTmp, mtagBTmp, rsCTmp,
                           csCTmp);
    ghost var seen := SeenB(order, transa, transb, n, b, ldb, fmtB, ldc, postOps, B);
    BaseMeans(base, order, transa, transb, m, n, k, a, lda, fmtA, b, ldb, fmtB, ldc, blk, B);
    if !postOps {
      if mTmp == 1 && IsTrans(transbTmp) && mtagBTmp != Reordered {
        // GEMV_M1 becomes GEMV_N1.
        mUse, nUse := nTmp, mTmp;
        aUse, rsAUse, csAUse := bTmp, csBTmp, rsBTmp;
        bUse, rsBUse, csBUse := aTmp, csATmp, rsATmp;
        rsCUse, csCUse := csCTmp, rsCTmp;
        mtagAUse, mtagBUse := Unpacked, mtagATmp;
        FlipMeans(base, Unpacked, mtagATmp, order, transa, m, n, k, a, lda, B, ldc, blk);
      } else if nTmp == 1 && IsTrans(transaTmp) && rsCTmp == 1 {
        // GEMV_N1 becomes GEMV_M1.
        mUse, nUse := nTmp, mTmp;
        aUse, rsAUse, csAUse := bTmp, csBTmp, rsBTmp;
        bUse, rsBUse, csBUse := aTmp, csATmp, rsATmp;
        rsCUse, csCUse := csCTmp, rsCTmp;
        mtagAUse, mtagBUse := mtagBTmp, Unpacked;
        if mtagBTmp == Reordered {
          ghost var plain := base.(tagB := Unpacked);
          BaseMeans(plain, order, transa, transb, m, n, k, a, lda, fmtA, b, ldb, 'n', ldc, blk, seen);
          FlipMeans(plain, Reordered, Unpacked, order, transa, m, n, k, a, lda, seen, ldc, blk);
        } else {
          FlipMeans(base, mtagBTmp, Unpacked, order, transa, m, n, k, a, lda, B, ldc, blk);
        }
      }
    }
    call := Call(mUse, nUse, k, aUse, rsAUse, csAUse, mtagAUse, bUse, rsBUse, csBUse, mtagBUse, rsCUse, csCUse);
  }

  /** Operands as stored for row-major order, and swapped for column-major, mean the BLAS problem. */
  lemma BaseMeans(call: Call, order: char, transa: char, transb: char, m: int, n: int, k: int, a: Mem, lda: int,
                  fmtA: char, b: Mem, ldb: int, fmtB: char, ldc: int, blk: Blocking, B: (int, int) -> real)
    requires blk.Legal()
    requires GemmStatus(order, transa, transb, m, n, k, lda, fmtA, ldb, fmtB, ldc) == Success
    requires Represents(b, order, transb, ldb, fmtB, k, n, blk, B)
    requires call.k == k && (call.rsC, call.csC) == (ldc, 1)
    requires
      if IsRow(order) then
        && call.m == m && call.n == n
        && call.a == a && (call.rsA, call.csA) == BaseStrides(transa, lda)
        && call.b == b && (call.rsB, call.csB) == BaseStrides(transb, ldb)
        && (call.tagB == Reordered <==> TagOf(fmtB) == Reordered)
      else
        && call.m == n && call.n == m && call.tagB != Reordered
        && call.a == b && (call.rsA, call.csA) == BaseStrides(transb, ldb)
        && call.b == a && (call.rsB, call.csB) == BaseStrides(transa, lda)
    ensures Means(call, order, transa, m, n, k, a, lda, B, ldc, blk)
  {
    hide Addr;
    forall x, y, rs, cs ensures Addr(x, y, rs, cs) == Addr(y, x, cs, rs) { AddrSwap(x, y, rs, cs); }
  }

  /** Inducing an operation transpose: exchanging the operands and transposing all three matrices keeps what a
      call means, provided neither operand is read by the reordered layout. */
  lemma FlipMeans(base: Call, tagA: Tag, tagB: Tag, order: char, transa: char, m: int, n: int, k: int, a: Mem, lda: int,
                  B: (int, int) -> real, ldc: int, blk: Blocking)
    requires blk.Legal() && Means(base, order, transa, m, n, k, a, lda, B, ldc, blk)
    requires base.tagB != Reordered && tagB != Reordered
    ensures Means(Call(base.n, base.m, base.k, base.b, base.csB, base.rsB, tagA,
                       base.a, base.csA, base.rsA, tagB, base.csC, base.rsC),
                  order, transa, m, n, k, a, lda, B, ldc, blk)
  {
    hide Addr, Op;
    var flip := Call(base.n, base.m, base.k, base.b, base.csB, base.rsB, tagA,
                     base.a, base.csA, base.rsA, tagB, base.csC, base.rsC);
    forall j, p ensures flip.A(j, p) == base.B(blk, p, j) { AddrSwap(j, p, flip.rsA, flip.csA); }
    forall p, i ensures flip.B(blk, p, i) == base.A(i, p) { AddrSwap(p, i, flip.rsB, flip.csB); }
  }

  /** The flip is taken with a reordered vector of more than one element, and reads it by a stride that is not 1. */
  predicate FlipMisreads(order: char, transa: char, transb: char, n: int, k: int, ldb: int, fmtB: char, ldc: int,
                         postOps: bool)
  {
    && order in {'r', 'R'} && transa in {'t', 'T'} && transb in {'n', 'N'} && fmtB in {'r', 'R'}
    && n == 1 && k != 1 && ldb != 1 && ldc == 1 && !postOps
  }

  /** `aocl_gemm_f32f32f32of32`: a refused call leaves C alone, any other leaves the BLAS result for the B it sees.
      `preparation` is the verdict of what lies between the refusals and the kernel: post-operations, block sizes,
      kernel handles. */
  method Gemm(order: char, transa: char, transb: char, m: int, n: int, k: int, alpha: real, a: Mem, lda: int,
              fmtA: char, b: Mem, ldb: int, fmtB: char, beta: real, c: array<real>, ldc: int,
              avx512NonZen3: bool, hasMetadata: bool, postOps: bool, blk: Blocking,
              preparation: Err, ghost B: (int, int) -> real) returns (err: Err)
    requires blk.Legal()
    requires GemmStatus(order, transa, transb, m, n, k, lda, fmtA, ldb, fmtB, ldc) == Success ==>
      && Represents(b, order, transb, ldb, fmtB, k, n, blk, B)
      && FitsC(m, n, CStrides(order, ldc).0, CStrides(order, ldc).1, c.Length)
    modifies c
    ensures err == var e := GemmStatus(order, transa, transb, m, n, k, lda, fmtA, ldb, fmtB, ldc);
              if e != Success then e else preparation
    ensures err != Success ==> c[..] == old(c[..])
    ensures err == Success ==>
      Blas(c[..], old(c[..]), order, transa, m, n, k, alpha, a, lda,
           SeenB(order, transa, transb, n, b, ldb, fmtB, ldc, postOps, B), beta, ldc)
    ensures err == Success ==> k > 0 && n > 0 && ldc > 0 && (Plain(fmtB) || (fmtB in {'r', 'R'} && order in {'r', 'R'}))
    ensures err == Success ==>
      Updated(c[..], old(c[..]), order, m, n, ldc, alpha, beta,
              ProductsOf(Operand(order, transa, a, lda),
                         if Plain(fmtB) || FlipMisreads(order, transa, transb, n, k, ldb, fmtB, ldc, postOps) then
                           Operand(order, transb, b, ldb)
                         else Buffered(b, k, n, blk), k))
  {
    hide Addr, Means, Gemmed, Represents, Updated, SeenB, GemmCheck, RefusesReordered, Blas;
    err := GemmCheck(order, transa, transb, m, n, k, lda, fmtA, ldb, fmtB, ldc);
    if err != Success { return; }
    if RefusesReordered(order, fmtA, fmtB) { return NotSupported; }
    if preparation != Success { return preparation; }
    var call := Rewrite(order, transa, transb, m, n, k, a, lda, fmtA, b, ldb, fmtB, ldc,
                        avx512NonZen3, hasMetadata, postOps, blk, B);
    ghost var seen := SeenB(order, transa, transb, n, b, ldb, fmtB, ldc, postOps, B);
    MeansShape(call, order, transa, m, n, k, a, lda, seen, ldc, blk);
    CallStrides(call.m, call.n, call.rsC, call.csC, order, transa, transb, m, n, k, lda, fmtA, ldb, fmtB, ldc,
                c.Length);
    Kernel(call, alpha, beta, c, blk);
    MeansBlas(call, c[..], old(c[..]), order, transa, m, n, k, alpha, a, lda, seen, beta, ldc, blk);
    SeenResultIs(c[..], old(c[..]), order, transa, transb, m, n, k, alpha, a, lda, fmtA, b, ldb, fmtB, beta, ldc,
                 postOps, blk, B);
  }

  /** The result of the single path in the caller's terms. */
  lemma SeenResultIs(now: seq<real>, was: seq<real>, order: char, transa: char, transb: char, m: int, n: int, k: int,
                     alpha: real, a: Mem, lda: int, fmtA: char, b: Mem, ldb: int, fmtB: char, beta: real, ldc: int,
                     postOps: bool, blk: Blocking, B: (int, int) -> real)
    requires blk.Legal() && GemmStatus(order, transa, transb, m, n, k, lda, fmtA, ldb, fmtB, ldc) == Success
    requires Represents(b, order, transb, ldb, fmtB, k, n, blk, B)
    requires Blas(now, was, order, transa, m, n, k, alpha, a, lda,
                  SeenB(order, transa, transb, n, b, ldb, fmtB, ldc, postOps, B), beta, ldc)
    ensures k > 0 && n > 0 && ldc > 0 && (Plain(fmtB) || (fmtB in {'r', 'R'} && order in {'r', 'R'}))
    ensures Updated(now, was, order, m, n, ldc, alpha, beta,
                    ProductsOf(Operand(order, transa, a, lda),
                               if Plain(fmtB) || FlipMisreads(order, transa, transb, n, k, ldb, fmtB, ldc, postOps) then
                                 Operand(order, transb, b, ldb)
                               else Buffered(b, k, n, blk), k))
  {
    hide Blas, Represents, Updated, GemmCheck, Place, Op;
    GemmCheckIff(order, transa, transb, m, n, k, lda, fmtA, ldb, fmtB, ldc);
    RefusedIff(order, transa, transb, m, n, k, lda, fmtA, ldb, fmtB, ldc);
    var seen := SeenB(order, transa, transb, n, b, ldb, fmtB, ldc, postOps, B);
    var meant := if Plain(fmtB) ||
      FlipMisreads(order, transa, transb, n, k, ldb, fmtB, ldc, postOps) then Operand(order, transb, b, ldb)
                 else Buffered(b, k, n, blk);
    forall p, j | 0 <= p < k && 0 <= j < n ensures seen(p, j) == meant(p, j) {
      RepresentedIs(b, order, transb, ldb, fmtB, k, n, blk, B, p, j);
      OperandIs(order, transb, b, ldb, p, j);
      if FlipsReordered(order, transa, n, fmtB, ldc, postOps) &&
         !FlipMisreads(order, transa, transb, n, k, ldb, fmtB, ldc, postOps)
      {
        UnitVector(order, transb, b, k, ldb, p);
      }
    }
    BlasIs(now, was, order, transa, m, n, k, alpha, a, lda, seen, meant, beta, ldc);
  }

  lemma UnitVector(order: char, transb: char, b: Mem, k: int, ldb: int, p: int)
    requires RowMajor(order) && 0 <= p < k && transb in {'n', 'N', 't', 'T'}
    requires transb in {'t', 'T'} || ldb == 1 || k == 1
    ensures Operand(order, transb, b, ldb)(p, 0) == b(p)
  {
    assert Operand(order, transb, b, ldb)(p, 0) == b(Place(order, transb, ldb, p, 0));
    assert Place(order, transb, ldb, p, 0) == p;
  }

  lemma {:induction false} SumSingle(f: int -> real, k: int, q: int)
    requires 0 <= q && forall p :: 0 <= p < k && p != q ==> f(p) == 0.0
    ensures Sum(f, k) == if q < k then f(q) else 0.0
  {
    if k > 0 { SumSingle(f, k - 1, q); }
  }

  /** The flip with a reordered B gives the BLAS dot products for every content of A and B exactly when the
      vector had unit stride before it was reordered, or holds a single element. */
  lemma FlipIsRightIff(order: char, transa: char, transb: char, k: int, lda: int, ldb: int)
    requires IsRow(order) && IsTrans(transa) && k >= 1 && lda >= 1 && ldb >= 1
    ensures (forall a: Mem, b: Mem, i: int ::
               BlasDot(order, transa, a, lda, StridedB(order, transb, b, ldb), k, i, 0)
               == BlasDot(order, transa, a, lda, VectorB(b), k, i, 0))
            <==> IsTrans(transb) || ldb == 1 || k == 1
  {
    hide BlasDot;
    if IsTrans(transb) || ldb == 1 || k == 1 {
      forall a: Mem, b: Mem, i: int
        ensures BlasDot(order, transa, a, lda, StridedB(order, transb, b, ldb), k, i, 0)
                == BlasDot(order, transa, a, lda, VectorB(b), k, i, 0)
      {
        FlipReadsVector(order, transa, transb, k, a, lda, b, ldb, i);
      }
    } else {
      var a, b := FlipWitness(order, transa, transb, k, lda, ldb);
    }
  }

  lemma FlipReadsVector(order: char, transa: char, transb: char, k: int, a: Mem, lda: int, b: Mem, ldb: int, i: int)
    requires IsRow(order) && (IsTrans(transb) || ldb == 1 || k == 1)
    ensures BlasDot(order, transa, a, lda, StridedB(order, transb, b, ldb), k, i, 0)
            == BlasDot(order, transa, a, lda, VectorB(b), k, i, 0)
  {
    var strided, vector := StridedB(order, transb, b, ldb), VectorB(b);
    forall p | 0 <= p < k ensures strided(p, 0) == vector(p, 0) {
      assert Addr(p, 0, 1, ldb) == p;
      assert ldb == 1 || p == 0 ==> Addr(p, 0, ldb, 1) == p;
    }
    SumExt(p => Op(order, transa, a, lda, i, p) * strided(p, 0),
           p => Op(order, transa, a, lda, i, p) * vector(p, 0), k);
  }

  lemma FlipWitness(order: char, transa: char, transb: char, k: int, lda: int, ldb: int) returns (a: Mem, b: Mem)
    requires IsRow(order) && IsTrans(transa) && !IsTrans(transb) && k >= 2 && lda >= 1 && ldb >= 2
    ensures BlasDot(order, transa, a, lda, StridedB(order, transb, b, ldb), k, 0, 0)
            != BlasDot(order, transa, a, lda, VectorB(b), k, 0, 0)
  {
    hide BlasDot;
    a := x => if x == lda then 1.0 else 0.0;
    b := x => if x == 1 then 1.0 else 0.0;
    OneElement(order, transa, a, lda, StridedB(order, transb, b, ldb), k);
    OneElement(order, transa, a, lda, VectorB(b), k);
    assert Addr(1, 0, ldb, 1) == ldb;
  }

  /** With A zero but for its element (0, 1), row 0 of the product is row 1 of B. */
  lemma OneElement(order: char, transa: char, a: Mem, lda: int, B: (int, int) -> real, k: int)
    requires IsRow(order) && IsTrans(transa) && k >= 2 && lda >= 1
    requires forall x {:trigger a(x)} :: a(x) == if x == lda then 1.0 else 0.0
    ensures BlasDot(order, transa, a, lda, B, k, 0, 0) == B(1, 0)
  {
    var f := p => Op(order, transa, a, lda, 0, p) * B(p, 0);
    forall p | 0 <= p < k && p != 1 ensures f(p) == 0.0 {
      assert Addr(0, p, 1, lda) == p * lda && p * lda != lda by {
        if p > 1 { MulLe(2, p, lda); }
      }
      assert Op(order, transa, a, lda, 0, p) == 0.0;
      assert 0.0 * B(p, 0) == 0.0;
    }
    SumSingle(f, k, 1);
  }

  /** One matrix of a group in `aocl_batch_gemm_f32f32f32of32`: the swap for column-major order, and no more. */
  method BatchRewrite(order: char, transa: char, transb: char, m: int, n: int, k: int, a: Mem, lda: int, fmtA: char,
                      b: Mem, ldb: int, fmtB: char, ldc: int, blk: Blocking, ghost B: (int, int) -> real)
    returns (call: Call)
    requires blk.Legal()
    requires GemmStatus(order, transa, transb, m, n, k, lda, fmtA, ldb, fmtB, ldc) == Success
    requires Represents(b, order, transb, ldb, fmtB, k, n, blk, B)
    ensures Means(call, order, transa, m, n, k, a, lda, B, ldc, blk)
    ensures call.csA != 1 ==> call.tagA == Pack
    ensures call.csB != 1 ==> call.tagB != Unpacked
  {
    hide Addr;
    forall x, y, rs, cs ensures Addr(x, y, rs, cs) == Addr(y, x, cs, rs) { AddrSwap(x, y, rs, cs); }
    var rsA, csA, rsB, csB, mtagA, mtagB, mLocal, nLocal, aLocal, bLocal;
    if IsCol(order) {
      rsA, csA := ldb, 1;
      if IsTrans(transb) { rsA, csA := 1, ldb; }
      rsB, csB := lda, 1;
      if IsTrans(transa) { rsB, csB := 1, lda; }
      mtagB, mtagA := TagOf(fmtA), TagOf(fmtB);
      if IsTrans(transb) { mtagA := Pack; }
      if IsTrans(transa) { mtagB := Pack; }
      mLocal, nLocal, aLocal, bLocal := n, m, b, a;
    } else {
      rsA, csA := lda, 1;
      if IsTrans(transa) { rsA, csA := 1, lda; }
      rsB, csB := ldb, 1;
      if IsTrans(transb) { rsB, csB := 1, ldb; }
      mtagA, mtagB := TagOf(fmtA), TagOf(fmtB);
      if IsTrans(transa) { mtagA := Pack; }
      if IsTrans(transb) && mtagB == Unpacked { mtagB := Pack; }
      mLocal, nLocal, aLocal, bLocal := m, n, a, b;
    }
    call := Call(mLocal, nLocal, k, aLocal, rsA, csA, mtagA, bLocal, rsB, csB, mtagB, ldc, 1);
  }

  /** An accepted matrix of a batch: rewritten and handed to the kernel. */
  method BatchCompute(order: char, transa: char, transb: char, m: int, n: int, k: int, alpha: real, a: Mem, lda: int,
                      fmtA: char, b: Mem, ldb: int, fmtB: char, beta: real, c: array<real>, ldc: int, blk: Blocking,
                      ghost B: (int, int) -> real)
    requires blk.Legal() && GemmStatus(order, transa, transb, m, n, k, lda, fmtA, ldb, fmtB, ldc) == Success
    requires Represents(b, order, transb, ldb, fmtB, k, n, blk, B)
    requires FitsC(m, n, CStrides(order, ldc).0, CStrides(order, ldc).1, c.Length)
    modifies c
    ensures Blas(c[..], old(c[..]), order, transa, m, n, k, alpha, a, lda, B, beta, ldc)
    ensures k > 0 && n > 0 && ldc > 0 && (Plain(fmtB) || (fmtB in {'r', 'R'} && order in {'r', 'R'}))
    ensures
      Updated(c[..], old(c[..]), order, m, n, ldc, alpha, beta,
              ProductsOf(Operand(order, transa, a, lda),
                         if Plain(fmtB) then Operand(order, transb, b, ldb) else Buffered(b, k, n, blk), k))
  {
    hide Addr, Means, Gemmed, Represents, Updated, RefusesReordered, Blas, GemmCheck;
    var call := BatchRewrite(order, transa, transb, m, n, k, a, lda, fmtA, b, ldb, fmtB, ldc, blk, B);
    MeansShape(call, order, transa, m, n, k, a, lda, B, ldc, blk);
    CallStrides(call.m, call.n, call.rsC, call.csC, order, transa, transb, m, n, k, lda, fmtA, ldb, fmtB, ldc,
                c.Length);
    Kernel(call, alpha, beta, c, blk);
    MeansBlas(call, c[..], old(c[..]), order, transa, m, n, k, alpha, a, lda, B, beta, ldc, blk);
    ResultIs(c[..], old(c[..]), order, transa, transb, m, n, k, alpha, a, lda, fmtA, b, ldb, fmtB, beta, ldc, blk, B);
  }

  function BatchGemmStatus(order: char, transa: char, transb: char, m: int, n: int, k: int, lda: int, fmtA: char,
                           ldb: int, fmtB: char, ldc: int, postOpsVerdict: Err, preparation: Err): Err
  {
    var e := GemmCheck(order, transa, transb, m, n, k, lda, fmtA, ldb, fmtB, ldc);
    if e != Success then e
    else if postOpsVerdict != Success then postOpsVerdict
    else if RefusesReordered(order, fmtA, fmtB) then NotSupported
    else preparation
  }

  /** Status of one matrix of a batch, on its arguments. */
  lemma BatchGemmStatusIff(order: char, transa: char, transb: char, m: int, n: int, k: int, lda: int, fmtA: char,
                           ldb: int, fmtB: char, ldc: int, postOpsVerdict: Err, preparation: Err)
    ensures var e := GemmCheck(order, transa, transb, m, n, k, lda, fmtA, ldb, fmtB, ldc);
      var s := BatchGemmStatus(order, transa, transb, m, n, k, lda, fmtA, ldb, fmtB, ldc, postOpsVerdict, preparation);
      && (s == Success <==>
            && GoodCall(order, transa, transb, m, n, k, lda, fmtA, ldb, fmtB, ldc)
            && postOpsVerdict == Success && preparation == Success)
      && s == if e != Success then e
              else if postOpsVerdict != Success then postOpsVerdict
              else if fmtA in {'r', 'R'} || (order in {'c', 'C'} && fmtB in {'r', 'R'}) then NotSupported
              else preparation
    ensures BatchGemmStatus(order, transa, transb, m, n, k, lda, fmtA, ldb, fmtB, ldc, postOpsVerdict,
                            preparation) == Success ==>
              GemmStatus(order, transa, transb, m, n, k, lda, fmtA, ldb, fmtB, ldc) == Success
  {
    hide GemmCheck;
    GemmCheckIff(order, transa, transb, m, n, k, lda, fmtA, ldb, fmtB, ldc);
    RefusedIff(order, transa, transb, m, n, k, lda, fmtA, ldb, fmtB, ldc);
  }

  /** The checks of the batch path, in the order it makes them. */
  method BatchVerdict(order: char, transa: char, transb: char, m: int, n: int, k: int, lda: int, fmtA: char, ldb: int,
                      fmtB: char, ldc: int, postOpsVerdict: Err, preparation: Err) returns (err: Err)
    ensures err == BatchGemmStatus(order, transa, transb, m, n, k, lda, fmtA, ldb, fmtB, ldc, postOpsVerdict,
                                   preparation)
  {
    hide GemmCheck, RefusesReordered;
    err := GemmCheck(order, transa, transb, m, n, k, lda, fmtA, ldb, fmtB, ldc);
    if err != Success { return; }
    if postOpsVerdict != Success { return postOpsVerdict; }
    if RefusesReordered(order, fmtA, fmtB) { return NotSupported; }
    err := preparation;
  }

  /** The batch path on one matrix: the BLAS result, for every accepted layout and tag. The verdict on
      post-operations comes before the refusals, the rest of the preparation after them. */
  method BatchGemm(order: char, transa: char, transb: char, m: int, n: int, k: int, alpha: real, a: Mem, lda: int,
                   fmtA: char, b: Mem, ldb: int, fmtB: char, beta: real, c: array<real>, ldc: int, blk: Blocking,
                   postOpsVerdict: Err, preparation: Err, ghost B: (int, int) -> real) returns (err: Err)
    requires blk.Legal()
    requires GemmStatus(order, transa, transb, m, n, k, lda, fmtA, ldb, fmtB, ldc) == Success ==>
      && Represents(b, order, transb, ldb, fmtB, k, n, blk, B)
      && FitsC(m, n, CStrides(order, ldc).0, CStrides(order, ldc).1, c.Length)
    modifies c
    ensures err == BatchGemmStatus(order, transa, transb, m, n, k, lda, fmtA, ldb, fmtB, ldc, postOpsVerdict,
                                   preparation)
    ensures err != Success ==> c[..] == old(c[..])
    ensures err == Success ==> Blas(c[..], old(c[..]), order, transa, m, n, k, alpha, a, lda, B, beta, ldc)
    ensures err == Success ==> k > 0 && n > 0 && ldc > 0 && (Plain(fmtB) || (fmtB in {'r', 'R'} && order in {'r', 'R'}))
    ensures err == Success ==>
      Updated(c[..], old(c[..]), order, m, n, ldc, alpha, beta,
              ProductsOf(Operand(order, transa, a, lda),
                         if Plain(fmtB) then Operand(order, transb, b, ldb) else Buffered(b, k, n, blk), k))
  {
    hide Blas, Represents, Updated, GemmStatus, BatchGemmStatus, FitsC, CStrides, Plain, ProductsOf, Operand, Buffered,
         Blocking.Legal, GoodCall;
    BatchGemmStatusIff(order, transa, transb, m, n, k, lda, fmtA, ldb, fmtB, ldc, postOpsVerdict, preparation);
    err := BatchVerdict(order, transa, transb, m, n, k, lda, fmtA, ldb, fmtB, ldc, postOpsVerdict, preparation);
    if err != Success { return; }
    BatchCompute(order, transa, transb, m, n, k, alpha, a, lda, fmtA, b, ldb, fmtB, beta, c, ldc, blk, B);
  }

  /** The misreading shows in C: for every accepted call that takes the flip and misreads, and any alpha but zero,
      there are operands for which `now`, the one result `Gemm` can leave, is not the BLAS result for the B the
      buffer represents. */
  lemma FlipGivesWrongC(order: char, transa: char, transb: char, m: int, n: int, k: int, alpha: real, lda: int,
                        fmtA: char, ldb: int, fmtB: char, beta: real, ldc: int, postOps: bool, blk: Blocking)
    returns (a: Mem, b: Mem, was: seq<real>, now: seq<real>)
    requires blk.Legal() && GemmStatus(order, transa, transb, m, n, k, lda, fmtA, ldb, fmtB, ldc) == Success
    requires FlipMisreads(order, transa, transb, n, k, ldb, fmtB, ldc, postOps) && alpha != 0.0
    ensures FitsC(m, n, CStrides(order, ldc).0, CStrides(order, ldc).1, |was|)
    ensures Represents(b, order, transb, ldb, fmtB, k, n, blk, VectorB(b))
    ensures Blas(now, was, order, transa, m, n, k, alpha, a, lda,
                 SeenB(order, transa, transb, n, b, ldb, fmtB, ldc, postOps, VectorB(b)), beta, ldc)
    ensures !Blas(now, was, order, transa, m, n, k, alpha, a, lda, VectorB(b), beta, ldc)
  {
    hide BlasDot, GemmCheck, RefusesReordered, Gemmed;
    MisreadDims(order, transa, transb, m, n, k, lda, fmtA, ldb, fmtB, ldc);
    a, b := FlipWitness(order, transa, transb, k, lda, ldb);
    was := seq(m, i => 0.0);
    var seen, meant := BlasDots(order, transa, a, lda, StridedB(order, transb, b, ldb), k),
                       BlasDots(order, transa, a, lda, VectorB(b), k);
    now := ColumnResult(m, alpha, beta, seen);
    if Gemmed(now, was, m, 1, 1, 1, alpha, beta, meant) {
      FirstCell(now, was, m, alpha, beta, seen);
      FirstCell(now, was, m, alpha, beta, meant);
    }
  }

  lemma MisreadDims(order: char, transa: char, transb: char, m: int, n: int, k: int, lda: int, fmtA: char, ldb: int,
                    fmtB: char, ldc: int)
    requires GemmStatus(order, transa, transb, m, n, k, lda, fmtA, ldb, fmtB, ldc) == Success
    requires IsRow(order) && IsTrans(transa) && !IsTrans(transb) && n == 1
    ensures m > 0 && k > 0 && lda >= 1 && ldb >= 1
  {
  }

  /** C stored as one contiguous column, from zero. */
  lemma ColumnResult(m: int, alpha: real, beta: real, dot: (int, int) -> real) returns (now: seq<real>)
    requires m > 0
    ensures Gemmed(now, seq(m, i => 0.0), m, 1, 1, 1, alpha, beta, dot)
    ensures FitsC(m, 1, 1, 1, m)
  {
    hide Addr;
    UnitAddr();
    now := seq(m, i => alpha * dot(i, 0) + beta * 0.0);
    forall x | 0 <= x < m ensures InTile(x, m, 1, 1, 1) { assert x == Addr(x, 0, 1, 1); }
  }

  lemma UnitAddr()
    ensures forall i, j :: Addr(i, j, 1, 1) == i + j
  {
  }

  lemma FirstCell(now: seq<real>, was: seq<real>, m: int, alpha: real, beta: real, dot: (int, int) -> real)
    requires m > 0 && Gemmed(now, was, m, 1, 1, 1, alpha, beta, dot)
    ensures |now| == |was| > 0 && now[0] == alpha * dot(0, 0) + beta * was[0]
  {
    hide Addr;
    UnitAddr();
    assert Addr(0, 0, 1, 1) == 0;
  }

  /** The two entry points leave the same C, whatever the layout and tags: x from the single path, y from the
      batch path. */
  lemma SingleAndBatchAgree(x: seq<real>, y: seq<real>, was: seq<real>, order: char, transa: char, transb: char,
                            m: int, n: int, k: int, alpha: real, a: Mem, lda: int, fmtA: char, b: Mem, ldb: int,
                            fmtB: char, beta: real, ldc: int, postOps: bool, blk: Blocking, B: (int, int) -> real)
    requires blk.Legal() && GemmStatus(order, transa, transb, m, n, k, lda, fmtA, ldb, fmtB, ldc) == Success
    requires Represents(b, order, transb, ldb, fmtB, k, n, blk, B)
    requires !FlipMisreads(order, transa, transb, n, k, ldb, fmtB, ldc, postOps)
    requires Blas(x, was, order, transa, m, n, k, alpha, a, lda,
                  SeenB(order, transa, transb, n, b, ldb, fmtB, ldc, postOps, B), beta, ldc)
    requires Blas(y, was, order, transa, m, n, k, alpha, a, lda, B, beta, ldc)
    ensures x == y
  {
    hide Gemmed, Addr, Op;
    var (rs, cs) := CStrides(order, ldc);
    var dots := BlasDots(order, transa, a, lda, B, k);
    if FlipsReordered(order, transa, n, fmtB, ldc, postOps) {
      var strided, vector := StridedB(order, transb, b, ldb), VectorB(b);
      FlipIsRightIff(order, transa, transb, k, lda, ldb);
      forall i, j | 0 <= i < m && 0 <= j < n ensures BlasDots(order, transa, a, lda, strided, k)(i, j) == dots(i, j) {
        assert BlasDot(order, transa, a, lda, strided, k, i, 0) == BlasDot(order, transa, a, lda, vector, k, i, 0);
        SumExt(p => Op(order, transa, a, lda, i, p) * vector(p, 0), p => Op(order, transa, a, lda, i, p) * B(p, 0), k);
      }
      SameDots(x, was, m, n, rs, cs, alpha, beta, BlasDots(order, transa, a, lda, strided, k), dots);
    }
    GemmedUnique(x, y, was, m, n, rs, cs, alpha, beta, dots);
  }
}
