/** Tag rules and operand rewriting of the bf16 entry point. */
module GemmBf16 {
  import opened CallerTerms
  import opened Errors
  import opened PanelLayout
  import opened PanelPack
  import opened StridedGemm
  import opened GemmF32

  /** `aocl_gemm_bf16bf16f32of32` from the tag rules to the kernel call: kernel B is never dispatched unpacked,
      and kernel A has unit column stride or is packed. */
  method RewriteBf16(order: char, transa: char, transb: char, m: int, n: int, k: int, a: Mem, lda: int, fmtA: char,
                     b: Mem, ldb: int, fmtB: char, ldc: int, postOps: bool, blk: Blocking,
                     ghost B: (int, int) -> real) returns (call: Call)
    requires blk.Legal()
    requires GemmStatus(order, transa, transb, m, n, k, lda, fmtA, ldb, fmtB, ldc) == Success
    requires Represents(b, order, transb, ldb, fmtB, k, n, blk, B)
    ensures Means(call, order, transa, m, n, k, a, lda, B, ldc, blk)
    ensures call.tagB != Unpacked
    ensures call.csA == 1 || call.tagA == Pack
  {
    hide Addr, Means;
    var isRowMajor, isColumnMajor := IsRow(order), IsCol(order);
    var (rsA, csA) := BaseStrides(transa, lda);
    var (rsB, csB) := BaseStrides(transb, ldb);
    var rsC, csC := ldc, 1;
    var mtagA, mtagB := TagOf(fmtA), TagOf(fmtB);

    if isRowMajor && mtagB == Unpacked {
      mtagB := Pack;
    } else if isColumnMajor && mtagA == Unpacked {
      mtagA := Pack;
    }
    if isRowMajor && IsTrans(transa) {
      mtagA := Pack;
    } else if isColumnMajor && IsTrans(transb) {
      mtagB := Pack;
    }

    var mUse, nUse, aUse, bUse := m, n, a, b;
    var rsAUse, csAUse, rsBUse, csBUse, rsCUse, csCUse := rsA, csA, rsB, csB, rsC, csC;
    var mtagAUse, mtagBUse, transaUse, transbUse := mtagA, mtagB, transa, transb;
    if isColumnMajor {
      mUse, nUse := n, m;
      rsAUse, csAUse, rsBUse, csBUse := rsB, csB, rsA, csA;
      mtagAUse, mtagBUse, transaUse, transbUse := mtagB, mtagA, transb, transa;
      aUse, bUse := b, a;
    }
    ghost var base := Call(mUse, nUse, k, aUse, rsAUse, csAUse, mtagAUse, bUse, rsBUse, csBUse, mtagBUse, rsCUse,
                           csCUse);
    BaseMeans(base, order, transa, transb, m, n, k, a, lda, fmtA, b, ldb, fmtB, ldc, blk, B);

    if mUse == 1 && k >= 256 && IsTrans(transbUse) && mtagBUse != Reordered && !postOps {
      FlipMeans(base, Unpacked, Pack, order, transa, m, n, k, a, lda, B, ldc, blk);
      var mTmp, nTmp, aTmp, bTmp := mUse, nUse, aUse, bUse;
      var rsATmp, csATmp, rsBTmp, csBTmp, rsCTmp, csCTmp := rsAUse, csAUse, rsBUse, csBUse, rsCUse, csCUse;
      mUse, nUse := nTmp, mTmp;
      aUse, rsAUse, csAUse := bTmp, csBTmp, rsBTmp;
      bUse, rsBUse, csBUse := aTmp, csATmp, rsATmp;
      rsCUse, csCUse := csCTmp, rsCTmp;
      mtagAUse := Unpacked;
      mtagBUse := Pack;
    }
    call := Call(mUse, nUse, k, aUse, rsAUse, csAUse, mtagAUse, bUse, rsBUse, csBUse, mtagBUse, rsCUse, csCUse);
  }

  /** `aocl_gemm_bf16bf16f32of32`, in exact arithmetic: the BLAS result for every layout and tag it accepts. */
  method Bf16Gemm(order: char, transa: char, transb: char, m: int, n: int, k: int, alpha: real, a: Mem, lda: int,
                  fmtA: char, b: Mem, ldb: int, fmtB: char, beta: real, c: array<real>, ldc: int, postOps: bool,
                  blk: Blocking, preparation: Err, ghost B: (int, int) -> real) returns (err: Err)
    requires blk.Legal()
    requires GemmStatus(order, transa, transb, m, n, k, lda, fmtA, ldb, fmtB, ldc) == Success ==>
      && Represents(b, order, transb, ldb, fmtB, k, n, blk, B)
      && FitsC(m, n, CStrides(order, ldc).0, CStrides(order, ldc).1, c.Length)
    modifies c
    ensures err == var e := GemmStatus(order, transa, transb, m, n, k, lda, fmtA, ldb, fmtB, ldc);
              if e != Success then e else preparation
    ensures err != Success ==> c[..] == old(c[..])
    ensures err == Success ==> Blas(c[..], old(c[..]), order, transa, m, n, k, alpha, a, lda, B, beta, ldc)
    ensures err == Success ==> k > 0 && n > 0 && ldc > 0 && (Plain(fmtB) || (fmtB in {'r', 'R'} && order in {'r', 'R'}))
    ensures err == Success ==>
      Updated(c[..], old(c[..]), order, m, n, ldc, alpha, beta,
              ProductsOf(Operand(order, transa, a, lda),
                         if Plain(fmtB) then Operand(order, transb, b, ldb) else Buffered(b, k, n, blk), k))
  {
    hide Addr, Means, Gemmed, Represents, Updated, GemmCheck, RefusesReordered, Blas;
    err := GemmCheck(order, transa, transb, m, n, k, lda, fmtA, ldb, fmtB, ldc);
    if err != Success { return; }
    if RefusesReordered(order, fmtA, fmtB) { return NotSupported; }
    if preparation != Success { return preparation; }
    var call := RewriteBf16(order, transa, transb, m, n, k, a, lda, fmtA, b, ldb, fmtB, ldc, postOps, blk, B);
    MeansShape(call, order, transa, m, n, k, a, lda, B, ldc, blk);
    CallStrides(call.m, call.n, call.rsC, call.csC, order, transa, transb, m, n, k, lda, fmtA, ldb, fmtB, ldc,
                c.Length);
    Kernel(call, alpha, beta, c, blk);
    MeansBlas(call, c[..], old(c[..]), order, transa, m, n, k, alpha, a, lda, B, beta, ldc, blk);
    ResultIs(c[..], old(c[..]), order, transa, transb, m, n, k, alpha, a, lda, fmtA, b, ldb, fmtB, beta, ldc, blk, B);
  }
}
