/** What a GEMM means: BLAS on the caller's operands, and the row-major strided kernel it is dispatched to. */
module StridedGemm {
  import opened Arith
  import opened CallerTerms
  import opened Errors
  import opened PanelLayout
  import opened BlockedLayout
  import opened PanelPack

  /** Memory behind an input pointer. */
  type Mem = int -> real

  datatype Tag = Unpacked | Pack | Reordered

  /** `dlp_param_map_char_to_lpmtag`. */
  function TagOf(c: char): Tag {
    if c == 'p' || c == 'P' then Pack
    else if c == 'r' || c == 'R' then Reordered
    else Unpacked
  }

  predicate BadTag(c: char) { c !in ['n', 'N', 'p', 'P', 'r', 'R'] }

  function Sum(f: int -> real, k: int): real {
    if k <= 0 then 0.0 else Sum(f, k - 1) + f(k - 1)
  }

  lemma {:induction false} SumExt(f: int -> real, g: int -> real, k: int)
    requires forall p :: 0 <= p < k ==> f(p) == g(p)
    ensures Sum(f, k) == Sum(g, k)
  {
    if k > 0 { SumExt(f, g, k - 1); }
  }

  /** AOCL_DLP_GEMM_CHECK, for pointers that are not null. */
  function GemmCheck(order: char, transa: char, transb: char, m: int, n: int, k: int,
                     lda: int, fmtA: char, ldb: int, fmtB: char, ldc: int): Err
  {
    if !IsRow(order) && !IsCol(order) then InvalidOrder
    else if !IsNoTrans(transa) && !IsTrans(transa) then InvalidTranspose
    else if !IsNoTrans(transb) && !IsTrans(transb) then InvalidTranspose
    else if BadDim(m) || BadDim(n) || BadDim(k) then InvalidMatrixDimension
    else if BadLd(order, transa, lda, m, k) then InvalidLeadingDimension
    else if BadTag(fmtA) then InvalidMemoryTag
    else if BadLd(order, transb, ldb, k, n) then InvalidLeadingDimension
    else if BadTag(fmtB) then InvalidMemoryTag
    else if (IsRow(order) && ldc < n) || (IsCol(order) && ldc < m) || ldc > MAX_DIM then InvalidLeadingDimension
    else Success
  }

  /** A reordered A is refused, and so is any reordered operand of a column-major call. */
  predicate RefusesReordered(order: char, fmtA: char, fmtB: char) {
    || (IsRow(order) && TagOf(fmtA) == Reordered)
    || (IsCol(order) && (TagOf(fmtB) == Reordered || TagOf(fmtA) == Reordered))
  }

  function GemmStatus(order: char, transa: char, transb: char, m: int, n: int, k: int,
                      lda: int, fmtA: char, ldb: int, fmtB: char, ldc: int): Err
  {
    var e := GemmCheck(order, transa, transb, m, n, k, lda, fmtA, ldb, fmtB, ldc);
    if e != Success then e
    else if RefusesReordered(order, fmtA, fmtB) then NotSupported
    else Success
  }

  /** Each argument a multiplication checks, and the error a bad one gives. */
  lemma GemmCheckIff(order: char, transa: char, transb: char, m: int, n: int, k: int, lda: int, fmtA: char, ldb: int,
                     fmtB: char, ldc: int)
    ensures var e := GemmCheck(order, transa, transb, m, n, k, lda, fmtA, ldb, fmtB, ldc);
      var dims := GoodForm(order, transa, transb) && GoodDim(m) && GoodDim(n) && GoodDim(k);
      var lda', ldb' := GoodLd(order, transa, lda, m, k), GoodLd(order, transb, ldb, k, n);
      && (e == Success <==>
            dims && lda' && ldb' && GoodLd(order, 'n', ldc, m, n) && GoodTag(fmtA) && GoodTag(fmtB))
      && (e == InvalidOrder <==> order !in {'r', 'R', 'c', 'C'})
      && (e == InvalidTranspose <==> order in {'r', 'R', 'c', 'C'} && !GoodForm(order, transa, transb))
      && (e == InvalidMatrixDimension <==> GoodForm(order, transa, transb) && !dims)
      && (e == InvalidMemoryTag <==> dims && lda' && (!GoodTag(fmtA) || (ldb' && !GoodTag(fmtB))))
      && e in {Success, InvalidOrder, InvalidTranspose, InvalidMatrixDimension, InvalidMemoryTag,
               InvalidLeadingDimension}
  {
  }

  /** Of the calls whose arguments are good, exactly those are refused whose A is said to be reordered, or whose B is
      in column-major order. */
  lemma RefusedIff(order: char, transa: char, transb: char, m: int, n: int, k: int, lda: int, fmtA: char, ldb: int,
                   fmtB: char, ldc: int)
    ensures var e := GemmCheck(order, transa, transb, m, n, k, lda, fmtA, ldb, fmtB, ldc);
      var s := GemmStatus(order, transa, transb, m, n, k, lda, fmtA, ldb, fmtB, ldc);
      if e != Success then s == e
      else s == if fmtA in {'r', 'R'} || (order in {'c', 'C'} && fmtB in {'r', 'R'}) then NotSupported else Success
    ensures GemmStatus(order, transa, transb, m, n, k, lda, fmtA, ldb, fmtB, ldc) == Success <==>
              GoodCall(order, transa, transb, m, n, k, lda, fmtA, ldb, fmtB, ldc)
  {
  }

  /** Element (i, p) of op(X) for an operand X the caller stores with leading dimension ld. */
  function Op<T>(order: char, trans: char, x: int -> T, ld: int, i: int, p: int): T {
    if IsRow(order) == !IsTrans(trans) then x(Addr(i, p, ld, 1)) else x(Addr(i, p, 1, ld))
  }

  /** Where the caller keeps C: row and column stride. */
  function CStrides(order: char, ldc: int): (int, int) {
    if IsRow(order) then (ldc, 1) else (1, ldc)
  }

  /** The logical k x n matrix a B pointer stands for: a strided operand or, when the caller says it is
      reordered, the contents of a reordered buffer. */
  ghost predicate Represents(b: Mem, order: char, transb: char, ldb: int, fmtB: char, k: int, n: int,
                             blk: Blocking, B: (int, int) -> real)
    requires blk.Legal() && k > 0 && n > 0
  {
    forall p, j {:trigger B(p, j)} :: 0 <= p < k && 0 <= j < n ==>
      B(p, j) == if TagOf(fmtB) == Reordered then ReadReordered(b, k, n, blk, p, j)
                 else Op(order, transb, b, ldb, p, j)
  }

  /** How a reordered buffer is read: a plain vector when n is 1, panels otherwise. */
  function ReadReordered<T>(b: int -> T, k: int, n: int, blk: Blocking, p: int, j: int): T
    requires blk.Legal() && k > 0 && n > 0
  {
    if n == 1 then b(p) else b(Pos(Shape(k, n, blk), p, j))
  }

  /** C after alpha * dot + beta * C, and nothing else touched. */
  ghost predicate Gemmed(now: seq<real>, was: seq<real>, m: int, n: int, rs: int, cs: int,
                         alpha: real, beta: real, dot: (int, int) -> real)
  {
    && |now| == |was|
    && (forall i, j {:trigger Addr(i, j, rs, cs)} :: 0 <= i < m && 0 <= j < n ==>
          0 <= Addr(i, j, rs, cs) < |was|
          && now[Addr(i, j, rs, cs)] == alpha * dot(i, j) + beta * was[Addr(i, j, rs, cs)])
    && forall x :: 0 <= x < |was| && !InTile(x, m, n, rs, cs) ==> now[x] == was[x]
  }

  ghost predicate InTile(x: int, m: int, n: int, rs: int, cs: int) {
    exists i, j :: 0 <= i < m && 0 <= j < n && x == Addr(i, j, rs, cs)
  }

  /** op(A) * op(B) at (i, j), with B given as the logical matrix it represents. */
  function BlasDot(order: char, transa: char, a: Mem, lda: int, B: (int, int) -> real, k: int, i: int, j: int): real {
    Sum(p => Op(order, transa, a, lda, i, p) * B(p, j), k)
  }

  function BlasDots(order: char, transa: char, a: Mem, lda: int, B: (int, int) -> real, k: int): (int, int) -> real {
    (i, j) => BlasDot(order, transa, a, lda, B, k, i, j)
  }

  /** The BLAS result in the caller's layout. */
  ghost predicate Blas(now: seq<real>, was: seq<real>, order: char, transa: char, m: int, n: int, k: int,
                       alpha: real, a: Mem, lda: int, B: (int, int) -> real, beta: real, ldc: int)
  {
    Gemmed(now, was, m, n, CStrides(order, ldc).0, CStrides(order, ldc).1, alpha, beta,
           BlasDots(order, transa, a, lda, B, k))
  }

  /** One result only: two paths that both meet the BLAS result leave the same C. */
  lemma GemmedUnique(x: seq<real>, y: seq<real>, was: seq<real>, m: int, n: int, rs: int, cs: int,
                     alpha: real, beta: real, dot: (int, int) -> real)
    requires Gemmed(x, was, m, n, rs, cs, alpha, beta, dot) && Gemmed(y, was, m, n, rs, cs, alpha, beta, dot)
    ensures x == y
  {
    forall a | 0 <= a < |was| ensures x[a] == y[a] {
      if InTile(a, m, n, rs, cs) {
        var i, j :| 0 <= i < m && 0 <= j < n && a == Addr(i, j, rs, cs);
      }
    }
  }

  /** What reaches the row-major kernel. */
  datatype Call = Call(m: int, n: int, k: int, a: Mem, rsA: int, csA: int, tagA: Tag,
                       b: Mem, rsB: int, csB: int, tagB: Tag, rsC: int, csC: int)
  {
    function A(i: int, p: int): real { a(Addr(i, p, rsA, csA)) }

    /** B by its tag: reordered buffers are read by layout whatever strides come with them. */
    function B(blk: Blocking, p: int, j: int): real
      requires blk.Legal() && k > 0 && n > 0
    {
      if tagB == Reordered then ReadReordered(b, k, n, blk, p, j) else b(Addr(p, j, rsB, csB))
    }

    function Dot(blk: Blocking, i: int, j: int): real
      requires blk.Legal() && k > 0 && n > 0
    {
      Sum(p => A(i, p) * B(blk, p, j), k)
    }
  }

  function Dots(call: Call, blk: Blocking): (int, int) -> real
    requires blk.Legal() && call.k > 0 && call.n > 0
  {
    (i, j) => call.Dot(blk, i, j)
  }

  predicate FitsC(m: int, n: int, rs: int, cs: int, len: int) {
    forall i, j :: 0 <= i < m && 0 <= j < n ==> 0 <= Addr(i, j, rs, cs) < len
  }

  /** The strided row-major kernel. */
  method Kernel(call: Call, alpha: real, beta: real, c: array<real>, blk: Blocking)
    requires blk.Legal() && call.m > 0 && call.n > 0 && call.k > 0
    requires Strides(call.rsC, call.csC, call.m, call.n) && FitsC(call.m, call.n, call.rsC, call.csC, c.Length)
    modifies c
    ensures Gemmed(c[..], old(c[..]), call.m, call.n, call.rsC, call.csC, alpha, beta, Dots(call, blk))
  {
    UpdateTile(Tile(call.m, call.n, call.rsC, call.csC, alpha, beta, Dots(call, blk)), c);
  }

  /** An m x n strided tile of C and the dot products it is to receive. */
  datatype Tile = Tile(m: int, n: int, rs: int, cs: int, alpha: real, beta: real, dot: (int, int) -> real)

  /** Scales C and adds the products, cell by cell. */
  method UpdateTile(t: Tile, c: array<real>)
    requires Strides(t.rs, t.cs, t.m, t.n) && FitsC(t.m, t.n, t.rs, t.cs, c.Length)
    modifies c
    ensures Gemmed(c[..], old(c[..]), t.m, t.n, t.rs, t.cs, t.alpha, t.beta, t.dot)
  {
    hide Addr, Written, Gemmed;
    WriteStart(c[..], t);
    var i := 0;
    while i < t.m
      invariant 0 <= i && (i <= t.m || i == 0)
      invariant Written(c[..], old(c[..]), t, i, 0)
    {
      var j := 0;
      while j < t.n
        invariant 0 <= j && (j <= t.n || j == 0)
        invariant Written(c[..], old(c[..]), t, i, j)
      {
        ghost var before := c[..];
        TileAddr(before, old(c[..]), t, i, j);
        var x := Addr(i, j, t.rs, t.cs);
        var v := t.alpha * t.dot(i, j) + t.beta * c[x];
        WriteOne(before, old(c[..]), t, i, j, v);
        c[x] := v;
        assert c[..] == before[x := v];
        j := j + 1;
      }
      NextRow(c[..], old(c[..]), t, i, j);
      i := i + 1;
    }
    WriteEnd(c[..], old(c[..]), t, i);
  }

  /** Rows before i are done, and row i up to column j. */
  ghost predicate Written(now: seq<real>, was: seq<real>, t: Tile, i: int, j: int) {
    && |now| == |was| && FitsC(t.m, t.n, t.rs, t.cs, |was|)
    && (forall r, s {:trigger Addr(r, s, t.rs, t.cs)} :: 0 <= r < t.m && 0 <= s < t.n ==>
          now[Addr(r, s, t.rs, t.cs)]
          == if r < i || (r == i && s < j) then t.alpha * t.dot(r, s) + t.beta * was[Addr(r, s, t.rs, t.cs)]
             else was[Addr(r, s, t.rs, t.cs)])
    && forall x :: 0 <= x < |was| && !InTile(x, t.m, t.n, t.rs, t.cs) ==> now[x] == was[x]
  }

  lemma WriteStart(was: seq<real>, t: Tile)
    requires FitsC(t.m, t.n, t.rs, t.cs, |was|)
    ensures Written(was, was, t, 0, 0)
  {
    hide Addr;
  }

  lemma NextRow(now: seq<real>, was: seq<real>, t: Tile, i: int, j: int)
    requires Written(now, was, t, i, j) && t.n <= j
    ensures Written(now, was, t, i + 1, 0)
  {
    hide Addr;
  }

  lemma WriteEnd(now: seq<real>, was: seq<real>, t: Tile, i: int)
    requires Written(now, was, t, i, 0) && t.m <= i
    ensures Gemmed(now, was, t.m, t.n, t.rs, t.cs, t.alpha, t.beta, t.dot)
  {
    hide Addr;
  }

  lemma TileAddr(before: seq<real>, was: seq<real>, t: Tile, i: int, j: int)
    requires Written(before, was, t, i, j) && 0 <= i < t.m && 0 <= j < t.n
    ensures 0 <= Addr(i, j, t.rs, t.cs) < |before|
  {
    hide Addr;
  }

  lemma WriteOne(before: seq<real>, was: seq<real>, t: Tile, i: int, j: int, v: real)
    requires Strides(t.rs, t.cs, t.m, t.n) && 0 <= i < t.m && 0 <= j < t.n
    requires Written(before, was, t, i, j) && 0 <= Addr(i, j, t.rs, t.cs) < |before|
    requires v == t.alpha * t.dot(i, j) + t.beta * before[Addr(i, j, t.rs, t.cs)]
    ensures Written(before[Addr(i, j, t.rs, t.cs) := v], was, t, i, j + 1)
  {
    hide Addr;
    forall r, s | 0 <= r < t.m && 0 <= s < t.n && Addr(r, s, t.rs, t.cs) == Addr(i, j, t.rs, t.cs)
      ensures r == i && s == j
    {
      AddrInjective(t.rs, t.cs, t.m, t.n, r, s, i, j);
    }
  }

  /** The call computes op(A) * op(B) into C's own cells, either as it stands or with all three matrices
      transposed and the operands exchanged. */
  ghost predicate Means(call: Call, order: char, transa: char, m: int, n: int, k: int, a: Mem, lda: int,
                        B: (int, int) -> real, ldc: int, blk: Blocking)
    requires blk.Legal()
  {
    && call.k == k && k > 0 && call.m > 0 && call.n > 0
    && (AsStored(call, order, transa, m, n, a, lda, B, ldc, blk)
        || InducedTranspose(call, order, transa, m, n, a, lda, B, ldc, blk))
  }

  ghost predicate AsStored(call: Call, order: char, transa: char, m: int, n: int, a: Mem, lda: int,
                           B: (int, int) -> real, ldc: int, blk: Blocking)
    requires blk.Legal() && call.k > 0 && call.n > 0
  {
    && call.m == m && call.n == n && (call.rsC, call.csC) == CStrides(order, ldc)
    && (forall i, p {:trigger call.A(i, p)} :: call.A(i, p) == Op(order, transa, a, lda, i, p))
    && forall p, j {:trigger call.B(blk, p, j)} :: 0 <= p < call.k && 0 <= j < n ==> call.B(blk, p, j) == B(p, j)
  }

  ghost predicate InducedTranspose(call: Call, order: char, transa: char, m: int, n: int, a: Mem, lda: int,
                             B: (int, int) -> real, ldc: int, blk: Blocking)
    requires blk.Legal() && call.k > 0 && call.n > 0
  {
    && call.m == n && call.n == m && (call.csC, call.rsC) == CStrides(order, ldc)
    && (forall j, p {:trigger call.A(j, p)} :: 0 <= p < call.k && 0 <= j < n ==> call.A(j, p) == B(p, j))
    && forall p, i {:trigger call.B(blk, p, i)} :: call.B(blk, p, i) == Op(order, transa, a, lda, i, p)
  }

  lemma AddrSwap(p: int, j: int, rs: int, cs: int)
    ensures Addr(p, j, rs, cs) == Addr(j, p, cs, rs)
  {
  }

  lemma SameDots(now: seq<real>, was: seq<real>, m: int, n: int, rs: int, cs: int, alpha: real, beta: real,
                 d: (int, int) -> real, e: (int, int) -> real)
    requires Gemmed(now, was, m, n, rs, cs, alpha, beta, d)
    requires forall i, j :: 0 <= i < m && 0 <= j < n ==> d(i, j) == e(i, j)
    ensures Gemmed(now, was, m, n, rs, cs, alpha, beta, e)
  {
    hide Addr;
  }

  /** Walking C by columns instead of rows, with the dot products transposed, is the same update. */
  lemma TransposedDots(now: seq<real>, was: seq<real>, m: int, n: int, rs: int, cs: int, alpha: real, beta: real,
                       d: (int, int) -> real, e: (int, int) -> real)
    requires Gemmed(now, was, m, n, rs, cs, alpha, beta, d)
    requires forall i, j :: 0 <= i < m && 0 <= j < n ==> d(i, j) == e(j, i)
    ensures Gemmed(now, was, n, m, cs, rs, alpha, beta, e)
  {
    hide Addr;
    forall j, i | 0 <= j < n && 0 <= i < m
      ensures 0 <= Addr(j, i, cs, rs) < |was|
      ensures now[Addr(j, i, cs, rs)] == alpha * e(j, i) + beta * was[Addr(j, i, cs, rs)]
    {
      AddrSwap(i, j, rs, cs);
      assert d(i, j) == e(j, i);
    }
    forall x | InTile(x, m, n, rs, cs) ensures InTile(x, n, m, cs, rs) {
      var i, j :| 0 <= i < m && 0 <= j < n && x == Addr(i, j, rs, cs);
      AddrSwap(i, j, rs, cs);
    }
  }

  /** Refinement: a call that means the BLAS problem leaves exactly the BLAS result in C. */
  lemma MeansBlas(call: Call, now: seq<real>, was: seq<real>, order: char, transa: char, m: int, n: int, k: int,
                  alpha: real, a: Mem, lda: int, B: (int, int) -> real, beta: real, ldc: int, blk: Blocking)
    requires blk.Legal() && Means(call, order, transa, m, n, k, a, lda, B, ldc, blk)
    requires Gemmed(now, was, call.m, call.n, call.rsC, call.csC, alpha, beta, Dots(call, blk))
    ensures Blas(now, was, order, transa, m, n, k, alpha, a, lda, B, beta, ldc)
  {
    hide Addr, Op, Gemmed, AsStored, InducedTranspose, BlasDot, Call.Dot;
    var blas := BlasDots(order, transa, a, lda, B, k);
    if AsStored(call, order, transa, m, n, a, lda, B, ldc, blk) {
      forall i, j | 0 <= i < m && 0 <= j < n ensures Dots(call, blk)(i, j) == blas(i, j) {
        StraightDot(call, order, transa, m, n, a, lda, B, ldc, blk, i, j);
      }
      StraightShape(call, order, transa, m, n, a, lda, B, ldc, blk);
      SameDots(now, was, call.m, call.n, call.rsC, call.csC, alpha, beta, Dots(call, blk), blas);
    } else {
      forall j, i | 0 <= j < n && 0 <= i < m ensures Dots(call, blk)(j, i) == blas(i, j) {
        TransposedDot(call, order, transa, m, n, a, lda, B, ldc, blk, i, j);
      }
      TransposedShape(call, order, transa, m, n, a, lda, B, ldc, blk);
      TransposedDots(now, was, call.m, call.n, call.rsC, call.csC, alpha, beta, Dots(call, blk), blas);
    }
  }

  lemma StraightShape(call: Call, order: char, transa: char, m: int, n: int, a: Mem, lda: int,
                      B: (int, int) -> real, ldc: int, blk: Blocking)
    requires blk.Legal() && call.k > 0 && call.n > 0 && AsStored(call, order, transa, m, n, a, lda, B, ldc, blk)
    ensures call.m == m && call.n == n && (call.rsC, call.csC) == CStrides(order, ldc)
  {
  }

  lemma TransposedShape(call: Call, order: char, transa: char, m: int, n: int, a: Mem, lda: int,
                        B: (int, int) -> real, ldc: int, blk: Blocking)
    requires blk.Legal() && call.k > 0 && call.n > 0 && InducedTranspose(call, order, transa, m, n, a, lda, B, ldc, blk)
    ensures call.m == n && call.n == m && (call.csC, call.rsC) == CStrides(order, ldc)
  {
  }

  lemma StraightDot(call: Call, order: char, transa: char, m: int, n: int, a: Mem, lda: int,
                    B: (int, int) -> real, ldc: int, blk: Blocking, i: int, j: int)
    requires blk.Legal() && call.k > 0 && call.n > 0 && 0 <= i < m && 0 <= j < n
    requires AsStored(call, order, transa, m, n, a, lda, B, ldc, blk)
    ensures Dots(call, blk)(i, j) == BlasDots(order, transa, a, lda, B, call.k)(i, j)
  {
    hide Addr, Op, Call.A, Call.B;
    SumExt(p => call.A(i, p) * call.B(blk, p, j), p => Op(order, transa, a, lda, i, p) * B(p, j), call.k);
  }

  /** The products commute term by term, so the transposed call sums the same dot product. */
  lemma TransposedDot(call: Call, order: char, transa: char, m: int, n: int, a: Mem, lda: int,
                      B: (int, int) -> real, ldc: int, blk: Blocking, i: int, j: int)
    requires blk.Legal() && call.k > 0 && call.n > 0 && 0 <= i < m && 0 <= j < n
    requires InducedTranspose(call, order, transa, m, n, a, lda, B, ldc, blk)
    ensures Dots(call, blk)(j, i) == BlasDots(order, transa, a, lda, B, call.k)(i, j)
  {
    hide Addr, Op, Call.A, Call.B;
    SumExt(p => call.A(j, p) * call.B(blk, p, i), p => Op(order, transa, a, lda, i, p) * B(p, j), call.k);
  }

  /** The leading-dimension check keeps C's cells distinct, whichever way a call walks them. */
  lemma CallStrides(cm: int, cn: int, rsC: int, csC: int, order: char, transa: char, transb: char, m: int, n: int,
                    k: int, lda: int, fmtA: char, ldb: int, fmtB: char, ldc: int, len: int)
    requires GemmCheck(order, transa, transb, m, n, k, lda, fmtA, ldb, fmtB, ldc) == Success
    requires FitsC(m, n, CStrides(order, ldc).0, CStrides(order, ldc).1, len)
    requires
      || (cm == m && cn == n && (rsC, csC) == CStrides(order, ldc))
      || (cm == n && cn == m && (csC, rsC) == CStrides(order, ldc))
    ensures Strides(rsC, csC, cm, cn)
    ensures FitsC(cm, cn, rsC, csC, len)
  {
    forall i, j | 0 <= i < cm && 0 <= j < cn ensures 0 <= Addr(i, j, rsC, csC) < len {
      AddrSwap(i, j, rsC, csC);
    }
  }

  lemma MeansShape(call: Call, order: char, transa: char, m: int, n: int, k: int, a: Mem, lda: int,
                   B: (int, int) -> real, ldc: int, blk: Blocking)
    requires blk.Legal() && Means(call, order, transa, m, n, k, a, lda, B, ldc, blk)
    ensures call.m > 0 && call.n > 0 && call.k > 0
    ensures
      || (call.m == m && call.n == n && (call.rsC, call.csC) == CStrides(order, ldc))
      || (call.m == n && call.n == m && (call.csC, call.rsC) == CStrides(order, ldc))
  {
    hide Addr;
  }

  /** What the update by strides leaves at an address. */
  lemma GemmedAt(now: seq<real>, was: seq<real>, order: char, m: int, n: int, ldc: int, alpha: real, beta: real,
                 dot: (int, int) -> real, x: int)
    requires ldc > 0 && (if RowMajor(order) then n else m) <= ldc && 0 <= x < |was|
    requires Gemmed(now, was, m, n, CStrides(order, ldc).0, CStrides(order, ldc).1, alpha, beta, dot)
    ensures |now| == |was|
    ensures var (i, j) := IndexOf(order, ldc, x);
      now[x] == if i < m && j < n then alpha * dot(i, j) + beta * was[x] else was[x]
  {
    hide Addr, IndexOf, CStrides;
    var (rs, cs) := CStrides(order, ldc);
    var (i, j) := IndexOf(order, ldc, x);
    CellAddr(order, ldc, x);
    if i < m && j < n {
      assert now[Addr(i, j, rs, cs)] == alpha * dot(i, j) + beta * was[Addr(i, j, rs, cs)];
    } else if InTile(x, m, n, rs, cs) {
      var i', j' :| 0 <= i' < m && 0 <= j' < n && x == Addr(i', j', rs, cs);
      CellUnique(order, ldc, m, n, i', j');
    }
  }

  /** What it leaves, address by address. */
  lemma GemmedIs(now: seq<real>, was: seq<real>, order: char, m: int, n: int, ldc: int, alpha: real, beta: real,
                 dot: (int, int) -> real)
    requires ldc > 0 && (if RowMajor(order) then n else m) <= ldc
    requires Gemmed(now, was, m, n, CStrides(order, ldc).0, CStrides(order, ldc).1, alpha, beta, dot)
    ensures Updated(now, was, order, m, n, ldc, alpha, beta, dot)
  {
    hide Gemmed, IndexOf, CStrides;
    forall x | 0 <= x < |was|
      ensures |now| == |was|
      ensures var (i, j) := IndexOf(order, ldc, x);
        now[x] == if i < m && j < n then alpha * dot(i, j) + beta * was[x] else was[x]
    {
      GemmedAt(now, was, order, m, n, ldc, alpha, beta, dot, x);
    }
    SameLength(now, was, m, n, CStrides(order, ldc).0, CStrides(order, ldc).1, alpha, beta, dot);
  }

  lemma SameLength(now: seq<real>, was: seq<real>, m: int, n: int, rs: int, cs: int, alpha: real, beta: real,
                   dot: (int, int) -> real)
    requires Gemmed(now, was, m, n, rs, cs, alpha, beta, dot)
    ensures |now| == |was|
  {
  }

  lemma CellAddr(order: char, ldc: int, x: int)
    requires ldc > 0 && x >= 0
    ensures var (i, j) := IndexOf(order, ldc, x);
      i >= 0 && j >= 0 && Addr(i, j, CStrides(order, ldc).0, CStrides(order, ldc).1) == x
  {
    DivNonneg(x, ldc);
    assert x / ldc * ldc + x % ldc == x;
  }

  lemma CellUnique(order: char, ldc: int, m: int, n: int, i: int, j: int)
    requires ldc > 0 && (if RowMajor(order) then n else m) <= ldc && 0 <= i < m && 0 <= j < n
    ensures IndexOf(order, ldc, Addr(i, j, CStrides(order, ldc).0, CStrides(order, ldc).1)) == (i, j)
  {
    if RowMajor(order) { DivModUnique(i * ldc + j, ldc, i, j); } else { DivModUnique(j * ldc + i, ldc, j, i); }
  }

  /** The products of two operands. */
  function ProductsOf(A: (int, int) -> real, B: (int, int) -> real, k: int): (int, int) -> real {
    (i, j) => Sum(p => A(i, p) * B(p, j), k)
  }

  /** B as the library reads a reordered buffer. */
  function Buffered<T>(b: int -> T, k: int, n: int, blk: Blocking): (int, int) -> T
    requires blk.Legal() && k > 0 && n > 0
  {
    (p, j) => if n == 1 then b(p) else b(Pos(Shape(k, n, blk), p, j))
  }

  lemma PlaceIs(order: char, trans: char, ld: int, r: int, c: int)
    requires order in {'r', 'R', 'c', 'C'} && trans in {'n', 'N', 't', 'T'}
    ensures Place(order, trans, ld, r, c)
            == if IsRow(order) == !IsTrans(trans) then Addr(r, c, ld, 1) else Addr(r, c, 1, ld)
  {
  }

  lemma OperandIs<T>(order: char, trans: char, x: int -> T, ld: int, r: int, c: int)
    requires order in {'r', 'R', 'c', 'C'} && trans in {'n', 'N', 't', 'T'}
    ensures Op(order, trans, x, ld, r, c) == Operand(order, trans, x, ld)(r, c)
  {
    PlaceIs(order, trans, ld, r, c);
    assert Operand(order, trans, x, ld)(r, c) == x(Place(order, trans, ld, r, c));
  }

  /** The BLAS result in the caller's terms, for any B that agrees with the one it is stated for. */
  lemma BlasIs(now: seq<real>, was: seq<real>, order: char, transa: char, m: int, n: int, k: int, alpha: real, a: Mem,
               lda: int, B: (int, int) -> real, B': (int, int) -> real, beta: real, ldc: int)
    requires order in {'r', 'R', 'c', 'C'} && transa in {'n', 'N', 't', 'T'}
    requires ldc > 0 && (if RowMajor(order) then n else m) <= ldc
    requires Blas(now, was, order, transa, m, n, k, alpha, a, lda, B, beta, ldc)
    requires forall p, j :: 0 <= p < k && 0 <= j < n ==> B(p, j) == B'(p, j)
    ensures Updated(now, was, order, m, n, ldc, alpha, beta, ProductsOf(Operand(order, transa, a, lda), B', k))
  {
    hide Addr, Op, Place, Gemmed, Updated;
    var dots, meant := BlasDots(order, transa, a, lda, B, k), ProductsOf(Operand(order, transa, a, lda), B', k);
    forall i, j | 0 <= i < m && 0 <= j < n ensures dots(i, j) == meant(i, j) {
      forall p | 0 <= p < k
        ensures Op(order, transa, a, lda, i, p) * B(p, j) == Operand(order, transa, a, lda)(i, p) * B'(p, j)
      {
        OperandIs(order, transa, a, lda, i, p);
      }
      SumExt(p => Op(order, transa, a, lda, i, p) * B(p, j), p => Operand(order, transa, a, lda)(i, p) * B'(p, j), k);
    }
    SameDots(now, was, m, n, CStrides(order, ldc).0, CStrides(order, ldc).1, alpha, beta, dots, meant);
    GemmedIs(now, was, order, m, n, ldc, alpha, beta, meant);
  }

  /** What a B pointer stands for, by its characters alone. */
  lemma RepresentedIs(b: Mem, order: char, transb: char, ldb: int, fmtB: char, k: int, n: int, blk: Blocking,
                      B: (int, int) -> real, p: int, j: int)
    requires blk.Legal() && 0 <= p < k && 0 <= j < n && Represents(b, order, transb, ldb, fmtB, k, n, blk, B)
    requires order in {'r', 'R', 'c', 'C'} && transb in {'n', 'N', 't', 'T'} && GoodTag(fmtB)
    ensures B(p, j) == if Plain(fmtB) then Operand(order, transb, b, ldb)(p, j) else Buffered(b, k, n, blk)(p, j)
  {
    hide Op;
    OperandIs(order, transb, b, ldb, p, j);
  }

  /** The result of a call that multiplies with the B its pointer stands for, in the caller's terms: a strided operand
      under the tags n and p, a reordered buffer under r. */
  lemma ResultIs(now: seq<real>, was: seq<real>, order: char, transa: char, transb: char, m: int, n: int, k: int,
                 alpha: real, a: Mem, lda: int, fmtA: char, b: Mem, ldb: int, fmtB: char, beta: real, ldc: int,
                 blk: Blocking, B: (int, int) -> real)
    requires blk.Legal() && GemmStatus(order, transa, transb, m, n, k, lda, fmtA, ldb, fmtB, ldc) == Success
    requires Represents(b, order, transb, ldb, fmtB, k, n, blk, B)
    requires Blas(now, was, order, transa, m, n, k, alpha, a, lda, B, beta, ldc)
    ensures k > 0 && n > 0 && ldc > 0
    ensures Updated(now, was, order, m, n, ldc, alpha, beta,
                    ProductsOf(Operand(order, transa, a, lda),
                               if Plain(fmtB) then Operand(order, transb, b, ldb) else Buffered(b, k, n, blk), k))
    ensures Plain(fmtB) || (fmtB in {'r', 'R'} && order in {'r', 'R'})
  {
    hide Blas, Represents, Updated, GemmCheck, Place;
    GemmCheckIff(order, transa, transb, m, n, k, lda, fmtA, ldb, fmtB, ldc);
    RefusedIff(order, transa, transb, m, n, k, lda, fmtA, ldb, fmtB, ldc);
    var meant := if Plain(fmtB) then Operand(order, transb, b, ldb) else Buffered(b, k, n, blk);
    forall p, j | 0 <= p < k && 0 <= j < n ensures B(p, j) == meant(p, j) {
      RepresentedIs(b, order, transb, ldb, fmtB, k, n, blk, B, p, j);
    }
    BlasIs(now, was, order, transa, m, n, k, alpha, a, lda, B, meant, beta, ldc);
  }
}
