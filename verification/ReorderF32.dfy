/** The f32 reorder entry points: checks, size query, the single-column path and the panel path. */
module ReorderF32 {
  import opened Arith
  import opened CallerTerms
  import opened Errors
  import opened PanelLayout
  import opened BlockedLayout
  import opened PanelPack
  import opened Traces
  import opened ReorderWalk
  import opened UnreorderWalk
  import opened Reorder
  import opened ColumnCopy

  /** AOCL_DLP_REORDER_CHECK and AOCL_DLP_UNREORDER_CHECK, for buffers that are not null. */
  function ReorderCheck(order: char, trans: char, matType: char, k: int, n: int, ldb: int): Err {
    var e := SizeCheck(order, trans, matType, k, n);
    if e != Success then e
    else if BadLd(order, trans, ldb, k, n) then InvalidLeadingDimension
    else Success
  }

  /** AOCL_DLP_REORDER_BUF_SIZE_CHECK. */
  function SizeCheck(order: char, trans: char, matType: char, k: int, n: int): Err {
    if !IsRow(order) && !IsCol(order) then InvalidOrder
    else if !IsNoTrans(trans) && !IsTrans(trans) then InvalidTranspose
    else if matType !in ['A', 'B', 'W', 'a', 'b', 'w'] then InvalidMatrixType
    else if BadDim(k) then InvalidMatrixDimension
    else if BadDim(n) then InvalidMatrixDimension
    else Success
  }

  predicate GoodSizeArgs(order: char, trans: char, matType: char, k: int, n: int) {
    && order in {'r', 'R', 'c', 'C'} && trans in {'n', 'N', 't', 'T'}
    && matType in {'A', 'B', 'W', 'a', 'b', 'w'} && GoodDim(k) && GoodDim(n)
  }

  /** Each argument a size query or a reorder checks, and the error a bad one gives. */
  lemma ReorderCheckIff(order: char, trans: char, matType: char, k: int, n: int, ldb: int)
    ensures var e := SizeCheck(order, trans, matType, k, n);
      && (e == Success <==> GoodSizeArgs(order, trans, matType, k, n))
      && (e == InvalidOrder <==> order !in {'r', 'R', 'c', 'C'})
      && (e == InvalidTranspose <==> order in {'r', 'R', 'c', 'C'} && trans !in {'n', 'N', 't', 'T'})
      && (e == InvalidMatrixType <==> GoodForm(order, trans, trans) && matType !in {'A', 'B', 'W', 'a', 'b', 'w'})
      && e in {Success, InvalidOrder, InvalidTranspose, InvalidMatrixType, InvalidMatrixDimension}
      && ReorderCheck(order, trans, matType, k, n, ldb) ==
         if e != Success then e
         else if GoodLd(order, trans, ldb, k, n) then Success else InvalidLeadingDimension
  {
  }

  predicate IsA(matType: char) { matType == 'a' || matType == 'A' }

  predicate IsAwq(matType: char) { matType == 'w' || matType == 'W' }

  predicate IsB(matType: char) { matType == 'b' || matType == 'B' }

  /** `dlp_reorder_ref_blocks_legal`. */
  predicate BlocksLegal(NR: int, minNR: int, KC: int, kf: int) {
    NR > 0 && KC > 0 && minNR > 0 && kf > 0 && NR % minNR == 0 && KC % kf == 0
  }

  /** `dlp_reorder_plain_strides`: row and column strides of a stored k x n operand. */
  function PlainStrides(order: char, trans: char, ldb: int): (int, int) {
    if IsRow(order) == IsNoTrans(trans) then (ldb, 1) else (1, ldb)
  }

  /** f32 packs NR columns wide throughout, one row at a time. */
  function F32Shape(k: int, n: int, NR: int, NC: int, KC: int): Shape {
    Shape(k, n, Blocking(NR, NR, NC, KC, 1))
  }

  /** What the context resolves: NC a whole number of panels. */
  predicate Resolved(NR: int, NC: int) {
    NC > 0 && (NR > 0 ==> NC % NR == 0)
  }

  /** DLP_MSZ_MAX on a 64-bit build. */
  const MSZ_MAX := 0xFFFF_FFFF_FFFF_FFFF

  /** `dlp_reorder_checked_mul_msz`. */
  function CheckedMul(a: nat, b: nat): (bool, nat) {
    if a != 0 && b > MSZ_MAX / a then (false, 0) else (true, a * b)
  }

  /** The guard rejects exactly the products that would wrap. */
  lemma CheckedMulIff(a: nat, b: nat)
    ensures CheckedMul(a, b).0 <==> a * b <= MSZ_MAX
    ensures CheckedMul(a, b).0 ==> CheckedMul(a, b).1 == a * b
  {
    if a != 0 {
      DivBetween(MSZ_MAX, a, 0, b);
      DivNonneg(MSZ_MAX, a);
      assert b <= MSZ_MAX / a <==> b * a <= MSZ_MAX by {
        if b <= MSZ_MAX / a { MulLe(b, MSZ_MAX / a, a); }
      }
    }
  }

  /** `dlp_reorder_size_bytes`. */
  function SizeBytes(rows: int, cols: int, elemSize: int, extra: nat): (bool, nat) {
    if rows < 0 || cols < 0 || elemSize <= 0 then (false, 0)
    else
      var (ok, prod) := CheckedMul(rows, cols);
      if !ok then (false, 0)
      else
        var (ok', bytes) := CheckedMul(prod, elemSize);
        if !ok' then (false, 0)
        else if extra > MSZ_MAX - bytes then (false, 0)
        else (true, bytes + extra)
  }

  /** A size comes out exactly when none of the factors is out of range and the number fits, and is then the number. */
  lemma SizeBytesIff(rows: int, cols: int, elemSize: int, extra: nat)
    ensures SizeBytes(rows, cols, elemSize, extra).0 <==>
              rows >= 0 && cols >= 0 && elemSize > 0 && rows * cols * elemSize + extra <= MSZ_MAX
    ensures SizeBytes(rows, cols, elemSize, extra).1
            == if SizeBytes(rows, cols, elemSize, extra).0 then rows * cols * elemSize + extra else 0
  {
    if rows >= 0 && cols >= 0 && elemSize > 0 {
      CheckedMulIff(rows, cols);
      CheckedMulIff(rows * cols, elemSize);
      MulLe(1, elemSize, rows * cols);
    }
  }

  /** `aocl_get_reorder_buf_size_f32f32f32of32`: status and bytes. `context` is the verdict on updating the block
      sizes from the caller's metadata and checking them against it. */
  function SizeQuery(order: char, trans: char, matType: char, k: int, n: int, NR: int, KC: int, context: Err)
    : (Err, nat)
  {
    var e := SizeCheck(order, trans, matType, k, n);
    if e != Success then (e, 0)
    else if !IsB(matType) then (NotSupported, 0)
    else if context != Success then (context, 0)
    else if !BlocksLegal(NR, NR, KC, 1) then (InvalidBlockParams, 0)
    else
      var nReorder := if n == 1 then 1 else ((n + NR - 1) / NR) * NR;
      var (ok, bytes) := SizeBytes(k, nReorder, 4, 0);
      if ok then (Success, bytes) else (InvalidMatrixDimension, 0)
  }

  /** The bytes a successful query reports are exactly the elements the reorder lays out, four bytes each. */
  lemma SizeQueryIsLayout(order: char, trans: char, matType: char, k: int, n: int, NR: int, NC: int, KC: int,
                          context: Err)
    requires Resolved(NR, NC) && SizeQuery(order, trans, matType, k, n, NR, KC, context).0 == Success
    ensures n == 1 ==> SizeQuery(order, trans, matType, k, n, NR, KC, context).1 == 4 * k
    ensures n != 1 ==>
              && F32Shape(k, n, NR, NC, KC).Valid()
              && SizeQuery(order, trans, matType, k, n, NR, KC, context).1 == 4 * F32Shape(k, n, NR, NC, KC).Size()
  {
    var s := F32Shape(k, n, NR, NC, KC);
    RoundUpFacts(n, NR);
    DivModUnique(k, 1, k, 0);
    SizeBytesIff(k, if n == 1 then 1 else RoundUp(n, NR), 4, 0);
    assert s.KPad() == k;
  }

  /** The argument checks of the tuned `aocl_reorder_f32f32f32of32`, which turns away only matrix type A. */
  function TunedStatus(order: char, trans: char, matType: char, k: int, n: int, ldb: int, context: Err): Err {
    var e := ReorderCheck(order, trans, matType, k, n, ldb);
    if e != Success then e else if IsA(matType) then NotSupported else context
  }

  /** Of the calls the tuned reorder accepts, the size query turns away as unsupported exactly those of the AWQ
      matrix type. */
  lemma TunedNeedsQueryIff(order: char, trans: char, matType: char, k: int, n: int, ldb: int, NR: int, KC: int,
                           context: Err)
    requires TunedStatus(order, trans, matType, k, n, ldb, context) == Success
    ensures SizeQuery(order, trans, matType, k, n, NR, KC, context).0 == NotSupported <==> IsAwq(matType)
  {
  }

  /** What a completed f32 reorder leaves: a plain copy of a single column, panels otherwise. */
  ghost predicate F32Reordered(now: seq<real>, was: seq<real>, s: Shape, B: Matrix<real>)
    requires s.Valid() && B.Holds(s.k, s.n)
  {
    if s.n == 1 then
      && |now| == |was| && s.k <= |was|
      && (forall p :: 0 <= p < s.k ==> now[p] == B.mem[Addr(p, 0, B.rs, B.cs)])
      && now[s.k..] == was[s.k..]
    else Reordered(now, was, s, B)
  }

  function ReferenceStatus(order: char, trans: char, matType: char, k: int, n: int, ldb: int, NR: int, KC: int,
                           context: Err): Err
  {
    var e := ReorderCheck(order, trans, matType, k, n, ldb);
    if e != Success then e
    else if !IsB(matType) then NotSupported
    else if context != Success then context
    else if !BlocksLegal(NR, NR, KC, 1) then InvalidBlockParams
    else Success
  }

  function InputMatrix(order: char, trans: char, ldb: int, mem: seq<real>): Matrix<real> {
    var (rs, cs) := PlainStrides(order, trans, ldb);
    Matrix(mem, rs, cs, 0.0)
  }

  /** When the reference reorder goes ahead, and how it refuses. */
  lemma ReferenceStatusIff(order: char, trans: char, matType: char, k: int, n: int, ldb: int, NR: int, KC: int,
                           context: Err)
    ensures var e := ReorderCheck(order, trans, matType, k, n, ldb);
      var s := ReferenceStatus(order, trans, matType, k, n, ldb, NR, KC, context);
      && (s == Success <==>
            && GoodSizeArgs(order, trans, matType, k, n) && GoodLd(order, trans, ldb, k, n)
            && matType in {'b', 'B'} && context == Success && NR > 0 && KC > 0)
      && (e != Success ==> s == e)
      && (e == Success && matType in {'a', 'A', 'w', 'W'} ==> s == NotSupported)
      && (e == Success && matType in {'b', 'B'} && context != Success ==> s == context)
      && (e == context == Success && matType in {'b', 'B'} && (NR <= 0 || KC <= 0) ==> s == InvalidBlockParams)
  {
  }

  /** When the un-reorder and the tuned reorder go ahead. */
  lemma OtherStatusesIff(order: char, trans: char, matType: char, k: int, n: int, ldb: int, NR: int, KC: int,
                         context: Err)
    ensures UnreorderStatus(order, trans, matType, k, n, ldb, NR, KC, context) == Success <==>
      && GoodSizeArgs(order, trans, matType, k, n) && GoodLd(order, trans, ldb, k, n) && matType in {'b', 'B'}
      && (n == 1 || (context == Success && NR > 0 && KC > 0))
    ensures TunedStatus(order, trans, matType, k, n, ldb, context) == Success <==>
      && GoodSizeArgs(order, trans, matType, k, n) && GoodLd(order, trans, ldb, k, n)
      && matType in {'b', 'B', 'w', 'W'} && context == Success
    ensures var e := ReorderCheck(order, trans, matType, k, n, ldb);
      var u := UnreorderStatus(order, trans, matType, k, n, ldb, NR, KC, context);
      var t := TunedStatus(order, trans, matType, k, n, ldb, context);
      && (e != Success ==> u == t == e)
      && (e == Success && matType in {'a', 'A'} ==> u == t == NotSupported)
      && (e == Success && matType in {'w', 'W'} ==> u == NotSupported && t == context)
      && (e == Success && matType in {'b', 'B'} ==> t == context)
      && (e == Success && matType in {'b', 'B'} && n != 1 && context != Success ==> u == context)
      && (e == context == Success && matType in {'b', 'B'} && n != 1 && (NR <= 0 || KC <= 0) ==>
            u == InvalidBlockParams)
  {
  }

  /** A size is reported exactly for good arguments of matrix type B with legal blocks whose bytes fit. */
  lemma SizeQueryIff(order: char, trans: char, matType: char, k: int, n: int, NR: int, KC: int, context: Err)
    ensures SizeQuery(order, trans, matType, k, n, NR, KC, context).0 == Success <==>
      && GoodSizeArgs(order, trans, matType, k, n) && matType in {'b', 'B'} && context == Success && NR > 0 && KC > 0
      && k * (if n == 1 then 1 else RoundUp(n, NR)) * 4 <= 18446744073709551615
    ensures var e := SizeCheck(order, trans, matType, k, n);
      var q := SizeQuery(order, trans, matType, k, n, NR, KC, context).0;
      && (e != Success ==> q == e)
      && (e == Success && matType !in {'b', 'B'} ==> q == NotSupported)
      && (e == Success && matType in {'b', 'B'} && context != Success ==> q == context)
      && (e == context == Success && matType in {'b', 'B'} && (NR <= 0 || KC <= 0) ==> q == InvalidBlockParams)
      && q in {Success, e, NotSupported, context, InvalidBlockParams, InvalidMatrixDimension}
    ensures SizeQuery(order, trans, matType, k, n, NR, KC, context).1
            == if SizeQuery(order, trans, matType, k, n, NR, KC, context).0 == Success then
                 k * (if n == 1 then 1 else RoundUp(n, NR)) * 4 else 0
  {
    hide RoundUp, SizeBytes, BadLd, GoodLd;
    if GoodSizeArgs(order, trans, matType, k, n) && NR > 0 {
      RoundUpFacts(n, NR);
      SizeBytesIff(k, if n == 1 then 1 else RoundUp(n, NR), 4, 0);
      QueryWidth(n, NR);
    }
  }

  lemma QueryWidth(n: int, NR: int)
    requires NR > 0
    ensures ((n + NR - 1) / NR) * NR == RoundUp(n, NR)
  {
  }

  /** Panels in the caller's terms: every element of op(B) at its position, the fill value at every other padded one,
      and nothing else touched. */
  ghost predicate Lays<T>(now: seq<T>, was: seq<T>, s: Shape, X: seq<T>, order: char, trans: char, ld: int, fill: T)
    requires s.Valid()
  {
    && |now| == |was| && RoundUp(s.n, s.blk.minNR) * RoundUp(s.k, s.blk.kf) <= |was|
    && (forall p, j {:trigger Pos(s, p, j)} :: 0 <= p < RoundUp(s.k, s.blk.kf) && 0 <= j < RoundUp(s.n, s.blk.minNR) ==>
          && 0 <= Pos(s, p, j) < |now|
          && if p < s.k && j < s.n then
               0 <= Place(order, trans, ld, p, j) < |X| && now[Pos(s, p, j)] == X[Place(order, trans, ld, p, j)]
             else now[Pos(s, p, j)] == fill)
    && forall x :: 0 <= x < |was| && RoundUp(s.n, s.blk.minNR) * RoundUp(s.k, s.blk.kf) <= x ==> now[x] == was[x]
  }

  /** A single column in the caller's terms: its elements in order, and nothing else touched. */
  ghost predicate LaysColumn<T>(now: seq<T>, was: seq<T>, k: int, X: seq<T>, order: char, trans: char, ld: int) {
    && |now| == |was| && 0 <= k <= |was|
    && (forall p {:trigger now[p]} :: 0 <= p < k ==>
          0 <= Place(order, trans, ld, p, 0) < |X| && now[p] == X[Place(order, trans, ld, p, 0)])
    && forall x :: k <= x < |was| ==> now[x] == was[x]
  }

  lemma StridesPlace(order: char, trans: char, ld: int, p: int, j: int)
    requires order in {'r', 'R', 'c', 'C'} && trans in {'n', 'N', 't', 'T'}
    ensures Addr(p, j, PlainStrides(order, trans, ld).0, PlainStrides(order, trans, ld).1)
            == Place(order, trans, ld, p, j)
  {
  }

  /** Reordering the operand with the strides its characters give, in the caller's terms. */
  lemma ReorderedLays<T>(now: seq<T>, was: seq<T>, s: Shape, X: seq<T>, order: char, trans: char, ld: int, fill: T)
    requires order in {'r', 'R', 'c', 'C'} && trans in {'n', 'N', 't', 'T'}
    requires var M := Matrix(X, PlainStrides(order, trans, ld).0, PlainStrides(order, trans, ld).1, fill);
      s.Valid() && M.Holds(s.k, s.n) && Reordered(now, was, s, M)
    ensures Lays(now, was, s, X, order, trans, ld, fill)
  {
    hide Pos, Addr, Place, RoundUp;
    var (rs, cs) := PlainStrides(order, trans, ld);
    forall p, j ensures Addr(p, j, rs, cs) == Place(order, trans, ld, p, j) { StridesPlace(order, trans, ld, p, j); }
    assert s.Size() == RoundUp(s.n, s.blk.minNR) * RoundUp(s.k, s.blk.kf);
  }

  /** Any interleaving of a team's writes, for any consecutive slices that reach n, leaves op(B) in the caller's terms
      with padding of zeros: so for the threads of the tuned reorder as for those of the reference. */
  lemma AnyTeamLays(run: seq<Step<real>>, traces: seq<seq<Write<real>>>, slices: seq<(int, int)>, k: int, n: int,
                    NR: int, NC: int, KC: int, input: seq<real>, order: char, trans: char, ldb: int, was: seq<real>)
    requires order in {'r', 'R', 'c', 'C'} && trans in {'n', 'N', 't', 'T'} && k > 0 && n > 0
    requires Resolved(NR, NC) && NR > 0 && KC > 0 && F32Shape(k, n, NR, NC, KC).Size() <= |was|
    requires var M := Matrix(input, PlainStrides(order, trans, ldb).0, PlainStrides(order, trans, ldb).1, 0.0);
      && F32Shape(k, n, NR, NC, KC).Valid() && M.Holds(k, n)
      && TeamTraces(traces, slices, F32Shape(k, n, NR, NC, KC), M)
    requires Interleaves(run, traces) && End(slices) == n
    ensures InBounds(Writes(run), |was|)
    ensures Shape(k, n, Blocking(NR, NR, NC, KC, 1)).Valid()
    ensures Lays(Apply(was, Writes(run)), was, Shape(k, n, Blocking(NR, NR, NC, KC, 1)), input, order, trans, ldb, 0.0)
  {
    hide TeamTraces, Lays, Reordered, Matrix.Holds;
    var s := F32Shape(k, n, NR, NC, KC);
    var M := Matrix(input, PlainStrides(order, trans, ldb).0, PlainStrides(order, trans, ldb).1, 0.0);
    AnyInterleavingReorders(run, traces, slices, s, M, was);
    ReorderedLays(Apply(was, Writes(run)), was, s, input, order, trans, ldb, 0.0);
  }

  /** `aocl_reorder_f32f32f32of32_reference`. */
  method ReorderReference(order: char, trans: char, matType: char, input: seq<real>, buf: array<real>,
                          k: int, n: int, ldb: int, NR: int, NC: int, KC: int, nThreads: int, context: Err)
    returns (err: Err)
    requires Resolved(NR, NC)
    requires ReferenceStatus(order, trans, matType, k, n, ldb, NR, KC, context) == Success ==>
      && InputMatrix(order, trans, ldb, input).Holds(k, n)
      && (if n == 1 then k else F32Shape(k, n, NR, NC, KC).Size()) <= buf.Length
    modifies buf
    ensures err == ReferenceStatus(order, trans, matType, k, n, ldb, NR, KC, context)
    ensures err != Success ==> buf[..] == old(buf[..])
    ensures err == Success ==>
      && F32Shape(k, n, NR, NC, KC).Valid()
      && F32Reordered(buf[..], old(buf[..]), F32Shape(k, n, NR, NC, KC), InputMatrix(order, trans, ldb, input))
    ensures err == Success && n == 1 ==> LaysColumn(buf[..], old(buf[..]), k, input, order, trans, ldb)
    ensures err == Success && n != 1 ==>
      && Shape(k, n, Blocking(NR, NR, NC, KC, 1)).Valid()
      && Lays(buf[..], old(buf[..]), Shape(k, n, Blocking(NR, NR, NC, KC, 1)), input, order, trans, ldb, 0.0)
  {
    hide Lays, Reordered, Place, GoodLd, BadLd;
    ReorderCheckIff(order, trans, matType, k, n, ldb);
    err := ReorderCheck(order, trans, matType, k, n, ldb);
    if err != Success { return; }
    var (rs, cs) := PlainStrides(order, trans, ldb);
    if !IsB(matType) { return NotSupported; }
    if context != Success { return context; }
    if !BlocksLegal(NR, NR, KC, 1) { return InvalidBlockParams; }
    if n == 1 {
      FirstColumn(k, rs, cs);
      GatherColumn(buf, input, k, rs);
      forall p | 0 <= p < k ensures Addr(p, 0, rs, 0) == Place(order, trans, ldb, p, 0) {
        StridesPlace(order, trans, ldb, p, 0);
      }
      return Success;
    }
    var s := F32Shape(k, n, NR, NC, KC);
    ReorderB(buf, s, InputMatrix(order, trans, ldb, input), nThreads);
    ReorderedLays(buf[..], old(buf[..]), s, input, order, trans, ldb, 0.0);
  }

  /** What a completed un-reorder leaves: a single column scattered, or panels read back. */
  ghost predicate ReadBack<T>(now: seq<T>, was: seq<T>, s: Shape, packed: seq<T>, rs: int, cs: int) {
    if s.n == 1 then
      && |now| == |was| && s.k <= |packed| && Window(s, rs, cs, |was|)
      && (forall p {:trigger Addr(p, 0, rs, cs)} :: 0 <= p < s.k ==> now[Addr(p, 0, rs, cs)] == packed[p])
      && forall x :: 0 <= x < |was| && (forall p, j :: s.Live(p, j) ==> x != Addr(p, j, rs, cs)) ==> now[x] == was[x]
    else s.Valid() && s.Size() <= |packed| && Unreordered(now, was, s, packed, rs, cs)
  }

  /** The caller keeps an element of op(B) at x. */
  ghost predicate OfOperand(x: int, s: Shape, order: char, trans: char, ld: int) {
    exists p, j :: 0 <= p < s.k && 0 <= j < s.n && x == Place(order, trans, ld, p, j)
  }

  /** Element (p, j) of op(B) is back at its address, from where the buffer has it. */
  ghost predicate Back<T>(now: seq<T>, s: Shape, packed: seq<T>, order: char, trans: char, ld: int, p: int, j: int)
    requires s.n == 1 || s.Valid()
  {
    var x, y := if s.n == 1 then p else Pos(s, p, j), Place(order, trans, ld, p, j);
    0 <= x < |packed| && 0 <= y < |now| && now[y] == packed[x]
  }

  /** What is left in the caller's terms: every element back, and no other address touched. */
  ghost predicate Restored<T>(now: seq<T>, was: seq<T>, s: Shape, packed: seq<T>, order: char, trans: char, ld: int)
    requires s.n == 1 || s.Valid()
  {
    && |now| == |was|
    && (forall p, j :: 0 <= p < s.k && 0 <= j < s.n ==> Back(now, s, packed, order, trans, ld, p, j))
    && forall x :: 0 <= x < |was| && !OfOperand(x, s, order, trans, ld) ==> now[x] == was[x]
  }

  lemma ReadElement<T>(now: seq<T>, was: seq<T>, s: Shape, packed: seq<T>, order: char, trans: char, ld: int, p: int,
                       j: int)
    requires order in {'r', 'R', 'c', 'C'} && trans in {'n', 'N', 't', 'T'} && 0 <= p < s.k && 0 <= j < s.n
    requires ReadBack(now, was, s, packed, PlainStrides(order, trans, ld).0, PlainStrides(order, trans, ld).1)
    ensures |now| == |was| && (s.n == 1 || s.Valid()) && Back(now, s, packed, order, trans, ld, p, j)
  {
    hide Pos, Addr, Place, RoundUp, PlainStrides, Strides;
    StridesPlace(order, trans, ld, p, j);
    assert s.Live(p, j);
    if s.n != 1 { LiveHasPos(s, p, j); }
  }

  lemma ReadBackIs<T>(now: seq<T>, was: seq<T>, s: Shape, packed: seq<T>, order: char, trans: char, ld: int)
    requires order in {'r', 'R', 'c', 'C'} && trans in {'n', 'N', 't', 'T'} && s.k > 0 && s.n > 0
    requires ReadBack(now, was, s, packed, PlainStrides(order, trans, ld).0, PlainStrides(order, trans, ld).1)
    ensures (s.n == 1 || s.Valid()) && Restored(now, was, s, packed, order, trans, ld)
  {
    hide Back, PlainStrides, ReadBack, OfOperand;
    ReadElement(now, was, s, packed, order, trans, ld, 0, 0);
    forall p, j | 0 <= p < s.k && 0 <= j < s.n ensures Back(now, s, packed, order, trans, ld, p, j) {
      ReadElement(now, was, s, packed, order, trans, ld, p, j);
    }
    forall x | 0 <= x < |was| && !OfOperand(x, s, order, trans, ld) ensures now[x] == was[x] {
      ReadOutside(now, was, s, packed, order, trans, ld, x);
    }
  }

  lemma ReadOutside<T>(now: seq<T>, was: seq<T>, s: Shape, packed: seq<T>, order: char, trans: char, ld: int, x: int)
    requires order in {'r', 'R', 'c', 'C'} && trans in {'n', 'N', 't', 'T'} && 0 <= x < |was| == |now|
    requires ReadBack(now, was, s, packed, PlainStrides(order, trans, ld).0, PlainStrides(order, trans, ld).1)
    requires !OfOperand(x, s, order, trans, ld)
    ensures now[x] == was[x]
  {
    hide Pos, Addr, Place, RoundUp, PlainStrides, Strides;
    var (rs, cs) := PlainStrides(order, trans, ld);
    forall p, j | s.Live(p, j) ensures x != Addr(p, j, rs, cs) { StridesPlace(order, trans, ld, p, j); }
  }

  /** The context and block checks come only after the single-column path. */
  function UnreorderStatus(order: char, trans: char, matType: char, k: int, n: int, ldb: int, NR: int, KC: int,
                           context: Err): Err
  {
    var e := ReorderCheck(order, trans, matType, k, n, ldb);
    if e != Success then e
    else if !IsB(matType) then NotSupported
    else if n == 1 then Success
    else if context != Success then context
    else if !BlocksLegal(NR, NR, KC, 1) then InvalidBlockParams
    else Success
  }

  lemma FirstColumn(k: int, rs: int, cs: int)
    ensures forall p {:trigger Addr(p, 0, rs, cs)} {:trigger Addr(p, 0, rs, 0)} ::
              0 <= p < k ==> Addr(p, 0, rs, cs) == Addr(p, 0, rs, 0)
  {
  }

  /** The window of a single column is its addresses. */
  lemma ColumnWindow(s: Shape, rs: int, cs: int)
    requires s.n == 1
    ensures forall x :: InColumn(x, s.k, rs) ==> exists p, j :: s.Live(p, j) && x == Addr(p, j, rs, cs)
  {
    forall x | InColumn(x, s.k, rs) ensures exists p, j :: s.Live(p, j) && x == Addr(p, j, rs, cs) {
      var p :| 0 <= p < s.k && x == Addr(p, 0, rs, 0);
      assert s.Live(p, 0) && x == Addr(p, 0, rs, cs);
    }
  }

  /** Checked strides leave the k x n elements distinct. */
  lemma CheckedStrides(order: char, trans: char, matType: char, k: int, n: int, ldb: int)
    requires ReorderCheck(order, trans, matType, k, n, ldb) == Success
    ensures var (rs, cs) := PlainStrides(order, trans, ldb); Strides(rs, cs, k, n) && rs >= 1 && cs >= 1
  {
  }

  /** `aocl_unreorder_f32f32f32of32_reference`. */
  method UnreorderReference(order: char, trans: char, matType: char, packed: seq<real>, out: array<real>,
                            k: int, n: int, ldb: int, NR: int, NC: int, KC: int, nThreads: int, context: Err)
    returns (err: Err)
    requires Resolved(NR, NC)
    requires UnreorderStatus(order, trans, matType, k, n, ldb, NR, KC, context) == Success ==>
      && (forall p, j :: 0 <= p < k && 0 <= j < n ==>
            0 <= Addr(p, j, PlainStrides(order, trans, ldb).0, PlainStrides(order, trans, ldb).1) < out.Length)
      && (if n == 1 then k else F32Shape(k, n, NR, NC, KC).Size()) <= |packed|
    modifies out
    ensures err == UnreorderStatus(order, trans, matType, k, n, ldb, NR, KC, context)
    ensures err != Success ==> out[..] == old(out[..])
    ensures err == Success ==>
              ReadBack(out[..], old(out[..]), F32Shape(k, n, NR, NC, KC), packed,
                             PlainStrides(order, trans, ldb).0, PlainStrides(order, trans, ldb).1)
    ensures err == Success ==>
      && n > 0 && (n == 1 || Shape(k, n, Blocking(NR, NR, NC, KC, 1)).Valid())
      && Restored(out[..], old(out[..]), Shape(k, n, Blocking(NR, NR, NC, KC, 1)), packed, order, trans, ldb)
  {
    hide Restored;
    err := ReorderCheck(order, trans, matType, k, n, ldb);
    if err != Success { return; }
    var (rs, cs) := PlainStrides(order, trans, ldb);
    CheckedStrides(order, trans, matType, k, n, ldb);
    if !IsB(matType) { return NotSupported; }
    var s := F32Shape(k, n, NR, NC, KC);
    if n == 1 {
      FirstColumn(k, rs, cs);
      ScatterColumn(out, packed, k, rs);
      ColumnWindow(s, rs, cs);
      ReadBackIs(out[..], old(out[..]), s, packed, order, trans, ldb);
      return Success;
    }
    if context != Success { return context; }
    if !BlocksLegal(NR, NR, KC, 1) { return InvalidBlockParams; }
    UnreorderB(out, s, packed, rs, cs, nThreads);
    ReadBackIs(out[..], old(out[..]), s, packed, order, trans, ldb);
  }

  /** Reordering B and reading it back restores every element and touches nothing else, for every k, n, order,
      transposition and leading dimension on either side, a single column included. */
  lemma F32RoundTrip(s: Shape, B: Matrix<real>, packed: seq<real>, before: seq<real>,
                     out: seq<real>, outBefore: seq<real>, rs: int, cs: int)
    requires s.Valid() && B.Holds(s.k, s.n) && F32Reordered(packed, before, s, B)
    requires ReadBack(out, outBefore, s, packed, rs, cs)
    ensures Window(s, rs, cs, |out|)
    ensures forall p, j :: s.Live(p, j) ==> out[Addr(p, j, rs, cs)] == B.mem[Addr(p, j, B.rs, B.cs)]
    ensures |out| == |outBefore|
    ensures forall x :: 0 <= x < |out| && (forall p, j :: s.Live(p, j) ==> x != Addr(p, j, rs, cs))
              ==> out[x] == outBefore[x]
  {
    hide Pos, Addr, RoundUp;
    if s.n == 1 {
      forall p, j | s.Live(p, j) ensures out[Addr(p, j, rs, cs)] == B.mem[Addr(p, j, B.rs, B.cs)] {
        assert j == 0;
      }
    } else {
      RoundTrip(s, B, packed, before, out, outBefore, rs, cs);
    }
  }

  /** The f32 loop that consumes a reordered B addresses the same layout: panels of NR columns kc0 rows
      apart, rows NR apart, columns adjacent. */
  lemma FiveLoopReadsLayout(k: int, n: int, NR: int, NC: int, KC: int, jc: int, nc0: int, pc: int, kr: int, c: int)
    requires Resolved(NR, NC) && BlocksLegal(NR, NR, KC, 1) && k > 0 && n > 0
    requires ThreadBlock(F32Shape(k, n, NR, NC, KC), jc, nc0, pc)
    requires 0 <= c < nc0 && 0 <= kr < Min(k - pc, KC)
    ensures var jr := Floor(c, NR); var kc0 := Min(k - pc, KC);
      Pos(F32Shape(k, n, NR, NC, KC), pc + kr, jc + c)
      == Floor(jc, NC) * k + PanelWidth(jc, n, NC, NR) * pc + (jc - Floor(jc, NC)) * kc0
         + jr * kc0 + kr * NR + (c - jr)
  {
    hide Floor, PanelWidth, Pos, ChunkStart, ChunkSlot, RoundUp;
    var s := F32Shape(k, n, NR, NC, KC);
    var kc0 := Min(k - pc, KC);
    RowsOfBlock(s, pc);
    RoundUpOne(k);
    RoundUpOne(kc0);
    RoundUpFacts(nc0, NR);
    MidPanelStart(s, jc, nc0, pc, kr, c);
    F32Chunk(nc0, s.blk, c);
    DivModUnique(kr, 1, kr, 0);
  }

  lemma RoundUpOne(v: int)
    ensures RoundUp(v, 1) == v
  {
    DivModUnique(v, 1, v, 0);
  }

  lemma F32Chunk(n: int, blk: Blocking, c: int)
    requires blk.Legal() && blk.minNR == blk.NR && 0 <= c < n
    ensures ChunkStart(n, blk, c) == Floor(c, blk.NR) && ChunkSlot(n, blk, c) == blk.NR
  {
    FloorFacts(c, blk.NR);
    if Floor(c, blk.NR) + blk.NR > n {
      DivModUnique(n - Floor(c, blk.NR), blk.NR, 0, n - Floor(c, blk.NR));
    }
  }
}
