/** The terms a caller uses: characters, dimensions and addresses, as the interface documents them. Nothing here refers
    to how the library decodes them. */
module CallerTerms {
  predicate RowMajor(order: char) { order in {'r', 'R'} }

  predicate GoodForm(order: char, transa: char, transb: char) {
    order in {'r', 'R', 'c', 'C'} && transa in {'n', 'N', 't', 'T'} && transb in {'n', 'N', 't', 'T'}
  }

  predicate GoodDim(d: int) { 1 <= d <= 2147483647 }

  /** Long enough for the stored rows, or columns, of an r x c operand. */
  predicate GoodLd(order: char, trans: char, ld: int, r: int, c: int) {
    (if RowMajor(order) == (trans in {'n', 'N'}) then c else r) <= ld <= 2147483647
  }

  predicate GoodTag(c: char) { c in {'n', 'N', 'p', 'P', 'r', 'R'} }

  predicate Plain(fmt: char) { fmt in {'n', 'N', 'p', 'P'} }

  /** A multiplication none of whose arguments is at fault: A not said to be reordered, B only in row-major order. */
  predicate GoodCall(order: char, transa: char, transb: char, m: int, n: int, k: int, lda: int, fmtA: char, ldb: int,
                     fmtB: char, ldc: int)
  {
    && GoodForm(order, transa, transb) && GoodDim(m) && GoodDim(n) && GoodDim(k)
    && GoodLd(order, transa, lda, m, k) && GoodLd(order, transb, ldb, k, n) && GoodLd(order, 'n', ldc, m, n)
    && Plain(fmtA) && (Plain(fmtB) || (fmtB in {'r', 'R'} && order in {'r', 'R'}))
  }

  /** Where the caller keeps element (r, c) of op(X). */
  function Place(order: char, trans: char, ld: int, r: int, c: int): int {
    if RowMajor(order) == (trans in {'n', 'N'}) then r * ld + c else c * ld + r
  }

  function Operand<T>(order: char, trans: char, x: int -> T, ld: int): (int, int) -> T {
    (r, c) => x(Place(order, trans, ld, r, c))
  }

  /** Row and column of the element of C at address x. */
  function IndexOf(order: char, ldc: int, x: int): (int, int)
    requires ldc > 0
  {
    if RowMajor(order) then (x / ldc, x % ldc) else (x % ldc, x / ldc)
  }

  /** C after alpha * dot + beta * C, address by address. */
  ghost predicate Updated(now: seq<real>, was: seq<real>, order: char, m: int, n: int, ldc: int, alpha: real,
                          beta: real, dot: (int, int) -> real)
    requires ldc > 0
  {
    && |now| == |was|
    && forall x {:trigger now[x]} :: 0 <= x < |was| ==>
         var (i, j) := IndexOf(order, ldc, x);
         now[x] == if i < m && j < n then alpha * dot(i, j) + beta * was[x] else was[x]
  }
}
