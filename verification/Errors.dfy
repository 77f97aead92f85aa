/** Status codes the entry points record, and the argument checks several of them share. */
module Errors {
  datatype Err = Success | Failure | NotSupported | NullPointer
               | InvalidOrder | InvalidTranspose | InvalidMatrixType | InvalidMatrixDimension
               | InvalidLeadingDimension | InvalidMemoryTag | InvalidBlockParams | InvalidGroupDimension
               | InvalidSfLen | TypeMismatch | InvalidJitKernel

  /** DLP_MAX_GEMM_DIM: INT32_MAX. */
  const MAX_DIM := 0x7FFF_FFFF

  predicate IsRow(order: char) { order == 'r' || order == 'R' }

  predicate IsCol(order: char) { order == 'c' || order == 'C' }

  predicate IsNoTrans(trans: char) { trans == 'n' || trans == 'N' }

  predicate IsTrans(trans: char) { trans == 't' || trans == 'T' }

  predicate BadDim(d: int) { d <= 0 || d > MAX_DIM }

  /** A leading dimension below what the stored rows (or columns) of an r x c operand need, or too large. */
  predicate BadLd(order: char, trans: char, ld: int, r: int, c: int) {
    || (IsRow(order) && ((IsNoTrans(trans) && ld < c) || (IsTrans(trans) && ld < r)))
    || (IsCol(order) && ((IsNoTrans(trans) && ld < r) || (IsTrans(trans) && ld < c)))
    || ld > MAX_DIM
  }
}
