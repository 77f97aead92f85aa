/** The s8 symmetric-quantised entry point: refusals, translation of the caller's scales, the column-major swap. */
module SymQuantGemm {
  import opened Arith
  import opened CallerTerms
  import opened Errors
  import opened CallMetadata
  import opened PanelPack
  import opened StridedGemm
  import opened ScaleTables
  import opened BlockedLayout
  import opened BufferTerms
  import opened GroupedLayout
  import opened SymQuant
  import opened Words
  import opened GemmF32

  /** `dlp_gemm_group_post_op`: what the kernel is told about scales. */
  class GroupPostOp {
    var groupSize: int
    var aDim: Dim
    var bDim: Dim
    var aScale: array<Byte>
    var aLen: int
    var bScale: array<Byte>
    var bLen: int
    var stor: Stor

    constructor (groupSize: int, aDim: Dim, bDim: Dim, aScale: array<Byte>, aLen: int, bScale: array<Byte>, bLen: int,
                 stor: Stor)
      ensures this.groupSize == groupSize && this.aDim == aDim && this.bDim == bDim && this.stor == stor
      ensures this.aScale == aScale && this.aLen == aLen && this.bScale == bScale && this.bLen == bLen
    {
      this.groupSize, this.aDim, this.bDim, this.stor := groupSize, aDim, bDim, stor;
      this.aScale, this.aLen, this.bScale, this.bLen := aScale, aLen, bScale, bLen;
    }

    function Tables(): Scales
      reads this, aScale, bScale
    {
      Scales(aScale[..], aDim, bScale[..], bDim, stor, groupSize)
    }
  }

  /** A group size of 0 stands for one group over the whole of k. */
  function Defaulted(groupSize: int, k: int): int {
    if groupSize == 0 then k else groupSize
  }

  /** `dlp_gemm_translate_to_group_postops_list`, for quantisation operands that carry scales. */
  function TranslateStatus(a: QuantOp, b: QuantOp, m: int, n: int, k: int): (err: Err)
    requires k > 0 && a.scales != null && b.scales != null
    reads a, b, a.scales, b.scales
    ensures err == Success ==> GroupSize(Defaulted(a.groupSize, k), k)
  {
    var gs := Defaulted(a.groupSize, k);
    if a.kind != Quantize || b.kind != Quantize || a.hasZeroPoint || b.hasZeroPoint then NotSupported
    else if gs != Defaulted(b.groupSize, k) then InvalidGroupDimension
    else if gs > k || gs < 0 || (gs != k && gs % 4 != 0) then InvalidGroupDimension
    else if a.scales.outerDim == DimInvalid || b.scales.outerDim == DimInvalid then NotSupported
    else if a.scales.len > 0 && a.scales.data == null then NullPointer
    else if a.scales.len < m * AGroups(a.scales.outerDim, k, gs) then InvalidSfLen
    else if b.scales.len > 0 && b.scales.data == null then NullPointer
    else if b.scales.len < n * BGroups(b.scales.outerDim, k, gs) then InvalidSfLen
    else if a.scales.stor != b.scales.stor then TypeMismatch
    else Success
  }

  /** Both operands quantise with one group size, 0 standing for the whole of k, which is k or a multiple of four. */
  predicate GoodGroups(a: QuantOp, b: QuantOp, k: int)
    reads a, b
  {
    var gs := if a.groupSize == 0 then k else a.groupSize;
    (b.groupSize == gs || (b.groupSize == 0 && gs == k)) && 0 < gs <= k && (gs == k || gs % 4 == 0)
  }

  /** What the translation of scales looks at, and the error a bad one gives. */
  lemma TranslateStatusIff(a: QuantOp, b: QuantOp, m: int, n: int, k: int)
    requires k > 0 && a.scales != null && b.scales != null
    ensures var e := TranslateStatus(a, b, m, n, k);
      var gs := if a.groupSize == 0 then k else a.groupSize;
      var kinds := a.kind == Quantize && b.kind == Quantize && !a.hasZeroPoint && !b.hasZeroPoint;
      var sized := kinds && GoodGroups(a, b, k);
      var labelled := sized && a.scales.outerDim != DimInvalid && b.scales.outerDim != DimInvalid;
      var aThere := labelled && (a.scales.len > 0 ==> a.scales.data != null);
      var aLong := aThere && a.scales.len >= m * (if a.scales.outerDim == PerToken then 1 else (k + gs - 1) / gs);
      var bThere := aLong && (b.scales.len > 0 ==> b.scales.data != null);
      var bLong := bThere && b.scales.len >= n * (if b.scales.outerDim == PerChannel then 1 else (k + gs - 1) / gs);
      && (e == Success <==> bLong && a.scales.stor == b.scales.stor)
      && (e == TypeMismatch <==> bLong && a.scales.stor != b.scales.stor)
      && (e == InvalidSfLen <==> (aThere && !aLong) || (bThere && !bLong))
      && (e == NullPointer <==> (labelled && !aThere) || (aLong && !bThere))
      && (e == InvalidGroupDimension <==> kinds && !sized)
      && (e == NotSupported <==> !kinds || (sized && !labelled))
  {
  }

  /** The caller's scales, read as it stores them. */
  function CallerScales(a: QuantOp, b: QuantOp, k: int): Scales
    requires a.scales != null && b.scales != null && a.scales.data != null && b.scales.data != null
    reads a, b, a.scales, b.scales, a.scales.data, b.scales.data
  {
    Scales(a.scales.data[..], a.scales.outerDim, b.scales.data[..], b.scales.outerDim,
           Recorded(a.scales.stor), Defaulted(a.groupSize, k))
  }

  lemma GroupCount(k: int, groupSize: int)
    requires 0 < groupSize <= k
    ensures NumGroups(k, groupSize) > 0
  {
    DivBetween(k + groupSize - 1, groupSize, 1, k + 1) by { MulLe(1, k + 1, groupSize); MulLe(1, groupSize, k + 1); }
  }

  /** Each table holds what is moved of it: for every row and group, or group and column, the bytes of one factor. */
  predicate TablesHold(a: QuantOp, b: QuantOp, m: int, n: int, k: int)
    requires a.scales != null && b.scales != null && GroupSize(Defaulted(a.groupSize, k), k)
    reads a, b, a.scales, b.scales
  {
    var gs, es := Defaulted(a.groupSize, k), ElemSize(a.scales.stor);
    && a.scales.data != null && a.scales.data.Length >= Bytes(m, AGroups(a.scales.outerDim, k, gs), es)
    && b.scales.data != null && b.scales.data.Length >= Bytes(BGroups(b.scales.outerDim, k, gs), n, es)
  }

  lemma AcceptedData(a: QuantOp, b: QuantOp, m: int, n: int, k: int)
    requires m > 0 && n > 0 && k > 0 && a.scales != null && b.scales != null
    requires TranslateStatus(a, b, m, n, k) == Success
    ensures a.scales.data != null && b.scales.data != null
    ensures 0 < CallerScales(a, b, k).groupSize <= k && NumGroups(k, CallerScales(a, b, k).groupSize) > 0
    ensures TablesHold(a, b, m, n, k) <==> Covers(CallerScales(a, b, k), m, n, k)
  {
    hide NumGroups;
    var gs := Defaulted(a.groupSize, k);
    GroupCount(k, gs);
    MulLe(1, m, AGroups(a.scales.outerDim, k, gs));
    MulLe(1, n, BGroups(b.scales.outerDim, k, gs));
  }

  /** What an accepted call moves lies in its tables exactly when they hold the factors of m rows and n columns at the
      size they are moved at: so for the kernel's reads, and so for the transpositions of a column-major call. The
      declared lengths and the type's own size, which are all the translation looks at, do not decide it. */
  lemma AcceptedReadsIff(a: QuantOp, b: QuantOp, m: int, n: int, k: int)
    requires m > 0 && n > 0 && k > 0 && a.scales != null && b.scales != null
    requires TranslateStatus(a, b, m, n, k) == Success
    ensures a.scales.data != null && b.scales.data != null && CallerScales(a, b, k).groupSize > 0
    ensures InTables(CallerScales(a, b, k), m, n, k) <==> TablesHold(a, b, m, n, k)
    ensures var s := CallerScales(a, b, k);
      && MovesWithin(|s.aTab|, m, AGroups(s.aDim, k, s.groupSize), ElemSize(s.stor))
      && MovesWithin(|s.bTab|, BGroups(s.bDim, k, s.groupSize), n, ElemSize(s.stor))
      <==> TablesHold(a, b, m, n, k)
  {
    hide NumGroups, Covers, InTables, MovesWithin, TranslateStatus, Bytes;
    AcceptedData(a, b, m, n, k);
    var s := CallerScales(a, b, k);
    InTablesIff(s, m, n, k);
    MovesWithinIff(|s.aTab|, m, AGroups(s.aDim, k, s.groupSize), ElemSize(s.stor));
    MovesWithinIff(|s.bTab|, BGroups(s.bDim, k, s.groupSize), n, ElemSize(s.stor));
    CoversIs(s, m, n, k);
  }

  lemma CoversIs(s: Scales, m: int, n: int, k: int)
    requires m > 0 && n > 0 && k > 0 && s.groupSize > 0 && NumGroups(k, s.groupSize) > 0
    ensures Covers(s, m, n, k) <==>
      && |s.aTab| >= Bytes(m, AGroups(s.aDim, k, s.groupSize), ElemSize(s.stor))
      && |s.bTab| >= Bytes(BGroups(s.bDim, k, s.groupSize), n, ElemSize(s.stor))
  {
  }

  /** A table of exactly the factors that are read, stored at their own size. */
  predicate ExactTable(p: QParam, len: int)
    reads p
  {
    && p.stor != StorInvalid && p.stor != StorMax && p.len == len
    && p.data != null && p.data.Length == TableBytes(p.stor, len)
  }

  /** Accepted calls read past tables of exactly their own factors for every type narrower than what is moved of it,
      which is every type but bf16 and the 32-bit ones. */
  lemma ExactTablesIff(a: QuantOp, b: QuantOp, m: int, n: int, k: int)
    requires m > 0 && n > 0 && k > 0 && a.scales != null && b.scales != null
    requires TranslateStatus(a, b, m, n, k) == Success
    requires ExactTable(a.scales, m * AGroups(a.scales.outerDim, k, Defaulted(a.groupSize, k)))
    requires ExactTable(b.scales, n * BGroups(b.scales.outerDim, k, Defaulted(a.groupSize, k)))
    ensures TablesHold(a, b, m, n, k) <==> a.scales.stor in {StorBF16, StorS32, StorU32, StorF32}
  {
    hide NumGroups, AGroups, BGroups;
    var gs := Defaulted(a.groupSize, k);
    AcceptedLengths(a, b, m, n, k);
    ExactBytes(a.scales.stor, m * AGroups(a.scales.outerDim, k, gs));
    ExactBytes(b.scales.stor, n * BGroups(b.scales.outerDim, k, gs));
  }

  /** There is such a call for every type and every m, n and k: one factor a row for A, one a column for B. */
  method ExactTablesAccepted(stor: Stor, m: int, n: int, k: int) returns (a: QuantOp, b: QuantOp)
    requires m > 0 && n > 0 && k > 0 && stor != StorInvalid && stor != StorMax
    ensures a.scales != null && b.scales != null && TranslateStatus(a, b, m, n, k) == Success
    ensures a.scales.stor == stor && a.scales.outerDim == PerToken && b.scales.outerDim == PerChannel
    ensures ExactTable(a.scales, m) && ExactTable(b.scales, n)
  {
    var aTab, bTab := new Byte[TableBytes(stor, m)], new Byte[TableBytes(stor, n)];
    var aScales := new QParam(PerToken, m, stor, aTab);
    var bScales := new QParam(PerChannel, n, stor, bTab);
    a := new QuantOp(Quantize, false, 0, aScales);
    b := new QuantOp(Quantize, false, 0, bScales);
  }

  lemma AcceptedLengths(a: QuantOp, b: QuantOp, m: int, n: int, k: int)
    requires m > 0 && n > 0 && k > 0 && a.scales != null && b.scales != null
    requires TranslateStatus(a, b, m, n, k) == Success
    ensures 0 < m * AGroups(a.scales.outerDim, k, Defaulted(a.groupSize, k))
    ensures 0 < n * BGroups(b.scales.outerDim, k, Defaulted(a.groupSize, k))
    ensures a.scales.stor == b.scales.stor
  {
    hide NumGroups;
    var gs := Defaulted(a.groupSize, k);
    GroupCount(k, gs);
    MulLe(1, m, AGroups(a.scales.outerDim, k, gs));
    MulLe(1, n, BGroups(b.scales.outerDim, k, gs));
  }

  lemma ExactBytes(stor: Stor, len: int)
    requires stor != StorInvalid && stor != StorMax && len > 0
    ensures TableBytes(stor, len) >= len * ElemSize(stor) <==> stor in {StorBF16, StorS32, StorU32, StorF32}
  {
  }

  /** Accepted scales that are there cover the whole product: no row, column or group lacks a factor. */
  method Translate(a: QuantOp, b: QuantOp, m: int, n: int, k: int) returns (err: Err, grp: GroupPostOp?)
    requires m > 0 && n > 0 && k > 0 && a.scales != null && b.scales != null
    ensures err == old(TranslateStatus(a, b, m, n, k))
    ensures err == Success ==>
      && grp != null && fresh(grp) && a.scales.data != null && b.scales.data != null
      && grp.Tables() == old(CallerScales(a, b, k))
      && (old(TablesHold(a, b, m, n, k)) ==> Covers(grp.Tables(), m, n, k))
      && grp.aLen == a.scales.len && grp.bLen == b.scales.len
  {
    hide NumGroups, Covers;
    grp := null;
    if a.kind != Quantize { return NotSupported, null; }
    if b.kind != Quantize { return NotSupported, null; }
    if a.hasZeroPoint { return NotSupported, null; }
    if b.hasZeroPoint { return NotSupported, null; }
    var aGroupSize, bGroupSize := a.groupSize, b.groupSize;
    if aGroupSize == 0 { aGroupSize := k; }
    if bGroupSize == 0 { bGroupSize := k; }
    if aGroupSize != bGroupSize { return InvalidGroupDimension, null; }
    var groupSize := aGroupSize;
    if groupSize > k || groupSize < 0 {
      return InvalidGroupDimension, null;
    } else if groupSize != k && groupSize % 4 != 0 {
      return InvalidGroupDimension, null;
    }
    var aDim, bDim := a.scales.outerDim, b.scales.outerDim;
    if aDim == DimInvalid || bDim == DimInvalid { return NotSupported, null; }
    var aGroups, bGroups := AGroups(aDim, k, groupSize), BGroups(bDim, k, groupSize);
    GroupCount(k, groupSize);
    var aData, bData := a.scales.data, b.scales.data;
    if a.scales.len > 0 && aData == null { return NullPointer, null; }
    if a.scales.len < m * aGroups { return InvalidSfLen, null; }
    if b.scales.len > 0 && bData == null { return NullPointer, null; }
    if b.scales.len < n * bGroups { return InvalidSfLen, null; }
    if a.scales.stor != b.scales.stor { return TypeMismatch, null; }
    AcceptedData(a, b, m, n, k);
    grp := new GroupPostOp(groupSize, aDim, bDim, aData, a.scales.len, bData, b.scales.len, Recorded(a.scales.stor));
    err := Success;
  }

  lemma CoversParts(s: Scales, m: int, n: int, k: int)
    requires Covers(s, m, n, k)
    ensures m > 0 && n > 0 && k > 0 && s.groupSize > 0 && NumGroups(k, s.groupSize) > 0
    ensures |s.aTab| >= Bytes(m, AGroups(s.aDim, k, s.groupSize), ElemSize(s.stor))
    ensures |s.bTab| >= Bytes(BGroups(s.bDim, k, s.groupSize), n, ElemSize(s.stor))
  {
  }

  /** The column-major rewriting of the group post-op: both tables transposed into buffers of their own, then
      tables, lengths and granularities exchanged. The caller's tables stay as they are. */
  method SwapForColumnMajor(grp: GroupPostOp, m: int, n: int, k: int)
    requires Covers(grp.Tables(), m, n, k)
    modifies grp
    ensures Covers(old(grp.Tables()), m, n, k) && grp.Tables() == SwappedScales(old(grp.Tables()), m, n, k)
    ensures Covers(grp.Tables(), n, m, k)
    ensures fresh(grp.aScale) && fresh(grp.bScale)
    ensures grp.aLen == old(grp.bLen) && grp.bLen == old(grp.aLen)
  {
    hide NumGroups, Bytes, Transposed, Covers;
    ghost var s := grp.Tables();
    CoversParts(s, m, n, k);
    var groupSize := grp.groupSize;
    var numGroups := NumGroups(k, groupSize);
    var aGroups := if grp.aDim == PerToken then 1 else numGroups;
    var bGroups := if grp.bDim == PerChannel then 1 else numGroups;
    var size := if grp.stor == StorBF16 then 2 else 4;
    BytesFacts(bGroups, n, size);
    BytesFacts(m, aGroups, size);
    var colmajA := new Byte[Bytes(bGroups, n, size)];
    var writesA := TransposeScale(colmajA, grp.bScale[..], bGroups, n, size);
    var colmajB := new Byte[Bytes(m, aGroups, size)];
    var writesB := TransposeScale(colmajB, grp.aScale[..], m, aGroups, size);
    assert colmajA[..Bytes(bGroups, n, size)] == colmajA[..] && colmajB[..Bytes(m, aGroups, size)] == colmajB[..];
    grp.aScale := colmajA;
    grp.bScale := colmajB;
    var tmpLen := grp.aLen;
    grp.aLen := grp.bLen;
    grp.bLen := tmpLen;
    var oldA, oldB := grp.aDim, grp.bDim;
    grp.aDim := if oldB == PerChannel then PerToken else PerGroup;
    grp.bDim := if oldA == PerToken then PerChannel else PerGroup;
    SwappedCovers(old(grp.Tables()), m, n, k);
  }

  /** Refusals of `aocl_gemm_s8s8s32of32_sym_quant` before it looks into the scales, in the order it decides them. */
  function ArgumentStatus(order: char, transa: char, transb: char, m: int, n: int, k: int, lda: int, fmtA: char,
                          ldb: int, fmtB: char, ldc: int, md: Metadata?): (err: Err)
    reads md, QuantOps(md), QParams(md)
    ensures err == Success ==>
      && m > 0 && n > 0 && k > 0 && HasScales(md)
      && md.aQuantOp.scales.outerDim in {PerToken, PerGroup} && md.bQuantOp.scales.outerDim in {PerChannel, PerGroup}
      && GemmStatus(order, transa, transb, m, n, k, lda, fmtA, ldb, fmtB, ldc) == Success
  {
    var e := GemmCheck(order, transa, transb, m, n, k, lda, fmtA, ldb, fmtB, ldc);
    if e != Success then e
    else if IsCol(order) && md != null && md.seqLength > 0 then NotSupported
    else if RefusesReordered(order, fmtA, fmtB) then NotSupported
    else if !HasScales(md) then NullPointer
    else if md.aQuantOp.scales.outerDim !in {PerToken, PerGroup} then NotSupported
    else if md.bQuantOp.scales.outerDim !in {PerChannel, PerGroup} then NotSupported
    else Success
  }

  lemma ArgumentsAccepted(order: char, transa: char, transb: char, m: int, n: int, k: int, lda: int, fmtA: char,
                          ldb: int, fmtB: char, ldc: int, md: Metadata?)
    requires ArgumentStatus(order, transa, transb, m, n, k, lda, fmtA, ldb, fmtB, ldc, md) == Success
    ensures m > 0 && n > 0 && k > 0 && GemmStatus(order, transa, transb, m, n, k, lda, fmtA, ldb, fmtB, ldc) == Success
  {
  }

  /** Of the calls whose plain arguments are good: when they are refused, and for what. */
  lemma ArgumentStatusIff(order: char, transa: char, transb: char, m: int, n: int, k: int, lda: int, fmtA: char,
                          ldb: int, fmtB: char, ldc: int, md: Metadata?)
    ensures var e := ArgumentStatus(order, transa, transb, m, n, k, lda, fmtA, ldb, fmtB, ldc, md);
      var checked := GemmCheck(order, transa, transb, m, n, k, lda, fmtA, ldb, fmtB, ldc);
      var good := GoodCall(order, transa, transb, m, n, k, lda, fmtA, ldb, fmtB, ldc)
                  && (order in {'r', 'R'} || md == null || md.seqLength <= 0);
      var there := md != null && md.aQuantOp != null && md.bQuantOp != null && md.aQuantOp.scales != null
                   && md.bQuantOp.scales != null;
      if checked != Success then e == checked
      else if !good then e == NotSupported
      else if !there then e == NullPointer
      else e == if md.aQuantOp.scales.outerDim in {PerToken, PerGroup}
                   && md.bQuantOp.scales.outerDim in {PerChannel, PerGroup} then Success else NotSupported
  {
    hide GemmCheck;
    GemmCheckIff(order, transa, transb, m, n, k, lda, fmtA, ldb, fmtB, ldc);
    RefusedIff(order, transa, transb, m, n, k, lda, fmtA, ldb, fmtB, ldc);
  }

  method CheckArguments(order: char, transa: char, transb: char, m: int, n: int, k: int, lda: int, fmtA: char,
                        ldb: int, fmtB: char, ldc: int, md: Metadata?) returns (err: Err)
    ensures err == ArgumentStatus(order, transa, transb, m, n, k, lda, fmtA, ldb, fmtB, ldc, md)
    ensures err == Success ==>
      && m > 0 && n > 0 && k > 0 && HasScales(md)
      && md.aQuantOp.scales.outerDim in {PerToken, PerGroup} && md.bQuantOp.scales.outerDim in {PerChannel, PerGroup}
      && GemmStatus(order, transa, transb, m, n, k, lda, fmtA, ldb, fmtB, ldc) == Success
  {
    hide GemmCheck, RefusesReordered;
    err := GemmCheck(order, transa, transb, m, n, k, lda, fmtA, ldb, fmtB, ldc);
    if err != Success { return; }
    if IsCol(order) && md != null && md.seqLength > 0 { return NotSupported; }
    if RefusesReordered(order, fmtA, fmtB) { return NotSupported; }
    if md == null || md.aQuantOp == null || md.bQuantOp == null { return NullPointer; }
    if md.aQuantOp.scales == null || md.bQuantOp.scales == null { return NullPointer; }
    if md.aQuantOp.scales.outerDim != PerToken && md.aQuantOp.scales.outerDim != PerGroup { return NotSupported; }
    if md.bQuantOp.scales.outerDim != PerChannel && md.bQuantOp.scales.outerDim != PerGroup { return NotSupported; }
    ArgumentsAccepted(order, transa, transb, m, n, k, lda, fmtA, ldb, fmtB, ldc, md);
  }

  /** ... and once the scales have been translated. */
  function ScaleStatus(order: char, transa: char, transb: char, m: int, n: int, k: int, lda: int, fmtA: char,
                       ldb: int, fmtB: char, ldc: int, md: Metadata?): (err: Err)
    reads md, QuantOps(md), QParams(md)
    ensures err == Success ==> HasScales(md) && n > 0 && GroupSize(Defaulted(md.aQuantOp.groupSize, k), k)
  {
    var e := ArgumentStatus(order, transa, transb, m, n, k, lda, fmtA, ldb, fmtB, ldc, md);
    if e != Success then e else TranslateStatus(md.aQuantOp, md.bQuantOp, m, n, k)
  }

  /** Post-operations are looked at, and a gated term-op turned away, only after the tables have been exchanged; block
      sizes and kernel handles come last. */
  function SymQuantStatus(order: char, transa: char, transb: char, m: int, n: int, k: int, lda: int, fmtA: char,
                          ldb: int, fmtB: char, ldc: int, md: Metadata?, postOpsVerdict: Err,
                          preparation: Err): (err: Err)
    reads md, QuantOps(md), QParams(md)
    ensures err == Success ==> HasScales(md) && n > 0 && GroupSize(Defaulted(md.aQuantOp.groupSize, k), k)
  {
    var e := ScaleStatus(order, transa, transb, m, n, k, lda, fmtA, ldb, fmtB, ldc, md);
    if e != Success then e
    else if postOpsVerdict != Success then postOpsVerdict
    else if md != null && md.glu then NotSupported
    else preparation
  }

  function QuantOps(md: Metadata?): set<QuantOp?>
    reads md
  {
    if md == null then {} else {md.aQuantOp, md.bQuantOp}
  }

  function QParams(md: Metadata?): set<QParam?>
    reads md, QuantOps(md)
  {
    if md == null then {}
    else (if md.aQuantOp == null then {} else {md.aQuantOp.scales})
         + (if md.bQuantOp == null then {} else {md.bQuantOp.scales})
  }

  predicate HasScales(md: Metadata?)
    reads md, QuantOps(md)
  {
    md != null && md.aQuantOp != null && md.bQuantOp != null && md.aQuantOp.scales != null && md.bQuantOp.scales != null
  }

  type IntMem = int -> int

  function OpMatrix(order: char, trans: char, x: IntMem, ld: int): IntMatrix {
    (i, p) => Op(order, trans, x, ld, i, p)
  }

  /** The logical k x n matrix an int8 B pointer stands for, for groups of groupSize. */
  ghost predicate IntRepresents(b: IntMem, order: char, transb: char, ldb: int, fmtB: char, k: int, n: int,
                                blocks: BlockTable, groupSize: int, B: IntMatrix)
    requires blocks.Legal() && GroupSize(groupSize, k) && n > 0
  {
    forall p, j {:trigger B(p, j)} :: 0 <= p < k && 0 <= j < n ==>
      B(p, j) == if TagOf(fmtB) == Tag.Reordered then ReadGrouped(b, k, n, blocks, groupSize, p, j)
                 else Op(order, transb, b, ldb, p, j)
  }

  /** What reaches the quantised kernel. */
  datatype QuantCall = QuantCall(m: int, n: int, k: int, a: IntMem, rsA: int, csA: int, tagA: Tag,
                                 b: IntMem, rsB: int, csB: int, tagB: Tag, rsC: int, csC: int)
  {
    function A(): IntMatrix { (i, p) => a(Addr(i, p, rsA, csA)) }

    function B(blocks: BlockTable, groupSize: int): IntMatrix
      requires blocks.Legal() && GroupSize(groupSize, k) && n > 0
    {
      (p, j) => if tagB == Tag.Reordered then ReadGrouped(b, k, n, blocks, groupSize, p, j) else b(Addr(p, j, rsB, csB))
    }
  }

  /** The kernel: configured for the granularities the decision engine was shown, fed the group post-op's tables.
      An unpacked B makes it return without touching C. */
  method QuantKernel(call: QuantCall, engineA: Dim, engineB: Dim, grp: GroupPostOp, alpha: int, beta: int,
                     c: array<real>, blocks: BlockTable, dec: Decoder)
    requires blocks.Legal() && call.m > 0 && call.n > 0 && call.k > 0 && GroupSize(grp.groupSize, call.k)
    requires Strides(call.rsC, call.csC, call.m, call.n) && FitsC(call.m, call.n, call.rsC, call.csC, c.Length)
    requires engineA == grp.aDim && engineB == grp.bDim && Covers(grp.Tables(), call.m, call.n, call.k)
    requires call.csA == 1 || call.tagA == Pack
    modifies c
    ensures call.tagB == Unpacked ==> c[..] == old(c[..])
    ensures call.tagB != Unpacked ==>
      Gemmed(c[..], old(c[..]), call.m, call.n, call.rsC, call.csC, alpha as real, beta as real,
             KernelDots(grp.Tables(), dec, call.A(), call.B(blocks, grp.groupSize), call.k, call.n))
  {
    if call.tagB == Unpacked { return; }
    UpdateTile(Tile(call.m, call.n, call.rsC, call.csC, alpha as real, beta as real,
                    KernelDots(grp.Tables(), dec, call.A(), call.B(blocks, grp.groupSize), call.k, call.n)), c);
  }

  /** Tag rules and the exchange of operands. */
  method SymQuantCall(order: char, transa: char, transb: char, m: int, n: int, k: int, a: IntMem, lda: int, fmtA: char,
                      b: IntMem, ldb: int, fmtB: char, ldc: int) returns (call: QuantCall)
    requires GemmStatus(order, transa, transb, m, n, k, lda, fmtA, ldb, fmtB, ldc) == Success
    ensures call.k == k && (call.rsC, call.csC) == (ldc, 1)
    ensures call.tagB != Unpacked && (call.csA == 1 || call.tagA == Pack)
    ensures
      if IsRow(order) then
        && (call.m, call.n, call.a, call.b) == (m, n, a, b)
        && (call.rsA, call.csA) == BaseStrides(transa, lda) && (call.rsB, call.csB) == BaseStrides(transb, ldb)
        && (call.tagB == Tag.Reordered <==> TagOf(fmtB) == Tag.Reordered)
      else
        && (call.m, call.n, call.a, call.b) == (n, m, b, a) && call.tagB != Tag.Reordered
        && (call.rsA, call.csA) == BaseStrides(transb, ldb) && (call.rsB, call.csB) == BaseStrides(transa, lda)
  {
    var isRowMajor, isColumnMajor := IsRow(order), IsCol(order);
    var rsA, csA, rsB, csB := lda, 1, ldb, 1;
    if IsTrans(transa) { rsA, csA := 1, lda; }
    if IsTrans(transb) { rsB, csB := 1, ldb; }
    var rsC, csC := ldc, 1;
    var mtagA, mtagB := TagOf(fmtA), TagOf(fmtB);
    if isRowMajor && mtagA == Pack {
      mtagA := Unpacked;
    } else if isColumnMajor && mtagB == Pack {
      mtagB := Unpacked;
    }
    if isRowMajor && mtagB == Unpacked {
      mtagB := Pack;
    } else if isColumnMajor && mtagA == Unpacked {
      mtagA := Pack;
    }
    if isRowMajor && IsTrans(transa) {
      mtagA := Pack;
    } else if isColumnMajor && IsTrans(transb) {
      mtagB := Pack;
    }
    if isColumnMajor {
      call := QuantCall(n, m, k, b, rsB, csB, mtagB, a, rsA, csA, mtagA, rsC, csC);
    } else {
      call := QuantCall(m, n, k, a, rsA, csA, mtagA, b, rsB, csB, mtagB, rsC, csC);
    }
  }

  /** The tables shown to the kernel: the caller's, or for column-major order the exchanged ones. */
  ghost predicate Carries(t: Scales, colMajor: bool, s: Scales, m: int, n: int, k: int) {
    if colMajor then Covers(s, m, n, k) && Covers(t, n, m, k) && t == SwappedScales(s, m, n, k) else t == s
  }

  /** The group post-op the kernel will use and the granularities shown to the decision engine, which reads them
      from copies of the caller's operands: they must agree. */
  method Prepare(colMajor: bool, a: QuantOp, b: QuantOp, postOpsVerdict: Err, glu: bool, m: int, n: int, k: int)
    returns (err: Err, grp: GroupPostOp?, engineA: Dim, engineB: Dim, ghost s: Scales)
    requires m > 0 && n > 0 && k > 0 && a.scales != null && b.scales != null
    requires colMajor && TranslateStatus(a, b, m, n, k) == Success ==> TablesHold(a, b, m, n, k)
    requires a.scales.outerDim in {PerToken, PerGroup} && b.scales.outerDim in {PerChannel, PerGroup}
    ensures err == var e := old(TranslateStatus(a, b, m, n, k));
              if e != Success then e else if postOpsVerdict != Success then postOpsVerdict
              else if glu then NotSupported else Success
    ensures err == Success ==>
      && grp != null && fresh(grp) && a.scales.data != null && b.scales.data != null
      && s == old(CallerScales(a, b, k)) && s.groupSize == Defaulted(a.groupSize, k)
      && (old(TablesHold(a, b, m, n, k)) <==> Covers(s, m, n, k))
      && (engineA, engineB) == (grp.aDim, grp.bDim) && Carries(grp.Tables(), colMajor, s, m, n, k)
  {
    hide Covers, Transposed, TranslateStatus;
    s := Scales([], DimInvalid, [], DimInvalid, StorInvalid, 0);
    if TranslateStatus(a, b, m, n, k) == Success {
      AcceptedData(a, b, m, n, k);
      GroupSizeIs(a, b, k);
      s := CallerScales(a, b, k);
    }
    err, grp := Translate(a, b, m, n, k);
    engineA, engineB := a.scales.outerDim, b.scales.outerDim;
    if err != Success { return; }
    if colMajor {
      SwapForColumnMajor(grp, m, n, k);
      engineA := if b.scales.outerDim == PerChannel then PerToken else PerGroup;
      engineB := if a.scales.outerDim == PerToken then PerChannel else PerGroup;
    }
    if postOpsVerdict != Success { err := postOpsVerdict; } else if glu { err := NotSupported; }
  }

  lemma RowMajorMeans(call: QuantCall, now: seq<real>, was: seq<real>, order: char, transa: char, transb: char, m: int,
                      n: int, k: int, a: IntMem, lda: int, b: IntMem, ldb: int, fmtB: char, ldc: int, alpha: real,
                      beta: real, s: Scales, dec: Decoder, blocks: BlockTable, B: IntMatrix)
    requires blocks.Legal() && IsRow(order) && m > 0 && n > 0 && k > 0 && GroupSize(s.groupSize, k)
    requires IntRepresents(b, order, transb, ldb, fmtB, k, n, blocks, s.groupSize, B)
    requires (call.m, call.n, call.k, call.a, call.b, call.rsC, call.csC) == (m, n, k, a, b, ldc, 1)
    requires (call.rsA, call.csA) == BaseStrides(transa, lda) && (call.rsB, call.csB) == BaseStrides(transb, ldb)
    requires call.tagB == Tag.Reordered <==> TagOf(fmtB) == Tag.Reordered
    requires Gemmed(now, was, m, n, ldc, 1, alpha, beta,
                    KernelDots(s, dec, call.A(), call.B(blocks, s.groupSize), k, n))
    ensures Gemmed(now, was, m, n, CStrides(order, ldc).0, CStrides(order, ldc).1, alpha, beta,
                   QuantDots(s, dec, OpMatrix(order, transa, a, lda), B, k, n))
  {
    hide Gemmed, KernelDot, QuantDot, ReadGrouped;
    var A := OpMatrix(order, transa, a, lda);
    var kernel, meant := KernelDots(s, dec, call.A(), call.B(blocks, s.groupSize), k, n), QuantDots(s, dec, A, B, k, n);
    forall i, j | 0 <= i < m && 0 <= j < n ensures kernel(i, j) == meant(i, j) {
      KernelDotIsQuantDot(s, dec, call.A(), call.B(blocks, s.groupSize), k, n, i, j);
      QuantDotExt(s, dec, call.A(), A, call.B(blocks, s.groupSize), B, k, n, i, j);
    }
    SameDots(now, was, m, n, ldc, 1, alpha, beta, kernel, meant);
  }

  lemma ColumnMajorMeans(call: QuantCall, now: seq<real>, was: seq<real>, order: char, transa: char, transb: char,
                         m: int, n: int, k: int, a: IntMem, lda: int, b: IntMem, ldb: int, fmtB: char, ldc: int,
                         alpha: real, beta: real, s: Scales, dec: Decoder, blocks: BlockTable, B: IntMatrix)
    requires blocks.Legal() && IsCol(order) && m > 0 && n > 0 && k > 0 && Covers(s, m, n, k)
    requires GroupSize(s.groupSize, k)
    requires IntRepresents(b, order, transb, ldb, fmtB, k, n, blocks, s.groupSize, B) && TagOf(fmtB) != Tag.Reordered
    requires (call.m, call.n, call.k, call.a, call.b, call.rsC, call.csC) == (n, m, k, b, a, ldc, 1)
    requires (call.rsA, call.csA) == BaseStrides(transb, ldb) && (call.rsB, call.csB) == BaseStrides(transa, lda)
    requires call.tagB != Tag.Reordered
    requires Gemmed(now, was, n, m, ldc, 1, alpha, beta,
                    KernelDots(SwappedScales(s, m, n, k), dec, call.A(), call.B(blocks, s.groupSize), k, m))
    ensures Gemmed(now, was, m, n, CStrides(order, ldc).0, CStrides(order, ldc).1, alpha, beta,
                   QuantDots(s, dec, OpMatrix(order, transa, a, lda), B, k, n))
  {
    hide Gemmed, KernelDot, QuantDot, SwappedScales, Addr, ReadGrouped;
    SwappedCovers(s, m, n, k);
    var A, t := OpMatrix(order, transa, a, lda), SwappedScales(s, m, n, k);
    var kernel, meant := KernelDots(t, dec, call.A(), call.B(blocks, s.groupSize), k, m), QuantDots(s, dec, A, B, k, n);
    forall j, i | 0 <= j < n && 0 <= i < m ensures kernel(j, i) == meant(i, j) {
      KernelDotIsQuantDot(t, dec, call.A(), call.B(blocks, s.groupSize), k, m, j, i);
      forall p | 0 <= p < k ensures
        call.A()(j, p) == Flip(B)(j, p) && call.B(blocks, s.groupSize)(p, i) == Flip(A)(p, i)
      {
        AddrSwap(j, p, call.rsA, call.csA);
        AddrSwap(p, i, call.rsB, call.csB);
      }
      QuantDotExt(t, dec, call.A(), Flip(B), call.B(blocks, s.groupSize), Flip(A), k, m, j, i);
      SwapKeepsQuantDot(s, dec, A, B, m, n, k, i, j);
    }
    TransposedDots(now, was, n, m, ldc, 1, alpha, beta, kernel, meant);
  }

  /** From accepted arguments and the prepared group post-op to C. */
  method Multiply(order: char, transa: char, transb: char, m: int, n: int, k: int, alpha: int, a: IntMem, lda: int,
                  fmtA: char, b: IntMem, ldb: int, fmtB: char, beta: int, c: array<real>, ldc: int, grp: GroupPostOp,
                  engineA: Dim, engineB: Dim, ghost s: Scales, blocks: BlockTable, dec: Decoder, ghost B: IntMatrix)
    requires blocks.Legal()
    requires GemmStatus(order, transa, transb, m, n, k, lda, fmtA, ldb, fmtB, ldc) == Success
    requires GroupSize(s.groupSize, k) && n > 0 &&
             IntRepresents(b, order, transb, ldb, fmtB, k, n, blocks, s.groupSize, B)
    requires FitsC(m, n, CStrides(order, ldc).0, CStrides(order, ldc).1, c.Length)
    requires Covers(s, m, n, k) && (engineA, engineB) == (grp.aDim, grp.bDim)
    requires Carries(grp.Tables(), IsCol(order), s, m, n, k)
    modifies c
    ensures s.groupSize > 0
    ensures Gemmed(c[..], old(c[..]), m, n, CStrides(order, ldc).0, CStrides(order, ldc).1, alpha as real, beta as real,
                   QuantDots(s, dec, OpMatrix(order, transa, a, lda), B, k, n))
  {
    hide Gemmed, IntRepresents, FitsC, Strides, SwappedScales, Transposed, Bytes, NumGroups;
    var call := SymQuantCall(order, transa, transb, m, n, k, a, lda, fmtA, b, ldb, fmtB, ldc);
    CallStrides(call.m, call.n, call.rsC, call.csC, order, transa, transb, m, n, k, lda, fmtA, ldb, fmtB, ldc,
                c.Length);
    if IsCol(order) { SwappedCovers(s, m, n, k); }
    QuantKernel(call, engineA, engineB, grp, alpha, beta, c, blocks, dec);
    if IsCol(order) {
      ColumnMajorMeans(call, c[..], old(c[..]), order, transa, transb, m, n, k, a, lda, b, ldb, fmtB, ldc,
                       alpha as real, beta as real, s, dec, blocks, B);
    } else {
      RowMajorMeans(call, c[..], old(c[..]), order, transa, transb, m, n, k, a, lda, b, ldb, fmtB, ldc,
                    alpha as real, beta as real, s, dec, blocks, B);
    }
  }

  lemma GroupSizeIs(a: QuantOp, b: QuantOp, k: int)
    requires a.scales != null && b.scales != null && a.scales.data != null && b.scales.data != null
    ensures CallerScales(a, b, k).groupSize == Defaulted(a.groupSize, k)
  {
  }

  /** Everything before the kernel: the status, and the group post-op an accepted call carries. */
  method Admit(order: char, transa: char, transb: char, m: int, n: int, k: int, lda: int, fmtA: char, ldb: int,
               fmtB: char, ldc: int, md: Metadata?, postOpsVerdict: Err, preparation: Err)
    returns (err: Err, grp: GroupPostOp?, engineA: Dim, engineB: Dim, ghost s: Scales)
    requires ScaleStatus(order, transa, transb, m, n, k, lda, fmtA, ldb, fmtB, ldc, md) == Success && IsCol(order) ==>
      TablesHold(md.aQuantOp, md.bQuantOp, m, n, k)
    ensures err == old(SymQuantStatus(order, transa, transb, m, n, k, lda, fmtA, ldb, fmtB, ldc, md, postOpsVerdict,
                                      preparation))
    ensures err == Success ==>
      && GemmStatus(order, transa, transb, m, n, k, lda, fmtA, ldb, fmtB, ldc) == Success
      && grp != null && fresh(grp) && md.aQuantOp.scales.data != null && md.bQuantOp.scales.data != null
      && s == old(CallerScales(md.aQuantOp, md.bQuantOp, k)) && s.groupSize == Defaulted(md.aQuantOp.groupSize, k)
      && (old(TablesHold(md.aQuantOp, md.bQuantOp, m, n, k)) <==> Covers(s, m, n, k))
      && (engineA, engineB) == (grp.aDim, grp.bDim) && Carries(grp.Tables(), IsCol(order), s, m, n, k)
  {
    hide Covers, CallerScales, TranslateStatus, GemmStatus, GemmCheck, RefusesReordered, TablesHold, Carries;
    grp, engineA, engineB := null, PerGroup, PerGroup;
    s := Scales([], DimInvalid, [], DimInvalid, StorInvalid, 0);
    err := CheckArguments(order, transa, transb, m, n, k, lda, fmtA, ldb, fmtB, ldc, md);
    if err != Success { return; }
    err, grp, engineA, engineB, s := Prepare(IsCol(order), md.aQuantOp, md.bQuantOp, postOpsVerdict, md.glu, m, n, k);
    if err != Success { return; }
    err := preparation;
  }

  /** When the quantised GEMM goes ahead. */
  lemma AcceptedIff(order: char, transa: char, transb: char, m: int, n: int, k: int, lda: int, fmtA: char, ldb: int,
                    fmtB: char, ldc: int, md: Metadata?, postOpsVerdict: Err, preparation: Err)
    ensures SymQuantStatus(order, transa, transb, m, n, k, lda, fmtA, ldb, fmtB, ldc, md, postOpsVerdict,
                           preparation) == Success <==>
      && GoodCall(order, transa, transb, m, n, k, lda, fmtA, ldb, fmtB, ldc)
      && md != null && md.aQuantOp != null && md.bQuantOp != null
      && md.aQuantOp.scales != null && md.bQuantOp.scales != null
      && md.aQuantOp.scales.outerDim in {PerToken, PerGroup} && md.bQuantOp.scales.outerDim in {PerChannel, PerGroup}
      && (order in {'c', 'C'} ==> md.seqLength <= 0)
      && TranslateStatus(md.aQuantOp, md.bQuantOp, m, n, k) == Success
      && postOpsVerdict == Success && !md.glu && preparation == Success
    ensures var e := ArgumentStatus(order, transa, transb, m, n, k, lda, fmtA, ldb, fmtB, ldc, md);
      var s := SymQuantStatus(order, transa, transb, m, n, k, lda, fmtA, ldb, fmtB, ldc, md, postOpsVerdict,
                              preparation);
      if e != Success then s == e
      else
        var t := TranslateStatus(md.aQuantOp, md.bQuantOp, m, n, k);
        s == if t != Success then t else if postOpsVerdict != Success then postOpsVerdict
             else if md.glu then NotSupported else preparation
  {
    hide TranslateStatus, ArgumentStatus, GemmCheck, GemmStatus;
    ArgumentStatusIff(order, transa, transb, m, n, k, lda, fmtA, ldb, fmtB, ldc, md);
    RefusedIff(order, transa, transb, m, n, k, lda, fmtA, ldb, fmtB, ldc);
  }

  /** B as the library reads a grouped buffer: a plain vector for one column of whole groups, panels otherwise. */
  function GroupedBuffer(b: IntMem, k: int, n: int, blocks: BlockTable, gs: int): IntMatrix
    requires blocks.Legal() && GroupSize(gs, k) && n > 0
  {
    PanelsAre(k, n, blocks, gs);
    (p, j) =>
      if n == 1 && k % gs == 0 then b(p) else b(Pos(Panels(k, n, blocks.NR, blocks.NC, blocks.KC, gs), p, j))
  }

  /** C in the caller's terms: each group's factors are decoded from the caller's own bytes, as the type declared for
      them. */
  ghost predicate QuantLeaves(now: seq<real>, was: seq<real>, order: char, transa: char, transb: char, m: int, n: int,
                              k: int, alpha: int, a: IntMem, lda: int, b: IntMem, ldb: int, fmtB: char, beta: int,
                              ldc: int, aOp: QuantOp, bOp: QuantOp, blocks: BlockTable, dec: Decoder)
    reads aOp, bOp, aOp.scales, bOp.scales
    reads if aOp.scales == null || bOp.scales == null then {} else {aOp.scales.data, bOp.scales.data}
  {
    var gs := if aOp.groupSize == 0 then k else aOp.groupSize;
    && ldc > 0 && n > 0 && blocks.Legal() && 0 < gs <= k && (gs == k || gs % 4 == 0)
    && aOp.scales != null && aOp.scales.data != null && bOp.scales != null && bOp.scales.data != null
    && (Plain(fmtB) || (fmtB in {'r', 'R'} && order in {'r', 'R'}))
    && Updated(now, was, order, m, n, ldc, alpha as real, beta as real,
               GroupedProducts(Declared(aOp.scales.data[..], aOp.scales.outerDim == PerToken,
                                        bOp.scales.data[..], bOp.scales.outerDim == PerChannel, aOp.scales.stor),
                               dec, gs, Operand(order, transa, a, lda),
                               if Plain(fmtB) then Operand(order, transb, b, ldb)
                               else GroupedBuffer(b, k, n, blocks, gs), k, n))
  }

  lemma IntRepresentedIs(b: IntMem, order: char, transb: char, ldb: int, fmtB: char, k: int, n: int,
                         blocks: BlockTable, gs: int, B: IntMatrix, p: int, j: int)
    requires blocks.Legal() && GroupSize(gs, k) && 0 <= p < k && 0 <= j < n
    requires IntRepresents(b, order, transb, ldb, fmtB, k, n, blocks, gs, B)
    requires order in {'r', 'R', 'c', 'C'} && transb in {'n', 'N', 't', 'T'} && GoodTag(fmtB)
    ensures B(p, j) == if Plain(fmtB) then Operand(order, transb, b, ldb)(p, j)
                       else GroupedBuffer(b, k, n, blocks, gs)(p, j)
  {
    hide Op, AlignKc, GroupedShape;
    OperandIs(order, transb, b, ldb, p, j);
    TightIff(n, k, blocks.KC, gs);
    PanelsAre(k, n, blocks, gs);
  }

  /** The result the model is stated with is the one in the caller's terms. */
  lemma QuantLeavesIs(now: seq<real>, was: seq<real>, order: char, transa: char, transb: char, m: int, n: int, k: int,
                      alpha: int, a: IntMem, lda: int, fmtA: char, b: IntMem, ldb: int, fmtB: char, beta: int, ldc: int,
                      aOp: QuantOp, bOp: QuantOp, blocks: BlockTable, dec: Decoder, B: IntMatrix)
    requires GemmStatus(order, transa, transb, m, n, k, lda, fmtA, ldb, fmtB, ldc) == Success
    requires blocks.Legal() && aOp.scales != null && aOp.scales.data != null
    requires bOp.scales != null && bOp.scales.data != null && GroupSize(Defaulted(aOp.groupSize, k), k) && n > 0
    requires IntRepresents(b, order, transb, ldb, fmtB, k, n, blocks, Defaulted(aOp.groupSize, k), B)
    requires CallerScales(aOp, bOp, k).groupSize > 0
    requires Gemmed(now, was, m, n, CStrides(order, ldc).0, CStrides(order, ldc).1, alpha as real, beta as real,
                    QuantDots(CallerScales(aOp, bOp, k), dec, OpMatrix(order, transa, a, lda), B, k, n))
    ensures QuantLeaves(now, was, order, transa, transb, m, n, k, alpha, a, lda, b, ldb, fmtB, beta, ldc, aOp, bOp,
                        blocks, dec)
  {
    hide Gemmed, QuantDot, GroupedProducts, Updated, IntRepresents, GemmStatus, Op, Place;
    RefusedIff(order, transa, transb, m, n, k, lda, fmtA, ldb, fmtB, ldc);
    var s, gs := CallerScales(aOp, bOp, k), Defaulted(aOp.groupSize, k);
    var d := Declared(aOp.scales.data[..], aOp.scales.outerDim == PerToken, bOp.scales.data[..],
                      bOp.scales.outerDim == PerChannel, aOp.scales.stor);
    var A, A' := OpMatrix(order, transa, a, lda), Operand(order, transa, a, lda);
    var B' := if Plain(fmtB) then Operand(order, transb, b, ldb) else GroupedBuffer(b, k, n, blocks, gs);
    var dots, meant := QuantDots(s, dec, A, B, k, n), GroupedProducts(d, dec, gs, A', B', k, n);
    forall i, j | 0 <= i < m && 0 <= j < n ensures dots(i, j) == meant(i, j) {
      forall p | 0 <= p < k ensures A(i, p) == A'(i, p) && B(p, j) == B'(p, j) {
        OperandIs(order, transa, a, lda, i, p);
        IntRepresentedIs(b, order, transb, ldb, fmtB, k, n, blocks, gs, B, p, j);
      }
      QuantDotExt(s, dec, A, A', B, B', k, n, i, j);
      QuantDotIs(d, s, dec, A', B', k, n, i, j);
    }
    SameDots(now, was, m, n, CStrides(order, ldc).0, CStrides(order, ldc).1, alpha as real, beta as real, dots, meant);
    GemmedIs(now, was, order, m, n, ldc, alpha as real, beta as real, meant);
  }

  /** `aocl_gemm_s8s8s32of32_sym_quant`: a refused call leaves C alone; any other leaves, in the caller's layout and
      before any post-operation, the sum over groups of A factor times B factor times the group's integer dot product,
      with the factors taken from the caller's own tables. Only C is changed, so the caller's metadata is not. */
  method SymQuantGemm(order: char, transa: char, transb: char, m: int, n: int, k: int, alpha: int, a: IntMem, lda: int,
                      fmtA: char, b: IntMem, ldb: int, fmtB: char, beta: int, c: array<real>, ldc: int, md: Metadata?,
                      blocks: BlockTable, dec: Decoder, postOpsVerdict: Err, preparation: Err, ghost B: IntMatrix)
    returns (err: Err)
    requires blocks.Legal()
    requires ScaleStatus(order, transa, transb, m, n, k, lda, fmtA, ldb, fmtB, ldc, md) == Success && IsCol(order) ==>
      TablesHold(md.aQuantOp, md.bQuantOp, m, n, k)
    requires SymQuantStatus(order, transa, transb, m, n, k, lda, fmtA, ldb, fmtB, ldc, md, postOpsVerdict,
                            preparation) == Success ==>
      && TablesHold(md.aQuantOp, md.bQuantOp, m, n, k)
      && IntRepresents(b, order, transb, ldb, fmtB, k, n, blocks, Defaulted(md.aQuantOp.groupSize, k), B)
      && FitsC(m, n, CStrides(order, ldc).0, CStrides(order, ldc).1, c.Length)
    modifies c
    ensures err == old(SymQuantStatus(order, transa, transb, m, n, k, lda, fmtA, ldb, fmtB, ldc, md, postOpsVerdict,
                                      preparation))
    ensures err != Success ==> c[..] == old(c[..])
    ensures err == Success ==>
      && HasScales(md) && md.aQuantOp.scales.data != null && md.bQuantOp.scales.data != null
      && old(CallerScales(md.aQuantOp, md.bQuantOp, k)).groupSize > 0
      && Gemmed(c[..], old(c[..]), m, n, CStrides(order, ldc).0, CStrides(order, ldc).1, alpha as real, beta as real,
                QuantDots(old(CallerScales(md.aQuantOp, md.bQuantOp, k)), dec, OpMatrix(order, transa, a, lda), B, k,
                          n))
    ensures err == Success ==>
      var now, was := c[..], old(c[..]);
      old(QuantLeaves(now, was, order, transa, transb, m, n, k, alpha, a, lda, b, ldb, fmtB, beta, ldc, md.aQuantOp,
                      md.bQuantOp, blocks, dec))
  {
    hide QuantLeaves, Gemmed, IntRepresents, FitsC, Covers, CallerScales, GemmStatus, TablesHold, QuantDots, Carries,
         ScaleStatus;
    var grp, engineA, engineB;
    ghost var s;
    err, grp, engineA, engineB, s := Admit(order, transa, transb, m, n, k, lda, fmtA, ldb, fmtB, ldc, md,
                                           postOpsVerdict, preparation);
    if err != Success { return; }
    Multiply(order, transa, transb, m, n, k, alpha, a, lda, fmtA, b, ldb, fmtB, beta, c, ldc, grp, engineA, engineB, s,
             blocks, dec, B);
    QuantLeavesIs(c[..], old(c[..]), order, transa, transb, m, n, k, alpha, a, lda, fmtA, b, ldb, fmtB, beta, ldc,
                  md.aQuantOp, md.bQuantOp, blocks, dec, B);
  }
}
