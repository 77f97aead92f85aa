/** The grouped reorder entry points, int8 and four-bit: group-size resolution, size queries, and which layout each
    call produces. */
module GroupedEntry {
  import opened Arith
  import opened CallerTerms
  import opened BufferTerms
  import opened GroupedTerms
  import opened CallMetadata
  import opened Errors
  import opened PanelPack
  import opened ReorderWalk
  import opened ReorderF32
  import opened Words
  import opened ColumnSums
  import opened ColumnReorder
  import opened ColumnWords
  import opened GroupedLayout
  import opened GroupedReorder
  import opened GroupedTeam
  import opened ThreadRange
  import opened GroupedS4
  import opened GroupedFused
  import opened SymQuantGemm

  function OpGroup(op: QuantOp?, k: int): int
    reads op
  {
    Defaulted(if op == null then 0 else op.groupSize, k)
  }

  /** The group size a reorder works with: B's when it has quantisation metadata, A's otherwise. */
  function GroupSizeOf(md: Metadata, k: int): int
    reads md, QuantOps(md)
  {
    if md.bQuantOp != null then OpGroup(md.bQuantOp, k) else OpGroup(md.aQuantOp, k)
  }

  function GroupSizeStatus(md: Metadata?, k: int): Err
    reads md, QuantOps(md)
  {
    if md == null then NullPointer
    else if md.aQuantOp != null && md.aQuantOp.kind != Quantize then NotSupported
    else if md.bQuantOp != null && md.bQuantOp.kind != Quantize then NotSupported
    else if md.aQuantOp != null && md.bQuantOp != null && OpGroup(md.aQuantOp, k) != OpGroup(md.bQuantOp, k) then
      InvalidGroupDimension
    else if GroupSizeOf(md, k) <= 0 || GroupSizeOf(md, k) > k then InvalidGroupDimension
    else if GroupSizeOf(md, k) != k && GroupSizeOf(md, k) % 4 != 0 then InvalidGroupDimension
    else Success
  }

  /** gs is a group size the caller's metadata asks for, 0 standing for the whole of k: each operand that carries
      metadata quantises and asks for it, and with neither there it is k. */
  predicate AsksFor(md: Metadata?, k: int, gs: int)
    reads md, QuantOps(md)
  {
    && md != null && 0 < gs <= k && (gs == k || gs % 4 == 0)
    && (md.aQuantOp != null ==>
          md.aQuantOp.kind == Quantize && (md.aQuantOp.groupSize == gs || (md.aQuantOp.groupSize == 0 && gs == k)))
    && (md.bQuantOp != null ==>
          md.bQuantOp.kind == Quantize && (md.bQuantOp.groupSize == gs || (md.bQuantOp.groupSize == 0 && gs == k)))
    && (md.aQuantOp == null && md.bQuantOp == null ==> gs == k)
  }

  /** Metadata is accepted exactly when it asks for a group size, which is then the only one it asks for. */
  lemma GroupSizeIff(md: Metadata?, k: int, gs: int)
    ensures GroupSizeStatus(md, k) == Success <==> md != null && AsksFor(md, k, GroupSizeOf(md, k))
    ensures AsksFor(md, k, gs) ==> md != null && gs == GroupSizeOf(md, k)
    ensures GroupSizeStatus(md, k) == NullPointer <==> md == null
    ensures GroupSizeStatus(md, k) == NotSupported <==>
      && md != null
      && ((md.aQuantOp != null && md.aQuantOp.kind != Quantize) ||
          (md.bQuantOp != null && md.bQuantOp.kind != Quantize))
    ensures GroupSizeStatus(md, k) in {Success, NullPointer, NotSupported, InvalidGroupDimension}
  {
  }

  /** `dlp_get_sym_quant_group_size_from_metadata`. */
  method ResolveGroupSize(md: Metadata?, k: int) returns (err: Err, groupSize: int)
    ensures err == GroupSizeStatus(md, k) && (err == Success ==> groupSize == GroupSizeOf(md, k))
    ensures if err == Success then AsksFor(md, k, groupSize) else forall gs :: !AsksFor(md, k, gs)
  {
    forall gs ensures AsksFor(md, k, gs) ==> md != null && gs == GroupSizeOf(md, k) { GroupSizeIff(md, k, gs); }
    groupSize := 0;
    if md == null { return NullPointer, groupSize; }
    if (md.aQuantOp != null && md.aQuantOp.kind != Quantize) || (md.bQuantOp != null && md.bQuantOp.kind != Quantize) {
      return NotSupported, groupSize;
    }
    var aGroupSize := if md.aQuantOp != null then md.aQuantOp.groupSize else 0;
    var bGroupSize := if md.bQuantOp != null then md.bQuantOp.groupSize else 0;
    if aGroupSize == 0 { aGroupSize := k; }
    if bGroupSize == 0 { bGroupSize := k; }
    if md.aQuantOp != null && md.bQuantOp != null && aGroupSize != bGroupSize {
      return InvalidGroupDimension, groupSize;
    }
    var gs := if md.bQuantOp != null then bGroupSize else aGroupSize;
    if gs <= 0 || gs > k { return InvalidGroupDimension, groupSize; }
    if gs != k && gs % 4 != 0 { return InvalidGroupDimension, groupSize; }
    return Success, gs;
  }

  /** Metadata the quantised GEMM accepts is accepted by the reorder, with the same group size. */
  lemma ReorderAndGemmGroups(md: Metadata, m: int, n: int, k: int)
    requires k > 0 && HasScales(md) && TranslateStatus(md.aQuantOp, md.bQuantOp, m, n, k) == Success
    ensures GroupSizeStatus(md, k) == Success
    ensures md.aQuantOp.scales.data != null && md.bQuantOp.scales.data != null ==>
              CallerScales(md.aQuantOp, md.bQuantOp, k).groupSize == GroupSizeOf(md, k)
  {
  }

  function GroupedStatus(check: Err, matType: char, md: Metadata?, k: int): Err
    reads md, QuantOps(md)
  {
    if check != Success then check
    else if IsA(matType) then NotSupported
    else GroupSizeStatus(md, k)
  }

  /** A size query goes ahead exactly with good arguments, a matrix type other than A and metadata that asks for a group
      size. */
  lemma QueryAcceptsIff(order: char, trans: char, matType: char, k: int, n: int, md: Metadata?)
    ensures GroupedStatus(SizeCheck(order, trans, matType, k, n), matType, md, k) == Success <==>
      && GoodSizeArgs(order, trans, matType, k, n) && matType in {'b', 'B', 'w', 'W'}
      && exists gs :: AsksFor(md, k, gs)
    ensures var e := SizeCheck(order, trans, matType, k, n);
      var s := GroupedStatus(e, matType, md, k);
      s == if e != Success then e else if matType in {'a', 'A'} then NotSupported else GroupSizeStatus(md, k)
  {
    hide AsksFor, GroupSizeOf, GroupSizeStatus;
    ReorderCheckIff(order, trans, matType, k, n, 1);
    forall gs | AsksFor(md, k, gs) ensures md != null && gs == GroupSizeOf(md, k) { GroupSizeIff(md, k, gs); }
    GroupSizeIff(md, k, k);
  }

  /** Bytes the int8 entry points lay out: the tight column, or panels and a table of sums. */
  function LayoutBytes(k: int, n: int, blocks: BlockTable, groupSize: int): int
    requires blocks.Legal() && GroupSize(groupSize, k) && n > 0
  {
    GroupedPlan(k, n, blocks, groupSize);
    if Tight(n, k, blocks.KC, groupSize) then ColumnBytes(k, groupSize)
    else WideBytes(GroupedShape(k, n, blocks, groupSize), groupSize)
  }

  /** ... and the four-bit ones: the same tight column, or panels two weights to a byte. */
  function CompactLayoutBytes(k: int, n: int, blocks: BlockTable, groupSize: int): int
    requires blocks.Legal() && GroupSize(groupSize, k) && n > 0
  {
    GroupedPlan(k, n, blocks, groupSize);
    if Tight(n, k, blocks.KC, groupSize) then ColumnBytes(k, groupSize)
    else CompactBytes(GroupedShape(k, n, blocks, groupSize), groupSize)
  }

  /** `aocl_get_reorder_buf_size_s8s8s32os32_sym_quant`: exactly the bytes the reorder lays out, none of its unchecked
      products wrapping. */
  method SymQuantSizeQuery(order: char, trans: char, matType: char, k: int, n: int, md: Metadata?, blocks: BlockTable)
    returns (err: Err, bytes: int)
    requires blocks.Legal()
    ensures err == GroupedStatus(SizeCheck(order, trans, matType, k, n), matType, md, k)
    ensures err == Success ==> 0 < bytes == LayoutBytes(k, n, blocks, GroupSizeOf(md, k)) && bytes <= MSZ_MAX
    ensures err != Success ==> bytes == 0
    ensures err == Success <==>
      && GoodSizeArgs(order, trans, matType, k, n) && matType in {'b', 'B', 'w', 'W'}
      && exists gs :: AsksFor(md, k, gs)
  {
    QueryAcceptsIff(order, trans, matType, k, n, md);
    hide NumGroups, RoundUp, AlignKc;
    bytes := 0;
    err := SizeCheck(order, trans, matType, k, n);
    if err != Success { return; }
    if IsA(matType) { return NotSupported, 0; }
    var groupSize;
    err, groupSize := ResolveGroupSize(md, k);
    if err != Success { return; }
    var kcGemv := AlignKc(blocks.KC, groupSize);
    var kc := if groupSize == k then blocks.KC else AlignKc(blocks.KC, groupSize);
    var numGroups := NumGroups(k, groupSize);
    TightFits(k, groupSize);
    GroupedPlan(k, n, blocks, groupSize);
    WideBytesFit(GroupedShape(k, n, blocks, groupSize), groupSize);
    if n == 1 && k % groupSize == 0 && kcGemv % groupSize == 0 {
      return Success, RoundUp(k, 4) + numGroups * 4;
    }
    var nReorder, kReorder := RoundUp(n, 16), RoundUp(k, 4);
    var sumVecs := if groupSize == k then NumGroups(k, kc) else NumGroups(k, groupSize);
    bytes := nReorder * kReorder + 4 * (sumVecs * nReorder);
  }

  /** `aocl_get_reorder_buf_size_s8s4s32os32`, likewise. */
  method S4SizeQuery(order: char, trans: char, matType: char, k: int, n: int, md: Metadata?, blocks: BlockTable)
    returns (err: Err, bytes: int)
    requires blocks.Legal()
    ensures err == GroupedStatus(SizeCheck(order, trans, matType, k, n), matType, md, k)
    ensures err == Success ==> 0 < bytes == CompactLayoutBytes(k, n, blocks, GroupSizeOf(md, k)) && bytes <= MSZ_MAX
    ensures err != Success ==> bytes == 0
    ensures err == Success <==>
      && GoodSizeArgs(order, trans, matType, k, n) && matType in {'b', 'B', 'w', 'W'}
      && exists gs :: AsksFor(md, k, gs)
  {
    QueryAcceptsIff(order, trans, matType, k, n, md);
    hide NumGroups, RoundUp, AlignKc;
    bytes := 0;
    err := SizeCheck(order, trans, matType, k, n);
    if err != Success { return; }
    if IsA(matType) { return NotSupported, 0; }
    var groupSize;
    err, groupSize := ResolveGroupSize(md, k);
    if err != Success { return; }
    var numGroups := NumGroups(k, groupSize);
    var alignedKc := AlignKc(blocks.KC, groupSize);
    TightFits(k, groupSize);
    GroupedPlan(k, n, blocks, groupSize);
    WideBytesFit(GroupedShape(k, n, blocks, groupSize), groupSize);
    WideFacts(GroupedShape(k, n, blocks, groupSize), groupSize);
    if n == 1 && k % groupSize == 0 && alignedKc % groupSize == 0 {
      return Success, RoundUp(k, 4) + numGroups * 4;
    }
    var nReorder, kReorder := RoundUp(n, 16), RoundUp(k, 4);
    var sumVecs := if groupSize == k then NumGroups(k, blocks.KC) else NumGroups(k, groupSize);
    bytes := nReorder * kReorder / 2 + 4 * (sumVecs * nReorder);
  }

  lemma TightFits(k: int, groupSize: int)
    requires 0 < groupSize <= k <= MAX_DIM
    ensures 0 < ColumnBytes(k, groupSize) <= MSZ_MAX
  {
    hide NumGroups;
    OffsetFacts(k);
    SlotCount(k, groupSize);
    MulLe(1, groupSize, NumGroups(k, groupSize) - 1);
  }

  /** The reorders look at the group size before the other arguments. */
  function GroupedReorderStatus(order: char, trans: char, matType: char, k: int, n: int, ldb: int, md: Metadata?): Err
    reads md, QuantOps(md)
  {
    var e := GroupSizeStatus(md, k);
    if e != Success then e
    else if ReorderCheck(order, trans, matType, k, n, ldb) != Success then
      ReorderCheck(order, trans, matType, k, n, ldb)
    else if IsA(matType) then NotSupported
    else Success
  }

  /** Whatever a reorder accepts, its size query accepts. */
  lemma QueryCoversReorder(order: char, trans: char, matType: char, k: int, n: int, ldb: int, md: Metadata?)
    ensures GroupedReorderStatus(order, trans, matType, k, n, ldb, md) == Success <==>
      && GroupedStatus(SizeCheck(order, trans, matType, k, n), matType, md, k) == Success
      && !BadLd(order, trans, ldb, k, n)
  {
  }

  /** A reorder goes ahead exactly then, given a leading dimension that is long enough. */
  lemma ReorderAcceptsIff(order: char, trans: char, matType: char, k: int, n: int, ldb: int, md: Metadata?)
    ensures GroupedReorderStatus(order, trans, matType, k, n, ldb, md) == Success <==>
      && GoodSizeArgs(order, trans, matType, k, n) && GoodLd(order, trans, ldb, k, n)
      && matType in {'b', 'B', 'w', 'W'} && exists gs :: AsksFor(md, k, gs)
    ensures var g, e := GroupSizeStatus(md, k), ReorderCheck(order, trans, matType, k, n, ldb);
      var s := GroupedReorderStatus(order, trans, matType, k, n, ldb, md);
      s == if g != Success then g else if e != Success then e
           else if matType in {'a', 'A'} then NotSupported else Success
  {
    hide AsksFor, GroupSizeOf, GroupSizeStatus, BadLd, GoodLd;
    QueryAcceptsIff(order, trans, matType, k, n, md);
    ReorderCheckIff(order, trans, matType, k, n, ldb);
  }

  /** What a grouped int8 reorder leaves, in either layout. */
  ghost predicate GroupedB(now: seq<Byte>, was: seq<Byte>, k: int, n: int, blocks: BlockTable, groupSize: int,
                           input: seq<Int8>, rs: int, cs: int)
    requires blocks.Legal() && GroupSize(groupSize, k) && n > 0
  {
    GroupedPlan(k, n, blocks, groupSize);
    if Tight(n, k, blocks.KC, groupSize) then
      Strided(|input|, k, rs) && now == Laid(was, Gathered(input, k, rs), groupSize)
    else
      && Matrix(AsBytes(input), rs, cs, 0).Holds(k, n)
      && GroupReordered(now, was, GroupedShape(k, n, blocks, groupSize), groupSize, Matrix(AsBytes(input), rs, cs, 0))
  }

  /** That in the caller's terms: one column of whole groups, or panels, the elements of op(B) and their sums. */
  ghost predicate GroupedInTerms(now: seq<Byte>, was: seq<Byte>, k: int, n: int, blocks: BlockTable, gs: int,
                                 W: (int, int) -> int)
    requires blocks.Legal() && GroupSize(gs, k) && n > 0
  {
    PanelsAre(k, n, blocks, gs);
    if n == 1 && k % gs == 0 then ColumnLaid(now, was, k, gs, W)
    else PanelsLaid(now, was, Panels(k, n, blocks.NR, blocks.NC, blocks.KC, gs), if gs == k then blocks.KC else gs, W)
  }

  lemma GroupedBIs(now: seq<Byte>, was: seq<Byte>, k: int, n: int, blocks: BlockTable, gs: int, input: seq<Int8>,
                   order: char, trans: char, ld: int)
    requires blocks.Legal() && GroupSize(gs, k) && n > 0 && Formed(order, trans)
    requires LayoutBytes(k, n, blocks, gs) <= |was|
    requires GroupedB(now, was, k, n, blocks, gs, input, PlainStrides(order, trans, ld).0,
                      PlainStrides(order, trans, ld).1)
    ensures GroupedInTerms(now, was, k, n, blocks, gs, Int8s(input, order, trans, ld))
  {
    hide PlainStrides, Laid, ColumnLaid, PanelsLaid, AlignKc, GroupReordered, Int8s, WideBytes, ColumnBytes;
    TightIff(n, k, blocks.KC, gs);
    PanelsAre(k, n, blocks, gs);
    GroupedPlan(k, n, blocks, gs);
    if Tight(n, k, blocks.KC, gs) {
      TightInTerms(now, was, k, gs, input, order, trans, ld);
    } else {
      WideInTerms(now, was, GroupedShape(k, n, blocks, gs), gs, input, order, trans, ld);
    }
  }

  /** ... and when, in the wide layout, threads were missing: the columns before hi. */
  ghost predicate GroupedBTo(now: seq<Byte>, was: seq<Byte>, k: int, n: int, blocks: BlockTable, groupSize: int,
                             input: seq<Int8>, rs: int, cs: int, hi: int)
    requires blocks.Legal() && GroupSize(groupSize, k) && n > 0
  {
    GroupedPlan(k, n, blocks, groupSize);
    && Matrix(AsBytes(input), rs, cs, 0).Holds(k, n)
    && GroupedTo(now, was, GroupedShape(k, n, blocks, groupSize), groupSize, Matrix(AsBytes(input), rs, cs, 0), hi)
  }

  lemma S8Laid(now: seq<Byte>, was: seq<Byte>, k: int, n: int, blocks: BlockTable, gs: int, input: seq<Int8>,
               order: char, trans: char, ld: int, matType: char)
    requires blocks.Legal() && GroupSize(gs, k) && n > 0 && LayoutBytes(k, n, blocks, gs) <= |was|
    requires ReorderCheck(order, trans, matType, k, n, ld) == Success
    ensures GroupedB(now, was, k, n, blocks, gs, input, PlainStrides(order, trans, ld).0,
                     PlainStrides(order, trans, ld).1)
            ==> GroupedInTerms(now, was, k, n, blocks, gs, Int8s(input, order, trans, ld))
    ensures n == 1 && k % gs == 0 <==> Tight(n, k, blocks.KC, gs)
  {
    hide GroupedB, GroupedInTerms, LayoutBytes, AlignKc;
    TightIff(n, k, blocks.KC, gs);
    if GroupedB(now, was, k, n, blocks, gs, input, PlainStrides(order, trans, ld).0,
                PlainStrides(order, trans, ld).1)
    {
      GroupedBIs(now, was, k, n, blocks, gs, input, order, trans, ld);
    }
  }

  /** The two layouts, once the arguments are accepted. */
  method LayGrouped(order: char, trans: char, matType: char, input: seq<Int8>, buf: array<Byte>, k: int, n: int,
                    ldb: int, groupSize: int, blocks: BlockTable, nThreads: int, team: int)
    returns (ghost exact: bool)
    requires blocks.Legal() && 1 <= team <= Ways(nThreads) && GroupSize(groupSize, k)
    requires ReorderCheck(order, trans, matType, k, n, ldb) == Success
    requires InputHolds(|input|, k, n, PlainStrides(order, trans, ldb).0, PlainStrides(order, trans, ldb).1)
    requires LayoutBytes(k, n, blocks, groupSize) <= buf.Length
    modifies buf
    ensures Tight(n, k, blocks.KC, groupSize) || Suffices(Ways(nThreads), team, n, blocks.NR)
            ==> GroupedB(buf[..], old(buf[..]), k, n, blocks, groupSize, input,
                         PlainStrides(order, trans, ldb).0, PlainStrides(order, trans, ldb).1)
    ensures !Tight(n, k, blocks.KC, groupSize) ==>
              GroupedBTo(buf[..], old(buf[..]), k, n, blocks, groupSize, input,
                         PlainStrides(order, trans, ldb).0, PlainStrides(order, trans, ldb).1,
                         TaskRange(Ways(nThreads), team - 1, n, blocks.NR).1)
    ensures groupSize <= 131072 && Tight(n, k, blocks.KC, groupSize) ==> exact
  {
    hide Addr, Laid, ColumnBytes, WideBytes, GroupReordered, GroupedTo, TaskRange, Suffices;
    exact := true;
    var (rs, cs) := PlainStrides(order, trans, ldb);
    var alignedKc := AlignKc(blocks.KC, groupSize);
    if n == 1 && k % groupSize == 0 && alignedKc % groupSize == 0 {
      FirstColumn(k, rs, cs);
      exact := GroupedColumn(input, buf, k, rs, groupSize);
      return;
    }
    GroupedPlan(k, n, blocks, groupSize);
    ReorderGrouped(buf, GroupedShape(k, n, blocks, groupSize), Matrix(AsBytes(input), rs, cs, 0), groupSize, nThreads,
                   team);
  }

  /** `aocl_reorder_s8s8s32os32_sym_quant`: the tight layout on the calls for which the query reports it, panels and
      group sums on all others, there by the first `team` of the threads asked for. */
  method ReorderSymQuant(order: char, trans: char, matType: char, input: seq<Int8>, buf: array<Byte>, k: int, n: int,
                         ldb: int, md: Metadata?, blocks: BlockTable, nThreads: int, team: int)
    returns (err: Err, ghost exact: bool)
    requires blocks.Legal() && 1 <= team <= Ways(nThreads)
    requires GroupedReorderStatus(order, trans, matType, k, n, ldb, md) == Success ==>
      && InputHolds(|input|, k, n, PlainStrides(order, trans, ldb).0, PlainStrides(order, trans, ldb).1)
      && LayoutBytes(k, n, blocks, GroupSizeOf(md, k)) <= buf.Length
    modifies buf
    ensures err == GroupedReorderStatus(order, trans, matType, k, n, ldb, md)
    ensures err == Success <==>
      && GoodSizeArgs(order, trans, matType, k, n) && GoodLd(order, trans, ldb, k, n)
      && matType in {'b', 'B', 'w', 'W'} && old(exists gs :: AsksFor(md, k, gs))
    ensures err != Success ==> buf[..] == old(buf[..])
    ensures err == Success &&
            (Tight(n, k, blocks.KC, GroupSizeOf(md, k)) || Suffices(Ways(nThreads), team, n, blocks.NR))
            ==> GroupedB(buf[..], old(buf[..]), k, n, blocks, GroupSizeOf(md, k), input,
                         PlainStrides(order, trans, ldb).0, PlainStrides(order, trans, ldb).1)
    ensures err == Success && !Tight(n, k, blocks.KC, GroupSizeOf(md, k)) ==>
              GroupedBTo(buf[..], old(buf[..]), k, n, blocks, GroupSizeOf(md, k), input,
                         PlainStrides(order, trans, ldb).0, PlainStrides(order, trans, ldb).1,
                         TaskRange(Ways(nThreads), team - 1, n, blocks.NR).1)
    ensures err == Success && ((n == 1 && k % GroupSizeOf(md, k) == 0) || team == (if nThreads > 0 then nThreads else 1)
                                || (n % blocks.NR == 0 && n / blocks.NR <= team))
            ==> GroupedInTerms(buf[..], old(buf[..]), k, n, blocks, GroupSizeOf(md, k), Int8s(input, order, trans, ldb))
    ensures err == Success && GroupSizeOf(md, k) <= 131072 && Tight(n, k, blocks.KC, GroupSizeOf(md, k)) ==> exact
  {
    hide GroupedB, GroupedBTo, GroupedInTerms, LayoutBytes, TaskRange, AsksFor, BadLd, GoodLd, GoodSizeArgs,
         Tight, InputHolds, PlainStrides;
    exact := true;
    ReorderAcceptsIff(order, trans, matType, k, n, ldb, md);
    var groupSize;
    err, groupSize := ResolveGroupSize(md, k);
    if err != Success { return; }
    err := ReorderCheck(order, trans, matType, k, n, ldb);
    if err != Success { return; }
    if IsA(matType) { err := NotSupported; return; }
    GroupSizeIff(md, k, groupSize);
    exact := LayGrouped(order, trans, matType, input, buf, k, n, ldb, groupSize, blocks, nThreads, team);
    S8Laid(buf[..], old(buf[..]), k, n, blocks, groupSize, input, order, trans, ldb, matType);
  }

  /** What the four-bit reorder leaves, in either layout. */
  ghost predicate GroupedS4B(now: seq<Byte>, was: seq<Byte>, k: int, n: int, blocks: BlockTable, groupSize: int,
                             src: seq<bv8>, rs: int, cs: int)
    requires blocks.Legal() && GroupSize(groupSize, k) && n > 0
  {
    GroupedPlan(k, n, blocks, groupSize);
    if Tight(n, k, blocks.KC, groupSize) then
      StridedNibbles(|src|, k, rs) && now == Laid(was, Widened(src, k, rs), groupSize)
    else
      && HoldsNibbles(|src|, k, n, rs, cs)
      && CompactReordered(now, was, GroupedShape(k, n, blocks, groupSize), groupSize, src, rs, cs)
  }

  /** That in the caller's terms. */
  ghost predicate GroupedS4InTerms(now: seq<Byte>, was: seq<Byte>, k: int, n: int, blocks: BlockTable, gs: int,
                                  W: (int, int) -> int)
    requires blocks.Legal() && GroupSize(gs, k) && n > 0
  {
    PanelsAre(k, n, blocks, gs);
    if n == 1 && k % gs == 0 then ColumnLaid(now, was, k, gs, W)
    else HalvesLaid(now, was, Panels(k, n, blocks.NR, blocks.NC, blocks.KC, gs), if gs == k then blocks.KC else gs, W)
  }

  lemma GroupedS4BIs(now: seq<Byte>, was: seq<Byte>, k: int, n: int, blocks: BlockTable, gs: int, src: seq<bv8>,
                     order: char, trans: char, ld: int)
    requires blocks.Legal() && GroupSize(gs, k) && n > 0 && Formed(order, trans)
    requires CompactLayoutBytes(k, n, blocks, gs) <= |was|
    requires GroupedS4B(now, was, k, n, blocks, gs, src, PlainStrides(order, trans, ld).0,
                        PlainStrides(order, trans, ld).1)
    ensures GroupedS4InTerms(now, was, k, n, blocks, gs, Int4s(src, order, trans, ld))
  {
    hide PlainStrides, Laid, ColumnLaid, HalvesLaid, AlignKc, CompactReordered, Int4s, CompactBytes, ColumnBytes;
    TightIff(n, k, blocks.KC, gs);
    PanelsAre(k, n, blocks, gs);
    GroupedPlan(k, n, blocks, gs);
    if Tight(n, k, blocks.KC, gs) {
      TightHalvesInTerms(now, was, k, gs, src, order, trans, ld);
    } else {
      CompactInTerms(now, was, GroupedShape(k, n, blocks, gs), gs, src, order, trans, ld);
    }
  }

  /** ... and when, in the wide layout, threads were missing. */
  ghost predicate GroupedS4To(now: seq<Byte>, was: seq<Byte>, k: int, n: int, blocks: BlockTable, groupSize: int,
                              src: seq<bv8>, rs: int, cs: int, hi: int)
    requires blocks.Legal() && GroupSize(groupSize, k) && n > 0
  {
    GroupedPlan(k, n, blocks, groupSize);
    && HoldsNibbles(|src|, k, n, rs, cs)
    && CompactOnly(now, was, GroupedShape(k, n, blocks, groupSize), groupSize, src, rs, cs, hi)
  }

  lemma S4Laid(now: seq<Byte>, was: seq<Byte>, k: int, n: int, blocks: BlockTable, gs: int, src: seq<bv8>,
               order: char, trans: char, ld: int, matType: char)
    requires blocks.Legal() && GroupSize(gs, k) && n > 0 && CompactLayoutBytes(k, n, blocks, gs) <= |was|
    requires ReorderCheck(order, trans, matType, k, n, ld) == Success
    ensures GroupedS4B(now, was, k, n, blocks, gs, src, PlainStrides(order, trans, ld).0,
                       PlainStrides(order, trans, ld).1)
            ==> GroupedS4InTerms(now, was, k, n, blocks, gs, Int4s(src, order, trans, ld))
    ensures n == 1 && k % gs == 0 <==> Tight(n, k, blocks.KC, gs)
  {
    hide GroupedS4B, GroupedS4InTerms, CompactLayoutBytes, AlignKc;
    TightIff(n, k, blocks.KC, gs);
    if GroupedS4B(now, was, k, n, blocks, gs, src, PlainStrides(order, trans, ld).0, PlainStrides(order, trans, ld).1) {
      GroupedS4BIs(now, was, k, n, blocks, gs, src, order, trans, ld);
    }
  }

  /** The two layouts, once the arguments are accepted. */
  method LayS4(order: char, trans: char, matType: char, src: seq<bv8>, buf: array<Byte>, k: int, n: int, ldb: int,
               groupSize: int, blocks: BlockTable, nThreads: int, team: int) returns (ghost exact: bool)
    requires blocks.Legal() && 1 <= team <= Ways(nThreads) && GroupSize(groupSize, k)
    requires ReorderCheck(order, trans, matType, k, n, ldb) == Success
    requires HoldsNibbles(|src|, k, n, PlainStrides(order, trans, ldb).0, PlainStrides(order, trans, ldb).1)
    requires CompactLayoutBytes(k, n, blocks, groupSize) <= buf.Length
    modifies buf
    ensures Tight(n, k, blocks.KC, groupSize) || Suffices(Ways(nThreads), team, n, blocks.NR)
            ==> GroupedS4B(buf[..], old(buf[..]), k, n, blocks, groupSize, src,
                           PlainStrides(order, trans, ldb).0, PlainStrides(order, trans, ldb).1)
    ensures !Tight(n, k, blocks.KC, groupSize) ==>
              GroupedS4To(buf[..], old(buf[..]), k, n, blocks, groupSize, src,
                          PlainStrides(order, trans, ldb).0, PlainStrides(order, trans, ldb).1,
                          TaskRange(Ways(nThreads), team - 1, n, blocks.NR).1)
    ensures groupSize <= 2097152 && Tight(n, k, blocks.KC, groupSize) ==> exact
  {
    hide Addr, Laid, ColumnBytes, CompactBytes, CompactTo, CompactOnly, TaskRange, Suffices;
    exact := true;
    var (rs, cs) := PlainStrides(order, trans, ldb);
    var alignedKc := AlignKc(blocks.KC, groupSize);
    if n == 1 && k % groupSize == 0 && alignedKc % groupSize == 0 {
      FirstColumn(k, rs, cs);
      exact := NibbleColumn(src, buf, k, rs, groupSize);
      return;
    }
    GroupedPlan(k, n, blocks, groupSize);
    ReorderFused(buf, GroupedShape(k, n, blocks, groupSize), groupSize, src, rs, cs, nThreads, team);
  }

  /** `aocl_reorder_s8s4s32os32`, likewise; strides count nibbles. */
  method ReorderS4(order: char, trans: char, matType: char, src: seq<bv8>, buf: array<Byte>, k: int, n: int, ldb: int,
                   md: Metadata?, blocks: BlockTable, nThreads: int, team: int) returns (err: Err, ghost exact: bool)
    requires blocks.Legal() && 1 <= team <= Ways(nThreads)
    requires GroupedReorderStatus(order, trans, matType, k, n, ldb, md) == Success ==>
      && HoldsNibbles(|src|, k, n, PlainStrides(order, trans, ldb).0, PlainStrides(order, trans, ldb).1)
      && CompactLayoutBytes(k, n, blocks, GroupSizeOf(md, k)) <= buf.Length
    modifies buf
    ensures err == GroupedReorderStatus(order, trans, matType, k, n, ldb, md)
    ensures err == Success <==>
      && GoodSizeArgs(order, trans, matType, k, n) && GoodLd(order, trans, ldb, k, n)
      && matType in {'b', 'B', 'w', 'W'} && old(exists gs :: AsksFor(md, k, gs))
    ensures err != Success ==> buf[..] == old(buf[..])
    ensures err == Success &&
            (Tight(n, k, blocks.KC, GroupSizeOf(md, k)) || Suffices(Ways(nThreads), team, n, blocks.NR))
            ==> GroupedS4B(buf[..], old(buf[..]), k, n, blocks, GroupSizeOf(md, k), src,
                           PlainStrides(order, trans, ldb).0, PlainStrides(order, trans, ldb).1)
    ensures err == Success && !Tight(n, k, blocks.KC, GroupSizeOf(md, k)) ==>
              GroupedS4To(buf[..], old(buf[..]), k, n, blocks, GroupSizeOf(md, k), src,
                          PlainStrides(order, trans, ldb).0, PlainStrides(order, trans, ldb).1,
                          TaskRange(Ways(nThreads), team - 1, n, blocks.NR).1)
    ensures err == Success && ((n == 1 && k % GroupSizeOf(md, k) == 0) || team == (if nThreads > 0 then nThreads else 1)
                                || (n % blocks.NR == 0 && n / blocks.NR <= team))
            ==> GroupedS4InTerms(buf[..], old(buf[..]), k, n, blocks, GroupSizeOf(md, k),
                                 Int4s(src, order, trans, ldb))
    ensures err == Success && GroupSizeOf(md, k) <= 2097152 && Tight(n, k, blocks.KC, GroupSizeOf(md, k)) ==> exact
  {
    hide GroupedS4B, GroupedS4To, GroupedS4InTerms, CompactLayoutBytes, TaskRange, AsksFor, BadLd, GoodLd,
         GoodSizeArgs, Tight, HoldsNibbles, PlainStrides;
    exact := true;
    ReorderAcceptsIff(order, trans, matType, k, n, ldb, md);
    var groupSize;
    err, groupSize := ResolveGroupSize(md, k);
    if err != Success { return; }
    err := ReorderCheck(order, trans, matType, k, n, ldb);
    if err != Success { return; }
    if IsA(matType) { err := NotSupported; return; }
    GroupSizeIff(md, k, groupSize);
    exact := LayS4(order, trans, matType, src, buf, k, n, ldb, groupSize, blocks, nThreads, team);
    S4Laid(buf[..], old(buf[..]), k, n, blocks, groupSize, src, order, trans, ldb, matType);
  }
}
