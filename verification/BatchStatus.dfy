/** The group loop of the batch entry points: how far it gets, which matrices it computes, and what each group's
    metadata reports, under the eager pre-pass and under lazy tail-marking. */
module BatchStatus {
  import opened Arith
  import opened CallerTerms
  import opened Errors
  import opened CallMetadata
  import opened StridedGemm

  /** DLP_METADATA_SET_ERROR. */
  method SetError(md: Metadata?, err: Err)
    modifies (if md == null then {} else {md})`code
    ensures md != null ==> md.code == err
  {
    if md != null { md.code := err; }
  }

  const MAX_GROUP_SIZE := 0x7FFF_FFFF

  /** Which entry point runs the batch: f32 sets every status beforehand, int8 marks the tail on the way out. */
  datatype Protocol = Eager | Lazy

  /** A group's arguments, its number of matrices, the verdict on its post-operations, and the verdict of what
      comes between the refusals and the dispatch. */
  datatype Group = Group(order: char, transa: char, transb: char, m: int, n: int, k: int, lda: int, fmtA: char,
                         ldb: int, fmtB: char, ldc: int, size: int, postOps: Err, preparation: Err)

  /** The groups, and the callers' flat arrays of matrix pointers as to which entries are not null. */
  datatype Batch = Batch(groups: seq<Group>, a: seq<bool>, b: seq<bool>, c: seq<bool>) {
    /** Entries 0 .. hi - 1 of all three arrays exist. */
    predicate Has(hi: int) { hi <= |a| && hi <= |b| && hi <= |c| }

    predicate Present(i: int)
      requires 0 <= i && Has(i + 1)
    {
      a[i] && b[i] && c[i]
    }

    /** Every matrix and every group has its entries. With no empty group the second part follows. */
    predicate Listed() { Has(Offset(groups, |groups|)) && Has(|groups|) }
  }

  /** Matrices of the groups before g. */
  function Offset(groups: seq<Group>, g: int): (x: int)
    requires 0 <= g <= |groups|
    ensures x >= 0
  {
    if g == 0 then 0 else Offset(groups, g - 1) + (if groups[g - 1].size > 0 then groups[g - 1].size else 0)
  }

  lemma {:induction false} OffsetMonotone(groups: seq<Group>, g: int, h: int)
    requires 0 <= g <= h <= |groups|
    ensures Offset(groups, g) <= Offset(groups, h)
    decreases h - g
  {
    if g < h { OffsetMonotone(groups, g, h - 1); }
  }

  predicate BadSize(size: int) { size <= 0 || size > MAX_GROUP_SIZE }

  /** AOCL_DLP_BATCH_GEMM_CHECK on a group, the three pointers at its own index, and a number of groups. */
  function BatchCheck(gr: Group, a: bool, b: bool, c: bool, count: int): Err {
    if !IsRow(gr.order) && !IsCol(gr.order) then InvalidOrder
    else if !IsNoTrans(gr.transa) && !IsTrans(gr.transa) then InvalidTranspose
    else if !IsNoTrans(gr.transb) && !IsTrans(gr.transb) then InvalidTranspose
    else if BadDim(gr.m) || BadDim(gr.n) || BadDim(gr.k) then InvalidMatrixDimension
    else if !a then NullPointer
    else if BadLd(gr.order, gr.transa, gr.lda, gr.m, gr.k) then InvalidLeadingDimension
    else if BadTag(gr.fmtA) then InvalidMemoryTag
    else if !b then NullPointer
    else if BadLd(gr.order, gr.transb, gr.ldb, gr.k, gr.n) then InvalidLeadingDimension
    else if BadTag(gr.fmtB) then InvalidMemoryTag
    else if !c then NullPointer
    else if IsRow(gr.order) && gr.ldc < gr.n then InvalidLeadingDimension
    else if IsCol(gr.order) && gr.ldc < gr.m then InvalidLeadingDimension
    else if gr.ldc > MAX_DIM then InvalidLeadingDimension
    else if BadSize(gr.size) then InvalidGroupDimension
    else if count < 0 || count > MAX_GROUP_SIZE then InvalidGroupDimension
    else Success
  }

  /** What is checked as the number of groups: the f32 loop passes the group's index, the int8 loop the count. */
  function CheckedCount(batch: Batch, protocol: Protocol, g: int): int {
    if protocol == Eager then g else |batch.groups|
  }

  /** What the rewriting refuses: reordered operands, and by the int8 loop column-major order with metadata. */
  predicate Refused(protocol: Protocol, gr: Group, md: Metadata?) {
    (protocol == Lazy && IsCol(gr.order) && md != null) || RefusesReordered(gr.order, gr.fmtA, gr.fmtB)
  }

  /** All pointers of group g's range of the flat arrays are there. */
  predicate RangePresent(batch: Batch, g: int)
    requires batch.Listed() && 0 <= g < |batch.groups|
  {
    OffsetMonotone(batch.groups, g + 1, |batch.groups|);
    forall i :: Offset(batch.groups, g) <= i < Offset(batch.groups, g + 1) ==> batch.Present(i)
  }

  /** What happens to group g when the loop reaches it. */
  function Outcome(batch: Batch, metadata: seq<Metadata?>, protocol: Protocol, g: int): Err
    requires batch.Listed() && 0 <= g < |batch.groups| == |metadata|
  {
    var gr := batch.groups[g];
    var e := BatchCheck(gr, batch.a[g], batch.b[g], batch.c[g], CheckedCount(batch, protocol, g));
    if e != Success then e
    else if !RangePresent(batch, g) then NullPointer
    else if gr.postOps != Success then gr.postOps
    else if Refused(protocol, gr, metadata[g]) then NotSupported
    else gr.preparation
  }

  /** First group from g on that is not computed. */
  function StopFrom(batch: Batch, metadata: seq<Metadata?>, protocol: Protocol, g: int): (s: int)
    requires batch.Listed() && 0 <= g <= |batch.groups| == |metadata|
    ensures g <= s <= |batch.groups|
    ensures forall i :: g <= i < s ==> Outcome(batch, metadata, protocol, i) == Success
    ensures s < |batch.groups| ==> Outcome(batch, metadata, protocol, s) != Success
    decreases |batch.groups| - g
  {
    if g == |batch.groups| || Outcome(batch, metadata, protocol, g) != Success then g
    else StopFrom(batch, metadata, protocol, g + 1)
  }

  lemma StopStep(batch: Batch, metadata: seq<Metadata?>, protocol: Protocol, g: int)
    requires batch.Listed() && 0 <= g <= |batch.groups| == |metadata|
    ensures g == |batch.groups| || Outcome(batch, metadata, protocol, g) != Success ==>
              StopFrom(batch, metadata, protocol, g) == g
    ensures g < |batch.groups| && Outcome(batch, metadata, protocol, g) == Success ==>
              StopFrom(batch, metadata, protocol, g) == StopFrom(batch, metadata, protocol, g + 1)
  {
    hide Outcome;
  }

  /** What a group needs to be computed, in the caller's terms and without the pointers at its own index: good
      arguments, all the matrices of its range, good verdicts, A not said to be reordered, nor B in column-major order,
      and under the int8 loop no metadata in column-major order. */
  predicate Computable(batch: Batch, metadata: seq<Metadata?>, protocol: Protocol, g: int)
    requires batch.Listed() && 0 <= g < |batch.groups| == |metadata|
  {
    var gr := batch.groups[g];
    OffsetMonotone(batch.groups, g + 1, |batch.groups|);
    && GoodCall(gr.order, gr.transa, gr.transb, gr.m, gr.n, gr.k, gr.lda, gr.fmtA, gr.ldb, gr.fmtB, gr.ldc)
    && 1 <= gr.size <= 2147483647 && (if protocol == Eager then g else |batch.groups|) <= 2147483647
    && (forall i :: Offset(batch.groups, g) <= i < Offset(batch.groups, g + 1) ==> batch.Present(i))
    && gr.postOps == Success && gr.preparation == Success
    && (protocol == Lazy && metadata[g] != null ==> gr.order in {'r', 'R'})
  }

  /** Each argument a batch checks of a group, and the error a bad one gives: `a`, `b`, `c` are the pointers at the
      group's index, `count` the number taken for that of the groups. */
  lemma BatchCheckIff(gr: Group, a: bool, b: bool, c: bool, count: int)
    ensures var e := BatchCheck(gr, a, b, c, count);
      var dims := GoodForm(gr.order, gr.transa, gr.transb) && GoodDim(gr.m) && GoodDim(gr.n) && GoodDim(gr.k);
      var lda := GoodLd(gr.order, gr.transa, gr.lda, gr.m, gr.k);
      var ldb := GoodLd(gr.order, gr.transb, gr.ldb, gr.k, gr.n);
      var operands := dims && a && lda && GoodTag(gr.fmtA) && b && ldb && GoodTag(gr.fmtB) && c;
      var checked := operands && GoodLd(gr.order, 'n', gr.ldc, gr.m, gr.n);
      && (e == Success <==> checked && 1 <= gr.size <= 2147483647 && 0 <= count <= 2147483647)
      && (e == InvalidOrder <==> gr.order !in {'r', 'R', 'c', 'C'})
      && (e == InvalidTranspose <==>
            gr.order in {'r', 'R', 'c', 'C'} && !GoodForm(gr.order, gr.transa, gr.transb))
      && (e == InvalidMatrixDimension <==> GoodForm(gr.order, gr.transa, gr.transb) && !dims)
      && (e == NullPointer <==>
            dims && (!a || (lda && GoodTag(gr.fmtA) && (!b || (ldb && GoodTag(gr.fmtB) && !c)))))
      && (e == InvalidMemoryTag <==>
            dims && a && lda && (!GoodTag(gr.fmtA) || (b && ldb && !GoodTag(gr.fmtB))))
      && (e == InvalidGroupDimension <==>
            checked && (gr.size < 1 || gr.size > 2147483647 || count < 0 || count > 2147483647))
      && e in {Success, InvalidOrder, InvalidTranspose, InvalidMatrixDimension, NullPointer, InvalidMemoryTag,
               InvalidGroupDimension, InvalidLeadingDimension}
  {
  }

  /** What a group that passes those checks comes to. */
  lemma OutcomeIff(batch: Batch, metadata: seq<Metadata?>, protocol: Protocol, g: int)
    requires batch.Listed() && 0 <= g < |batch.groups| == |metadata|
    requires var count := if protocol == Eager then g else |batch.groups|;
      BatchCheck(batch.groups[g], batch.a[g], batch.b[g], batch.c[g], count) == Success
    ensures var gr := batch.groups[g]; var e := Outcome(batch, metadata, protocol, g);
      if !RangePresent(batch, g) then e == NullPointer
      else if gr.postOps != Success then e == gr.postOps
      else if !Plain(gr.fmtA) || (!Plain(gr.fmtB) && gr.order in {'c', 'C'}) then e == NotSupported
      else if protocol == Lazy && gr.order in {'c', 'C'} && metadata[g] != null then e == NotSupported
      else e == gr.preparation
  {
    hide RangePresent, Batch.Listed;
  }

  /** The groups before g own every index below g. */
  lemma {:induction false} OffsetAtLeast(groups: seq<Group>, g: int)
    requires 0 <= g <= |groups| && forall h :: 0 <= h < g ==> groups[h].size > 0
    ensures Offset(groups, g) >= g
  {
    if g > 0 { OffsetAtLeast(groups, g - 1); }
  }

  /** A group gets through the loop exactly when it is computable and the pointers at its own index are there. */
  lemma OutcomeIs(batch: Batch, metadata: seq<Metadata?>, protocol: Protocol, g: int)
    requires batch.Listed() && 0 <= g < |batch.groups| == |metadata|
    ensures Outcome(batch, metadata, protocol, g) == Success <==>
              Computable(batch, metadata, protocol, g) && batch.Present(g)
  {
    hide Offset;
    var gr := batch.groups[g];
    BatchCheckIff(gr, batch.a[g], batch.b[g], batch.c[g], CheckedCount(batch, protocol, g));
    OffsetMonotone(batch.groups, g + 1, |batch.groups|);
  }

  /** A computable group's own index is in its range, or in the range of a group before it. */
  lemma IndexPresent(batch: Batch, metadata: seq<Metadata?>, protocol: Protocol, g: int)
    requires batch.Listed() && 0 <= g < |batch.groups| == |metadata|
    requires forall h :: 0 <= h <= g ==> Computable(batch, metadata, protocol, h)
    ensures batch.Present(g)
  {
    hide GoodCall;
    forall h | 0 <= h <= g ensures batch.groups[h].size > 0 && RangePresent(batch, h) {
      assert Computable(batch, metadata, protocol, h);
    }
    OffsetAtLeast(batch.groups, g);
    var h := if g < Offset(batch.groups, g) then FindOwner(batch.groups, g, g) else g;
    assert RangePresent(batch, h);
    assert Offset(batch.groups, h) <= g < Offset(batch.groups, h + 1);
  }

  /** A run stops at its first group that is not computable. */
  predicate StopsAt(batch: Batch, metadata: seq<Metadata?>, protocol: Protocol, stop: int)
    requires batch.Listed() && |batch.groups| == |metadata|
  {
    && 0 <= stop <= |batch.groups|
    && (forall g :: 0 <= g < stop ==> Computable(batch, metadata, protocol, g))
    && (stop < |batch.groups| ==> !Computable(batch, metadata, protocol, stop))
  }

  /** Where a run gets to. The check at the group's index may read an entry that belongs to another group, yet it
      never stops a run: a batch stops at its first group that is not computable. */
  lemma StopIsFirstUncomputable(batch: Batch, metadata: seq<Metadata?>, protocol: Protocol)
    requires batch.Listed() && |batch.groups| == |metadata|
    ensures StopsAt(batch, metadata, protocol, StopFrom(batch, metadata, protocol, 0))
  {
    hide Outcome, Computable;
    var stop := StopFrom(batch, metadata, protocol, 0);
    forall g | 0 <= g < stop ensures Computable(batch, metadata, protocol, g) {
      OutcomeIs(batch, metadata, protocol, g);
    }
    if stop < |batch.groups| && Computable(batch, metadata, protocol, stop) {
      IndexPresent(batch, metadata, protocol, stop);
      OutcomeIs(batch, metadata, protocol, stop);
      assert false;
    }
  }

  /** AOCL_DLP_BATCH_GEMM_MATRIX_PTR_CHECK. */
  method PointerCheck(batch: Batch, matIdx: int, size: int) returns (err: Err)
    requires 0 <= matIdx && 0 <= size && batch.Has(matIdx + size)
    ensures err == if forall i :: matIdx <= i < matIdx + size ==> batch.Present(i) then Success else NullPointer
  {
    var i := 0;
    while i < size
      invariant 0 <= i <= size && forall x :: matIdx <= x < matIdx + i ==> batch.Present(x)
    {
      if !batch.a[matIdx + i] || !batch.b[matIdx + i] || !batch.c[matIdx + i] {
        assert !batch.Present(matIdx + i);
        return NullPointer;
      }
      i := i + 1;
    }
    err := Success;
  }

  /** Everything the loop body does before dispatching a group. */
  method Examine(batch: Batch, metadata: seq<Metadata?>, protocol: Protocol, g: int, matIdx: int) returns (err: Err)
    requires batch.Listed() && 0 <= g < |batch.groups| == |metadata| && matIdx == Offset(batch.groups, g)
    ensures err == Outcome(batch, metadata, protocol, g)
    ensures err == Success ==> batch.groups[g].size > 0
    ensures err == Success ==> batch.Has(matIdx + batch.groups[g].size)
    ensures err == Success ==> matIdx + batch.groups[g].size == Offset(batch.groups, g + 1)
  {
    var gr := batch.groups[g];
    OffsetMonotone(batch.groups, g + 1, |batch.groups|);
    err := BatchCheck(gr, batch.a[g], batch.b[g], batch.c[g], CheckedCount(batch, protocol, g));
    if err == Success { err := PointerCheck(batch, matIdx, gr.size); }
    if err != Success { return; }
    if gr.postOps != Success { return gr.postOps; }
    if Refused(protocol, gr, metadata[g]) { return NotSupported; }
    err := gr.preparation;
  }

  /** The dispatch: one multiplication for each of the group's matrices. */
  method Compute(runs: array<nat>, matIdx: int, size: int)
    requires 0 <= matIdx && 0 <= size && matIdx + size <= runs.Length
    modifies runs
    ensures forall x :: 0 <= x < runs.Length ==>
              runs[x] == old(runs[x]) + if matIdx <= x < matIdx + size then 1 else 0
  {
    forall x | matIdx <= x < matIdx + size { runs[x] := runs[x] + 1; }
  }

  /** The metadata objects a batch call may write. */
  ghost function Objects(metadata: seq<Metadata?>): set<Metadata> {
    set i | 0 <= i < |metadata| && metadata[i] != null :: metadata[i]
  }

  /** The status of group g is set. */
  method Report(metadata: seq<Metadata?>, g: int, err: Err)
    requires 0 <= g < |metadata|
    modifies Objects(metadata)`code
    ensures forall md <- Objects(metadata) :: md.code == if md == metadata[g] then err else old(md.code)
  {
    SetError(metadata[g], err);
  }

  /** The last of the first hi groups that reports through md, or -1. */
  ghost function Latest(metadata: seq<Metadata?>, md: Metadata, hi: int): (i: int)
    requires 0 <= hi <= |metadata|
    ensures -1 <= i < hi
    ensures i >= 0 ==> metadata[i] == md
    ensures forall x :: i < x < hi ==> metadata[x] != md
  {
    if hi == 0 then -1 else if metadata[hi - 1] == md then hi - 1 else Latest(metadata, md, hi - 1)
  }

  lemma LatestNext(metadata: seq<Metadata?>, g: int)
    requires 0 <= g < |metadata|
    ensures forall md <- Objects(metadata) ::
              Latest(metadata, md, g + 1) == if md == metadata[g] then g else Latest(metadata, md, g)
  {
  }

  /** What md reports after an eager run that stopped at group `stop` because of err. */
  ghost function EagerCode(metadata: seq<Metadata?>, stop: int, err: Err, md: Metadata): Err
    requires 0 <= stop <= |metadata|
  {
    var p := Latest(metadata, md, Min(stop + 1, |metadata|));
    if p < 0 then Failure else if p < stop then Success else err
  }

  /** What md reports after a lazy run. */
  ghost function LazyCode(metadata: seq<Metadata?>, stop: int, err: Err, md: Metadata): Err
    requires 0 <= stop <= |metadata|
  {
    var p := Latest(metadata, md, |metadata|);
    if p > stop then Failure else if p == stop then err else Success
  }

  /** What a run computes: the matrices of the groups before `stop`, each once, and no other. */
  ghost predicate Computed(now: seq<nat>, was: seq<nat>, groups: seq<Group>, stop: int)
    requires 0 <= stop <= |groups|
  {
    |now| == |was| && forall x :: 0 <= x < |was| ==> now[x] == was[x] + if x < Offset(groups, stop) then 1 else 0
  }

  lemma NoMatricesYet(groups: seq<Group>)
    ensures Offset(groups, 0) == 0
  {
  }

  lemma NothingComputed(runs: seq<nat>, groups: seq<Group>)
    ensures Computed(runs, runs, groups, 0)
  {
    NoMatricesYet(groups);
  }

  lemma GroupComputed(now: seq<nat>, before: seq<nat>, was: seq<nat>, groups: seq<Group>, g: int)
    requires 0 <= g < |groups| && Computed(before, was, groups, g) && groups[g].size > 0
    requires |now| == |before|
    requires forall x :: 0 <= x < |now| ==>
               now[x] == before[x] + if Offset(groups, g) <= x < Offset(groups, g) + groups[g].size then 1 else 0
    ensures Computed(now, was, groups, g + 1)
  {
  }

  /** The error a run ends with. */
  function StopError(batch: Batch, metadata: seq<Metadata?>, protocol: Protocol, stop: int): Err
    requires batch.Listed() && 0 <= stop <= |batch.groups| == |metadata|
  {
    if stop < |batch.groups| then Outcome(batch, metadata, protocol, stop) else Success
  }

  /** One group: examined, and computed when nothing is wrong with it. */
  method RunGroup(batch: Batch, metadata: seq<Metadata?>, protocol: Protocol, g: int, matIdx: int, runs: array<nat>,
                  ghost was: seq<nat>) returns (err: Err)
    requires batch.Listed() && 0 <= g < |batch.groups| == |metadata| && matIdx == Offset(batch.groups, g)
    requires runs.Length == |batch.c| && Computed(runs[..], was, batch.groups, g)
    modifies runs
    ensures err == Outcome(batch, metadata, protocol, g)
    ensures err == Success ==> Computed(runs[..], was, batch.groups, g + 1)
    ensures err == Success ==> matIdx + batch.groups[g].size == Offset(batch.groups, g + 1)
    ensures err != Success ==> runs[..] == old(runs[..])
  {
    hide Computed, Offset, Outcome;
    var size := batch.groups[g].size;
    err := Examine(batch, metadata, protocol, g, matIdx);
    if err != Success { return; }
    ghost var before := runs[..];
    Compute(runs, matIdx, size);
    GroupComputed(runs[..], before, was, batch.groups, g);
  }

  /** The eager loop, from statuses that all say failure. */
  method EagerLoop(batch: Batch, metadata: seq<Metadata?>, runs: array<nat>)
    requires |metadata| == |batch.groups| && batch.Listed() && runs.Length == |batch.c|
    requires forall md <- Objects(metadata) :: md.code == Failure
    modifies Objects(metadata)`code, runs
    ensures var stop := StopFrom(batch, metadata, Eager, 0);
      && Computed(runs[..], old(runs[..]), batch.groups, stop)
      && forall md <- Objects(metadata) ::
           md.code == EagerCode(metadata, stop, StopError(batch, metadata, Eager, stop), md)
  {
    hide Outcome, Computed, Offset, StopFrom, Batch.Listed;
    NothingComputed(runs[..], batch.groups);
    var matIdx := 0;
    NoMatricesYet(batch.groups);
    var g := 0;
    while g < |batch.groups|
      invariant 0 <= g <= |batch.groups| && matIdx == Offset(batch.groups, g)
      invariant StopFrom(batch, metadata, Eager, 0) == StopFrom(batch, metadata, Eager, g)
      invariant Computed(runs[..], old(runs[..]), batch.groups, g)
      invariant forall md <- Objects(metadata) :: md.code == if Latest(metadata, md, g) >= 0 then Success else Failure
    {
      LatestNext(metadata, g);
      var size := batch.groups[g].size;
      StopStep(batch, metadata, Eager, g);
      var err := RunGroup(batch, metadata, Eager, g, matIdx, runs, old(runs[..]));
      if err != Success {
        Report(metadata, g, err);
        return;
      }
      Report(metadata, g, Success);
      matIdx := matIdx + size;
      g := g + 1;
    }
    StopStep(batch, metadata, Eager, g);
  }

  /** `aocl_batch_gemm_f32f32f32of32`: every group starts out failed and is raised to success once computed.
      `complete`: none of the array arguments is null. */
  method EagerBatch(batch: Batch, metadata: seq<Metadata?>, runs: array<nat>, complete: bool, isa: bool)
    requires |metadata| == |batch.groups| && batch.Listed() && runs.Length == |batch.c|
    modifies Objects(metadata)`code, runs
    ensures var stop := if complete && isa then StopFrom(batch, metadata, Eager, 0) else 0;
      && (complete && isa ==> StopsAt(batch, metadata, Eager, stop))
      && Computed(runs[..], old(runs[..]), batch.groups, stop)
      && forall md <- Objects(metadata) ::
           md.code == if !complete then NullPointer else if !isa then NotSupported
                      else EagerCode(metadata, stop, StopError(batch, metadata, Eager, stop), md)
  {
    hide Outcome, Computed, Offset, StopFrom, EagerCode, Batch.Listed, StopsAt;
    StopIsFirstUncomputable(batch, metadata, Eager);
    NothingComputed(runs[..], batch.groups);
    if !complete {
      MarkAll(metadata, NullPointer);
      return;
    }
    if !isa {
      MarkAll(metadata, NotSupported);
      return;
    }
    MarkAll(metadata, Failure);
    EagerLoop(batch, metadata, runs);
  }

  /** One status for every group. */
  method MarkAll(metadata: seq<Metadata?>, err: Err)
    modifies Objects(metadata)`code
    ensures forall md <- Objects(metadata) :: md.code == err
  {
    var g := 0;
    while g < |metadata|
      invariant 0 <= g <= |metadata|
      invariant forall i :: 0 <= i < g && metadata[i] != null ==> metadata[i].code == err
    {
      SetError(metadata[g], err);
      g := g + 1;
    }
  }

  /** `dlp_batch_mark_remaining_groups_failed`. */
  method MarkRemaining(first: int, metadata: seq<Metadata?>)
    requires 0 <= first <= |metadata|
    modifies Objects(metadata)`code
    ensures forall md <- Objects(metadata) ::
              md.code == if Latest(metadata, md, |metadata|) >= first then Failure else old(md.code)
  {
    var g := first;
    while g < |metadata|
      invariant first <= g <= |metadata|
      invariant forall md <- Objects(metadata) ::
                  md.code == if Latest(metadata, md, g) >= first then Failure else old(md.code)
    {
      SetError(metadata[g], Failure);
      g := g + 1;
    }
  }

  /** `aocl_batch_gemm_s8s8s32os32`: a group is marked successful when it is entered, overwritten if it fails, and
      the groups behind it are marked failed on the way out. */
  method LazyBatch(batch: Batch, metadata: seq<Metadata?>, runs: array<nat>, complete: bool, isa: bool)
    requires |metadata| == |batch.groups| && batch.Listed() && runs.Length == |batch.c|
    modifies Objects(metadata)`code, runs
    ensures var stop := if complete && isa then StopFrom(batch, metadata, Lazy, 0) else 0;
      && (complete && isa ==> StopsAt(batch, metadata, Lazy, stop))
      && Computed(runs[..], old(runs[..]), batch.groups, stop)
      && forall md <- Objects(metadata) ::
           md.code == if !complete then NullPointer else if !isa then NotSupported
                      else LazyCode(metadata, stop, StopError(batch, metadata, Lazy, stop), md)
  {
    hide Outcome, Computed, Offset, StopFrom, Batch.Listed, StopsAt;
    StopIsFirstUncomputable(batch, metadata, Lazy);
    NothingComputed(runs[..], batch.groups);
    if !complete {
      MarkAll(metadata, NullPointer);
      return;
    }
    var firstUnprocessed := |batch.groups|;
    if !isa {
      MarkAll(metadata, NotSupported);
      MarkRemaining(firstUnprocessed, metadata);
      return;
    }
    var matIdx := 0;
    NoMatricesYet(batch.groups);
    var g := 0;
    while g < |batch.groups|
      invariant 0 <= g <= |batch.groups| && matIdx == Offset(batch.groups, g)
      invariant firstUnprocessed == if g == 0 then |batch.groups| else g
      invariant StopFrom(batch, metadata, Lazy, 0) == StopFrom(batch, metadata, Lazy, g)
      invariant Computed(runs[..], old(runs[..]), batch.groups, g)
      invariant forall md <- Objects(metadata) :: Latest(metadata, md, g) >= 0 ==> md.code == Success
    {
      Report(metadata, g, Success);
      firstUnprocessed := g + 1;
      LatestNext(metadata, g);
      var size := batch.groups[g].size;
      StopStep(batch, metadata, Lazy, g);
      var err := RunGroup(batch, metadata, Lazy, g, matIdx, runs, old(runs[..]));
      if err != Success {
        Report(metadata, g, err);
        MarkRemaining(firstUnprocessed, metadata);
        return;
      }
      matIdx := matIdx + size;
      g := g + 1;
    }
    StopStep(batch, metadata, Lazy, g);
    MarkRemaining(firstUnprocessed, metadata);
  }

  /** No metadata object serves two groups. */
  ghost predicate Distinct(metadata: seq<Metadata?>) {
    forall i, j :: 0 <= i < j < |metadata| && metadata[i] != null ==> metadata[i] != metadata[j]
  }

  /** Every run of the one protocol ends with the statuses of the other. */
  ghost predicate Agree(metadata: seq<Metadata?>) {
    forall stop, err, md ::
      0 <= stop <= |metadata| && (stop < |metadata| ==> err != Success) && md in Objects(metadata) ==>
      EagerCode(metadata, stop, err, md) == LazyCode(metadata, stop, err, md)
  }

  /** Lazy tail-marking refines the eager pre-pass on every run exactly when no metadata object is shared. */
  lemma ProtocolsAgreeIff(metadata: seq<Metadata?>)
    ensures Agree(metadata) <==> Distinct(metadata)
  {
    if Distinct(metadata) {
      forall stop, err, md |
        0 <= stop <= |metadata| && (stop < |metadata| ==> err != Success) && md in Objects(metadata)
        ensures EagerCode(metadata, stop, err, md) == LazyCode(metadata, stop, err, md)
      {
        var i :| 0 <= i < |metadata| && metadata[i] == md;
        StatusOfGroup(metadata, stop, err, i);
      }
    } else {
      var i, j :| 0 <= i < j < |metadata| && metadata[i] != null && metadata[i] == metadata[j];
      assert EagerCode(metadata, i, NotSupported, metadata[i]) == NotSupported;
      assert LazyCode(metadata, i, NotSupported, metadata[i]) == Failure;
    }
  }

  /** With distinct metadata, under either protocol: success for the groups computed, its own error for the group
      that stopped the run, failure for those behind it. */
  lemma StatusOfGroup(metadata: seq<Metadata?>, stop: int, err: Err, i: int)
    requires Distinct(metadata) && 0 <= stop <= |metadata| && 0 <= i < |metadata| && metadata[i] != null
    ensures EagerCode(metadata, stop, err, metadata[i]) ==
            if i < stop then Success else if i == stop then err else Failure
    ensures LazyCode(metadata, stop, err, metadata[i]) ==
            if i < stop then Success else if i == stop then err else Failure
  {
    assert Latest(metadata, metadata[i], |metadata|) == i;
    if i <= stop {
      assert Latest(metadata, metadata[i], Min(stop + 1, |metadata|)) == i;
    }
  }

  /** Groups own contiguous, disjoint ranges of the flat arrays that together cover every matrix. */
  lemma {:induction false} OneOwner(groups: seq<Group>, hi: int, x: int)
    requires 0 <= hi <= |groups| && 0 <= x < Offset(groups, hi)
    ensures exists g :: Owner(groups, hi, g, x) && forall h :: Owner(groups, hi, h, x) ==> h == g
  {
    var g := if x >= Offset(groups, hi - 1) then hi - 1 else FindOwner(groups, hi - 1, x);
    assert Owner(groups, hi, g, x);
    forall h | Owner(groups, hi, h, x) ensures h == g {
      if h < g { OffsetMonotone(groups, h + 1, g); } else if g < h { OffsetMonotone(groups, g + 1, h); }
    }
  }

  ghost predicate Owner(groups: seq<Group>, hi: int, g: int, x: int)
    requires hi <= |groups|
  {
    0 <= g < hi && Offset(groups, g) <= x < Offset(groups, g + 1)
  }

  ghost function FindOwner(groups: seq<Group>, hi: int, x: int): (g: int)
    requires 0 <= hi <= |groups| && 0 <= x < Offset(groups, hi)
    ensures Owner(groups, hi, g, x)
  {
    if x >= Offset(groups, hi - 1) then hi - 1 else FindOwner(groups, hi - 1, x)
  }
}
