/** The loops that reorder a single int8 or int4 column: weights, and 128 times each group's sum. */
module ColumnReorder {
  import opened Arith
  import opened Traces
  import opened PanelPack
  import opened ColumnCopy
  import opened Words
  import opened ColumnSums
  import opened Nibbles

  /** A strided column of k elements lies within len elements. */
  ghost predicate Strided(len: int, k: int, rs: int) {
    forall p {:trigger Addr(p, 0, rs, 0)} :: 0 <= p < k ==> 0 <= Addr(p, 0, rs, 0) < len
  }

  ghost function Gathered(input: seq<Int8>, k: int, rs: int): (col: Column)
    requires k >= 0 && Strided(|input|, k, rs)
    ensures |col| == k
  {
    seq(k, p requires 0 <= p < k => input[Addr(p, 0, rs, 0)])
  }

  /** One weight into place, and added to the sum held at `at`; reports whether int32 held the new sum. */
  method AddWeight(buf: array<Byte>, at: int, p: int, v: Int8) returns (exact: bool)
    requires 0 <= p < at && at + 4 <= buf.Length
    modifies buf
    ensures var was := old(buf[..])[p := ToByte(v)];
      buf[..] == PutWord(was, at, Wrap32(Load32(was, at) + v)) && exact == Fits32(Load32(was, at) + v)
  {
    buf[p] := ToByte(v);
    var sum := Load32(buf[..], at) + FromByte(buf[p]);
    exact := Fits32(sum);
    Store32(buf, at, Wrap32(sum));
  }

  /** The sum at `at` times 128. */
  method ScaleSum(buf: array<Byte>, at: int) returns (exact: bool)
    requires 0 <= at && at + 4 <= buf.Length
    modifies buf
    ensures buf[..] == PutWord(old(buf[..]), at, Wrap32(128 * Load32(old(buf[..]), at)))
    ensures exact == Fits32(128 * Load32(old(buf[..]), at))
  {
    var sum := 128 * Load32(buf[..], at);
    exact := Fits32(sum);
    Store32(buf, at, Wrap32(sum));
  }

  /** Adding weight `done` to the open slot takes one stage to the next. */
  lemma AddStage(now: seq<Byte>, was: seq<Byte>, col: Column, gs: int, done: int, slots: int, lo: int)
    requires Stage(now, was, col, gs, done, slots, Some(Total(col, lo, done))) && 0 <= lo <= done < |col|
    requires SumOffset(|col|) + 4 * slots + 4 <= |was|
    ensures var there, at := now[done := ToByte(col[done])], SumOffset(|col|) + 4 * slots;
      && Load32(there, at) == Wrap32(Total(col, lo, done))
      && Stage(PutWord(there, at, Wrap32(Load32(there, at) + col[done])), was, col, gs, done + 1, slots,
               Some(Total(col, lo, done + 1)))
  {
    hide Stage, ToByte, PutWord, Wrap32, SameWord, Load32;
    OffsetFacts(|col|);
    StageShape(now, was, col, gs, done, slots, Some(Total(col, lo, done)));
    var there, at := now[done := ToByte(col[done])], SumOffset(|col|) + 4 * slots;
    StageWeight(now, was, col, gs, done, slots, Some(Total(col, lo, done)));
    StageLoad(there, was, col, gs, done + 1, slots, Total(col, lo, done));
    WrapIsSame(Total(col, lo, done));
    AddSame(Wrap32(Total(col, lo, done)), Total(col, lo, done), col[done]);
    WrapIsSame(Wrap32(Total(col, lo, done)) + col[done]);
    SameTrans(Wrap32(Wrap32(Total(col, lo, done)) + col[done]), Wrap32(Total(col, lo, done)) + col[done],
              Total(col, lo, done) + col[done]);
    StageWord(there, was, col, gs, done + 1, slots, Some(Total(col, lo, done)),
              Wrap32(Load32(there, at) + col[done]), Total(col, lo, done + 1));
  }

  lemma StageShape(now: seq<Byte>, was: seq<Byte>, col: Column, gs: int, done: int, slots: int, open: Option<int>)
    requires Stage(now, was, col, gs, done, slots, open)
    ensures |now| == |was| && 0 <= done <= |col| && 0 <= slots
  {
  }

  /** Scaling the open slot's sum, complete for its group, finishes the slot. */
  lemma ScaleStage(now: seq<Byte>, was: seq<Byte>, col: Column, gs: int, done: int, slots: int)
    requires Stage(now, was, col, gs, done, slots, Some(GroupSum(col, gs, slots)))
    requires SumOffset(|col|) + 4 * slots + 4 <= |was|
    ensures var at := SumOffset(|col|) + 4 * slots;
      && |now| == |was| && Load32(now, at) == Wrap32(GroupSum(col, gs, slots))
      && Stage(PutWord(now, at, Wrap32(128 * Load32(now, at))), was, col, gs, done, slots + 1, None)
  {
    hide Stage, PutWord, Wrap32, SameWord, Load32, GroupSum;
    OffsetFacts(|col|);
    var sum, at := GroupSum(col, gs, slots), SumOffset(|col|) + 4 * slots;
    StageShape(now, was, col, gs, done, slots, Some(sum));
    StageLoad(now, was, col, gs, done, slots, sum);
    WrapIsSame(sum);
    ScaleSame(Wrap32(sum), sum);
    WrapIsSame(128 * Wrap32(sum));
    SameTrans(Wrap32(128 * Wrap32(sum)), 128 * Wrap32(sum), 128 * sum);
    StageWord(now, was, col, gs, done, slots, Some(sum), Wrap32(128 * Load32(now, at)), 128 * sum);
    StageClose(PutWord(now, at, Wrap32(128 * Load32(now, at))), was, col, gs, done, slots, 128 * sum);
  }

  /** The n == 1 path of `aocl_reorder_s8s8s32os32`: one running sum kept in the buffer. */
  method TunedColumn(input: seq<Int8>, buf: array<Byte>, k: int, rs: int) returns (ghost exact: bool)
    requires k > 0 && Strided(|input|, k, rs) && ColumnBytes(k, k) <= buf.Length
    modifies buf
    ensures buf[..] == Laid(old(buf[..]), Gathered(input, k, rs), k)
    ensures k <= 131072 ==> exact
  {
    hide Stage, Addr, PutWord, Load32, Total, Wrap32, Laid;
    ghost var was, col := buf[..], Gathered(input, k, rs);
    SlotCount(k, k);
    OffsetFacts(k);
    var sums := RoundUp(k, 4);
    Store32(buf, sums, 0);
    StageStart(was, col, k);
    EmptyTotal(col, 0);
    StageWord(was, was, col, k, 0, 0, None, 0, 0);
    exact := true;
    var k0 := 0;
    while k0 < k
      invariant 0 <= k0 <= k && buf.Length == |was|
      invariant Stage(buf[..], was, col, k, k0, 0, Some(Total(col, 0, k0)))
      invariant k <= 131072 ==> exact
    {
      ColumnAddr(k0, rs);
      AddStage(buf[..], was, col, k, k0, 0, 0);
      var fits := AddWeight(buf, sums, k0, input[k0 * rs]);
      SumsFit(col, 128, 0, k0);
      exact := exact && fits;
      k0 := k0 + 1;
    }
    WholeGroup(col);
    ScaleStage(buf[..], was, col, k, k, 0);
    var fits := ScaleSum(buf, sums);
    ScaledFits(col, 128, 0, k);
    exact := exact && fits;
    StageEnd(buf[..], was, col, k);
  }

  lemma EmptyTotal(col: Column, lo: int)
    ensures Total(col, lo, lo) == 0
  {
  }

  /** While a run of elements from lo is short enough, adding one more never wraps. */
  lemma SumsFit(col: Column, bound: int, lo: int, p: int)
    requires 0 <= lo <= p < |col| && Within(col, bound) && bound > 0
    ensures bound * (p + 1 - lo) <= 0x100_0000 ==> Fits32(Wrap32(Total(col, lo, p)) + col[p])
  {
    if bound * (p + 1 - lo) <= 0x100_0000 {
      MulLe(p - lo, p + 1 - lo, bound);
      PartialSumFits(col, bound, lo, p);
      PartialSumFits(col, bound, lo, p + 1);
    }
  }

  lemma ScaledFits(col: Column, bound: int, lo: int, hi: int)
    requires 0 <= lo <= hi <= |col| && Within(col, bound) && bound > 0
    ensures bound * (hi - lo) <= 0x100_0000 ==> Fits32(128 * Wrap32(Total(col, lo, hi)))
  {
    if bound * (hi - lo) <= 0x100_0000 { PartialSumFits(col, bound, lo, hi); }
  }

  /** The n == 1 path of `aocl_reorder_s8s8s32os32_reference`: the copy first, then a sum kept in a local. */
  method ReferenceColumn(input: seq<Int8>, buf: array<Byte>, k: int, rs: int) returns (ghost exact: bool)
    requires k > 0 && Strided(|input|, k, rs) && ColumnBytes(k, k) <= buf.Length
    modifies buf
    ensures buf[..] == Laid(old(buf[..]), Gathered(input, k, rs), k)
    ensures k <= 131072 ==> exact
  {
    hide Stage, Addr, PutWord, Load32, Total, Wrap32, Laid;
    ghost var was, col := buf[..], Gathered(input, k, rs);
    SlotCount(k, k);
    OffsetFacts(k);
    GatherColumn(buf, AsBytes(input), k, rs);
    GatheredStage(buf[..], was, input, k, rs);
    var acc := 0;
    exact := true;
    EmptyTotal(col, 0);
    WrapZero();
    var k0 := 0;
    while k0 < k
      invariant 0 <= k0 <= k && acc == Wrap32(Total(col, 0, k0)) && buf.Length == |was|
      invariant Stage(buf[..], was, col, k, k, 0, None)
      invariant k <= 131072 ==> exact
    {
      WeightAt(buf[..], was, col, k, k0);
      SumsFit(col, 128, 0, k0);
      AddWrapped(col, 0, k0);
      exact := exact && Fits32(acc + FromByte(buf[k0]));
      acc := Wrap32(acc + FromByte(buf[k0]));
      k0 := k0 + 1;
    }
    ScaledFits(col, 128, 0, k);
    exact := exact && Fits32(acc * 128);
    WholeGroup(col);
    StoreScaled(buf[..], was, col, k, acc);
    Store32(buf, RoundUp(k, 4), Wrap32(acc * 128));
    StageEnd(buf[..], was, col, k);
  }

  /** A gathered column is every weight in place, and no sum yet. */
  lemma GatheredStage(now: seq<Byte>, was: seq<Byte>, input: seq<Int8>, k: int, rs: int)
    requires 0 < k <= |was| == |now| && Strided(|input|, k, rs)
    requires forall p :: 0 <= p < k ==> now[p] == AsBytes(input)[Addr(p, 0, rs, 0)]
    requires now[k..] == was[k..]
    ensures Stage(now, was, Gathered(input, k, rs), k, k, 0, None)
  {
    hide Addr;
    OffsetFacts(k);
    forall x | k <= x < |was| ensures now[x] == was[x] {
      assert now[k..][x - k] == was[k..][x - k];
    }
  }

  lemma WrapZero()
    ensures Wrap32(0) == 0
  {
  }

  lemma WeightAt(now: seq<Byte>, was: seq<Byte>, col: Column, gs: int, p: int)
    requires Stage(now, was, col, gs, |col|, 0, None) && 0 <= p < |col| <= |was|
    ensures FromByte(now[p]) == col[p]
  {
  }

  lemma StoreScaled(now: seq<Byte>, was: seq<Byte>, col: Column, gs: int, acc: int)
    requires Stage(now, was, col, gs, |col|, 0, None) && SumOffset(|col|) + 4 <= |was|
    requires acc == Wrap32(GroupSum(col, gs, 0))
    ensures |now| == |was| && SumOffset(|col|) >= 0
    ensures Stage(PutWord(now, SumOffset(|col|), Wrap32(acc * 128)), was, col, gs, |col|, 1, None)
  {
    hide Stage, PutWord, Wrap32, SameWord, GroupSum;
    var sum := GroupSum(col, gs, 0);
    OffsetFacts(|col|);
    StageShape(now, was, col, gs, |col|, 0, None);
    WrapIsSame(sum);
    ScaleSame(acc, sum);
    WrapIsSame(128 * acc);
    SameTrans(Wrap32(128 * acc), 128 * acc, 128 * sum);
    StageWord(now, was, col, gs, |col|, 0, None, Wrap32(acc * 128), 128 * sum);
    StageClose(PutWord(now, SumOffset(|col|), Wrap32(acc * 128)), was, col, gs, |col|, 0, 128 * sum);
  }

  /** A slot started at the head of group g still has room. */
  lemma SlotInTable(k: int, gs: int, g: int)
    requires gs > 0 && 0 <= g && 0 <= g * gs < k
    ensures SumOffset(k) + 4 * g + 4 <= ColumnBytes(k, gs)
    ensures 0 < Min(gs, k - g * gs) && g * gs + Min(gs, k - g * gs) == Min((g + 1) * gs, k)
    ensures (g + 1) * gs == g * gs + gs
  {
    hide NumGroups;
    SlotCount(k, gs);
    Distribute(g, 1, gs);
    if NumGroups(k, gs) <= g { MulLe(NumGroups(k, gs), g, gs); }
  }

  lemma AllGroups(k: int, gs: int, g: int)
    requires gs > 0 && 0 < k <= g * gs && g > 0 && (g - 1) * gs < k
    ensures g == NumGroups(k, gs)
  {
    hide NumGroups;
    SlotCount(k, gs);
    if g < NumGroups(k, gs) { MulLe(g, NumGroups(k, gs) - 1, gs); }
    if g > NumGroups(k, gs) { MulLe(NumGroups(k, gs), g - 1, gs); }
  }

  /** The grouped n == 1 path of `aocl_reorder_s8s8s32os32_sym_quant`: a running sum per group. */
  method GroupedColumn(input: seq<Int8>, buf: array<Byte>, k: int, rs: int, groupSize: int) returns (ghost exact: bool)
    requires k > 0 && groupSize > 0 && Strided(|input|, k, rs) && ColumnBytes(k, groupSize) <= buf.Length
    modifies buf
    ensures buf[..] == Laid(old(buf[..]), Gathered(input, k, rs), groupSize)
    ensures groupSize <= 131072 ==> exact
  {
    hide Stage, Addr, Total, Laid, NumGroups, GroupSum, ColumnBytes;
    ghost var was, col := buf[..], Gathered(input, k, rs);
    var sums := RoundUp(k, 4);
    exact := true;
    StageStart(was, col, groupSize);
    ghost var g := 0;
    var k0 := 0;
    while k0 < k
      invariant buf.Length == |was| && 0 <= g && k0 == g * groupSize && sums == SumOffset(k) + 4 * g
      invariant k0 >= 0 && (g > 0 ==> (g - 1) * groupSize < k)
      invariant Stage(buf[..], was, col, groupSize, Min(k0, k), g, None)
      invariant groupSize <= 131072 ==> exact
    {
      SlotInTable(k, groupSize, g);
      ghost var fits := OneGroup(input, buf, k, rs, groupSize, k0, sums, g, was, col);
      exact := exact && fits;
      sums := sums + 4;
      k0 := k0 + groupSize;
      g := g + 1;
    }
    AllGroups(k, groupSize, g);
    StageEnd(buf[..], was, col, groupSize);
  }

  /** One round of that loop: the group's weights and the slot its sum is kept in. */
  method OneGroup(input: seq<Int8>, buf: array<Byte>, k: int, rs: int, groupSize: int, k0: int, sums: int,
                  ghost g: int, ghost was: seq<Byte>, ghost col: Column) returns (ghost exact: bool)
    requires k > 0 && groupSize > 0 && Strided(|input|, k, rs) && col == Gathered(input, k, rs)
    requires 0 <= g && 0 <= k0 == g * groupSize < k && sums == SumOffset(k) + 4 * g && sums + 4 <= buf.Length
    requires Stage(buf[..], was, col, groupSize, k0, g, None)
    modifies buf
    ensures buf.Length == |was| && Stage(buf[..], was, col, groupSize, Min(k0 + groupSize, k), g + 1, None)
    ensures groupSize <= 131072 ==> exact
  {
    hide Stage, Addr, PutWord, Load32, Total, Wrap32, NumGroups, GroupSum;
    OffsetFacts(k);
    SlotInTable(k, groupSize, g);
    StageShape(buf[..], was, col, groupSize, k0, g, None);
    var gs := Min(groupSize, k - k0);
    EmptyTotal(col, k0);
    StageWord(buf[..], was, col, groupSize, k0, g, None, 0, 0);
    Store32(buf, sums, 0);
    exact := true;
    var group := 0;
    while group < gs
      invariant 0 <= group <= gs && buf.Length == |was|
      invariant Stage(buf[..], was, col, groupSize, k0 + group, g, Some(Total(col, k0, k0 + group)))
      invariant groupSize <= 131072 ==> exact
    {
      ColumnAddr(k0 + group, rs);
      AddStage(buf[..], was, col, groupSize, k0 + group, g, k0);
      var fits := AddWeight(buf, sums, k0 + group, input[(k0 + group) * rs]);
      SumsFit(col, 128, k0, k0 + group);
      exact := exact && fits;
      group := group + 1;
    }
    GroupEnd(col, groupSize, g, k0, k0 + gs);
    ScaleStage(buf[..], was, col, groupSize, k0 + gs, g);
    var fits := ScaleSum(buf, sums);
    ScaledFits(col, 128, k0, k0 + gs);
    exact := exact && fits;
  }

  lemma GroupEnd(col: Column, gs: int, g: int, lo: int, hi: int)
    requires lo == g * gs && hi == Min((g + 1) * gs, |col|)
    ensures GroupSum(col, gs, g) == Total(col, lo, hi)
  {
  }

  /** A strided column of k nibbles lies within len bytes. */
  ghost predicate StridedNibbles(len: int, k: int, rs: int) {
    forall p {:trigger Addr(p, 0, rs, 0)} :: 0 <= p < k ==> 0 <= Addr(p, 0, rs, 0) / 2 < len
  }

  /** The four-bit column widened to int8. */
  ghost function Widened(src: seq<bv8>, k: int, rs: int): (col: Column)
    requires k >= 0 && StridedNibbles(|src|, k, rs)
    ensures |col| == k && Within(col, 8)
  {
    seq(k, p requires 0 <= p < k => S4At(src, Addr(p, 0, rs, 0)))
  }

  /** The n == 1 path of `aocl_reorder_s8s4s32os32`: as the grouped int8 loop, unpacking and sign-extending each
      weight on the way. */
  method NibbleColumn(src: seq<bv8>, buf: array<Byte>, k: int, rs: int, groupSize: int) returns (ghost exact: bool)
    requires k > 0 && groupSize > 0 && StridedNibbles(|src|, k, rs) && ColumnBytes(k, groupSize) <= buf.Length
    modifies buf
    ensures buf[..] == Laid(old(buf[..]), Widened(src, k, rs), groupSize)
    ensures groupSize <= 2097152 ==> exact
  {
    hide Stage, Addr, Total, Laid, NumGroups, GroupSum, ColumnBytes, S4At;
    ghost var was, col := buf[..], Widened(src, k, rs);
    var sums := RoundUp(k, 4);
    exact := true;
    StageStart(was, col, groupSize);
    ghost var g := 0;
    var k0 := 0;
    while k0 < k
      invariant buf.Length == |was| && 0 <= g && k0 == g * groupSize && sums == SumOffset(k) + 4 * g
      invariant k0 >= 0 && (g > 0 ==> (g - 1) * groupSize < k)
      invariant Stage(buf[..], was, col, groupSize, Min(k0, k), g, None)
      invariant groupSize <= 2097152 ==> exact
    {
      SlotInTable(k, groupSize, g);
      ghost var fits := OneNibbleGroup(src, buf, k, rs, groupSize, k0, sums, g, was, col);
      exact := exact && fits;
      sums := sums + 4;
      k0 := k0 + groupSize;
      g := g + 1;
    }
    AllGroups(k, groupSize, g);
    StageEnd(buf[..], was, col, groupSize);
  }

  method OneNibbleGroup(src: seq<bv8>, buf: array<Byte>, k: int, rs: int, groupSize: int, k0: int, sums: int,
                        ghost g: int, ghost was: seq<Byte>, ghost col: Column) returns (ghost exact: bool)
    requires k > 0 && groupSize > 0 && StridedNibbles(|src|, k, rs) && col == Widened(src, k, rs)
    requires 0 <= g && 0 <= k0 == g * groupSize < k && sums == SumOffset(k) + 4 * g && sums + 4 <= buf.Length
    requires Stage(buf[..], was, col, groupSize, k0, g, None)
    modifies buf
    ensures buf.Length == |was| && Stage(buf[..], was, col, groupSize, Min(k0 + groupSize, k), g + 1, None)
    ensures groupSize <= 2097152 ==> exact
  {
    hide Stage, Addr, PutWord, Load32, Total, Wrap32, NumGroups, GroupSum, S4At, Unpack;
    OffsetFacts(k);
    SlotInTable(k, groupSize, g);
    StageShape(buf[..], was, col, groupSize, k0, g, None);
    var gsz := Min(groupSize, k - k0);
    EmptyTotal(col, k0);
    StageWord(buf[..], was, col, groupSize, k0, g, None, 0, 0);
    Store32(buf, sums, 0);
    exact := true;
    var i := 0;
    while i < gsz
      invariant 0 <= i <= gsz && buf.Length == |was|
      invariant Stage(buf[..], was, col, groupSize, k0 + i, g, Some(Total(col, k0, k0 + i)))
      invariant groupSize <= 2097152 ==> exact
    {
      ColumnAddr(k0 + i, rs);
      var nibIdx := (k0 + i) * rs;
      UnpackIsS4(src, nibIdx);
      AddStage(buf[..], was, col, groupSize, k0 + i, g, k0);
      var fits := AddWeight(buf, sums, k0 + i, Unpack(src, nibIdx));
      SumsFit(col, 8, k0, k0 + i);
      exact := exact && fits;
      i := i + 1;
    }
    GroupEnd(col, groupSize, g, k0, k0 + gsz);
    ScaleStage(buf[..], was, col, groupSize, k0 + gsz, g);
    var fits := ScaleSum(buf, sums);
    ScaledFits(col, 8, k0, k0 + gsz);
    exact := exact && fits;
  }

  /** A four-bit column and an int8 column with the same values reorder to the same bytes, sums included,
      whatever the strides of either. */
  lemma S4IsS8OnWidened(src: seq<bv8>, rs: int, input: seq<Int8>, rs8: int, k: int, groupSize: int, was: seq<Byte>)
    requires k > 0 && groupSize > 0 && StridedNibbles(|src|, k, rs) && Strided(|input|, k, rs8)
    requires forall p {:trigger Addr(p, 0, rs, 0)} :: 0 <= p < k ==>
               input[Addr(p, 0, rs8, 0)] == S4At(src, Addr(p, 0, rs, 0))
    ensures Laid(was, Widened(src, k, rs), groupSize) == Laid(was, Gathered(input, k, rs8), groupSize)
  {
    hide Addr, Laid, S4At;
    assert Widened(src, k, rs) == Gathered(input, k, rs8);
  }
}
