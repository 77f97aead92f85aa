/** The n == 1 layout of the int8 operands: k weights, then from the next multiple of four one int32 per group,
    128 times the sum of the group's weights. */
module ColumnSums {
  import opened Arith
  import opened Traces
  import opened Words

  type Column = seq<Int8>

  function At(col: Column, p: int): int { if 0 <= p < |col| then col[p] else 0 }

  /** Sum of the elements lo <= p < hi. */
  function Total(col: Column, lo: int, hi: int): int { IntSum(Values(col), lo, hi) }

  function Values(col: Column): int -> int { p => At(col, p) }

  function GroupSum(col: Column, gs: int, g: int): int {
    Total(col, g * gs, Min((g + 1) * gs, |col|))
  }

  /** `dlp_gemm_col_sum_byte_offset`. */
  function SumOffset(k: int): int { RoundUp(k, 4) }

  /** Bytes of the whole layout. */
  function ColumnBytes(k: int, gs: int): int
    requires gs > 0
  {
    SumOffset(k) + 4 * NumGroups(k, gs)
  }

  lemma OffsetFacts(k: int)
    ensures k <= SumOffset(k) < k + 4 && SumOffset(k) % 4 == 0
  {
  }

  /** Byte y of the table of sums. */
  function SumByte(col: Column, gs: int, y: int): Byte {
    WordByte(128 * GroupSum(col, gs, y / 4), y % 4)
  }

  function LaidByte(was: seq<Byte>, col: Column, gs: int, x: int): Byte
    requires gs > 0 && 0 <= x < |was|
  {
    if x < |col| then ToByte(col[x])
    else if SumOffset(|col|) <= x < ColumnBytes(|col|, gs) then SumByte(col, gs, x - SumOffset(|col|))
    else was[x]
  }

  /** The buffer once the column and its sums are in place. */
  function Laid(was: seq<Byte>, col: Column, gs: int): (now: seq<Byte>)
    requires gs > 0
    ensures |now| == |was|
  {
    seq(|was|, x requires 0 <= x < |was| => LaidByte(was, col, gs, x))
  }

  /** Stages of filling the buffer: `done` weights and `slots` sums are in place and, when open is given, the next
      slot holds that value. */
  ghost predicate Stage(now: seq<Byte>, was: seq<Byte>, col: Column, gs: int, done: int, slots: int,
                        open: Option<int>)
  {
    && |now| == |was| && 0 <= done <= |col| && 0 <= slots
    && forall x {:trigger now[x]} :: 0 <= x < |was| ==> now[x] == StageByte(was, col, gs, done, slots, open, x)
  }

  function StageByte(was: seq<Byte>, col: Column, gs: int, done: int, slots: int, open: Option<int>, x: int): Byte
    requires 0 <= x < |was| && 0 <= done <= |col|
  {
    var off := SumOffset(|col|);
    if x < done then ToByte(col[x])
    else if off <= x < off + 4 * slots then SumByte(col, gs, x - off)
    else if open.Some? && off + 4 * slots <= x < off + 4 * slots + 4 then WordByte(open.value, x - off - 4 * slots)
    else was[x]
  }

  lemma StageStart(was: seq<Byte>, col: Column, gs: int)
    ensures Stage(was, was, col, gs, 0, 0, None)
  {
  }

  /** Storing a value into the slot being filled, whatever it held. */
  lemma StageWord(now: seq<Byte>, was: seq<Byte>, col: Column, gs: int, done: int, slots: int, open: Option<int>,
                  v: int, w: int)
    requires Stage(now, was, col, gs, done, slots, open) && SameWord(v, w)
    requires SumOffset(|col|) + 4 * slots + 4 <= |was|
    ensures Stage(PutWord(now, SumOffset(|col|) + 4 * slots, v), was, col, gs, done, slots, Some(w))
  {
    hide SumByte, WordByte;
    OffsetFacts(|col|);
    SameBytes(v, w);
  }

  /** Copying the next weight, which lies below the sums. */
  lemma StageWeight(now: seq<Byte>, was: seq<Byte>, col: Column, gs: int, done: int, slots: int, open: Option<int>)
    requires Stage(now, was, col, gs, done, slots, open) && done < |col| <= |was|
    ensures Stage(now[done := ToByte(col[done])], was, col, gs, done + 1, slots, open)
  {
    hide SumByte, WordByte;
    OffsetFacts(|col|);
  }

  lemma StageLoad(now: seq<Byte>, was: seq<Byte>, col: Column, gs: int, done: int, slots: int, w: int)
    requires Stage(now, was, col, gs, done, slots, Some(w)) && SumOffset(|col|) + 4 * slots + 4 <= |was|
    ensures Load32(now, SumOffset(|col|) + 4 * slots) == Wrap32(w)
  {
    hide SumByte, WordByte;
    OffsetFacts(|col|);
    LoadStored(now, SumOffset(|col|) + 4 * slots, w);
  }

  /** A slot holding 128 times its group's sum is finished. */
  lemma StageClose(now: seq<Byte>, was: seq<Byte>, col: Column, gs: int, done: int, slots: int, w: int)
    requires Stage(now, was, col, gs, done, slots, Some(w)) && w == 128 * GroupSum(col, gs, slots)
    ensures Stage(now, was, col, gs, done, slots + 1, None)
  {
    hide WordByte, GroupSum;
    forall y | 4 * slots <= y < 4 * slots + 4 ensures SumByte(col, gs, y) == WordByte(w, y - 4 * slots) {
      assert y / 4 == slots && y % 4 == y - 4 * slots;
    }
  }

  lemma StageEnd(now: seq<Byte>, was: seq<Byte>, col: Column, gs: int)
    requires gs > 0 && Stage(now, was, col, gs, |col|, NumGroups(|col|, gs), None)
    ensures now == Laid(was, col, gs)
  {
    hide SumByte, WordByte;
  }

  /** Reading the layout back: every weight, every group's sum, and nothing else disturbed. */
  lemma LaidReads(was: seq<Byte>, col: Column, gs: int)
    requires gs > 0 && |col| > 0 && |was| >= ColumnBytes(|col|, gs)
    ensures |col| <= SumOffset(|col|) < ColumnBytes(|col|, gs)
    ensures forall p :: 0 <= p < |col| ==> FromByte(Laid(was, col, gs)[p]) == col[p]
    ensures forall g :: 0 <= g < NumGroups(|col|, gs) ==>
              Load32(Laid(was, col, gs), SumOffset(|col|) + 4 * g) == Wrap32(128 * GroupSum(col, gs, g))
    ensures forall x :: |col| <= x < SumOffset(|col|) || ColumnBytes(|col|, gs) <= x < |was| ==>
              Laid(was, col, gs)[x] == was[x]
  {
    hide GroupSum;
    SlotCount(|col|, gs);
    OffsetFacts(|col|);
    forall g | 0 <= g < NumGroups(|col|, gs)
      ensures Load32(Laid(was, col, gs), SumOffset(|col|) + 4 * g) == Wrap32(128 * GroupSum(col, gs, g))
    {
      LaidSlot(was, col, gs, g);
    }
  }

  lemma LaidSlot(was: seq<Byte>, col: Column, gs: int, g: int)
    requires gs > 0 && 0 <= g < NumGroups(|col|, gs) && |was| >= ColumnBytes(|col|, gs)
    ensures Load32(Laid(was, col, gs), SumOffset(|col|) + 4 * g) == Wrap32(128 * GroupSum(col, gs, g))
  {
    hide GroupSum, WordByte;
    OffsetFacts(|col|);
    var now, at := Laid(was, col, gs), SumOffset(|col|) + 4 * g;
    forall t | 0 <= t < 4 ensures now[at + t] == WordByte(128 * GroupSum(col, gs, g), t) {
      assert (4 * g + t) / 4 == g && (4 * g + t) % 4 == t;
    }
    LoadStored(now, at, 128 * GroupSum(col, gs, g));
  }

  /** The first `slots` group sums added up. */
  function SumOfGroups(col: Column, gs: int, slots: int): int {
    if slots <= 0 then 0 else SumOfGroups(col, gs, slots - 1) + GroupSum(col, gs, slots - 1)
  }

  lemma {:induction false} GroupsAddUp(col: Column, gs: int, slots: int)
    requires gs > 0 && 0 <= slots <= NumGroups(|col|, gs)
    ensures SumOfGroups(col, gs, slots) == Total(col, 0, Min(slots * gs, |col|))
  {
    hide NumGroups;
    if slots > 0 {
      GroupsAddUp(col, gs, slots - 1);
      assert (slots - 1) * gs == slots * gs - gs;
      MulLe(0, slots - 1, gs);
      if |col| > 0 {
        SlotCount(|col|, gs);
        MulLe(slots - 1, NumGroups(|col|, gs) - 1, gs);
        IntSumSplit(Values(col), 0, (slots - 1) * gs, Min(slots * gs, |col|));
      }
    }
  }

  /** Wrapping after every addition is wrapping once. */
  lemma AddWrapped(col: Column, lo: int, p: int)
    requires 0 <= lo <= p < |col|
    ensures Wrap32(Wrap32(Total(col, lo, p)) + col[p]) == Wrap32(Total(col, lo, p + 1))
  {
    hide Wrap32;
    WrapIsSame(Total(col, lo, p));
    AddSame(Wrap32(Total(col, lo, p)), Total(col, lo, p), col[p]);
    SameBytes(Wrap32(Total(col, lo, p)) + col[p], Total(col, lo, p + 1));
  }

  /** Sum of the int32 words from offset `at`. */
  function SumOfWords(s: seq<Byte>, at: int, count: int): int
    requires 0 <= at && at + 4 * count <= |s|
  {
    if count <= 0 then 0 else SumOfWords(s, at, count - 1) + Load32(s, at + 4 * (count - 1))
  }

  /** The slots of a grouped buffer add up, in int32 arithmetic, to the one sum of an ungrouped buffer. */
  lemma SlotsAddUp(was: seq<Byte>, was': seq<Byte>, col: Column, gs: int)
    requires gs > 0 && |col| > 0 && |was| >= ColumnBytes(|col|, gs) && |was'| >= SumOffset(|col|) + 4
    ensures Wrap32(SumOfWords(Laid(was, col, gs), SumOffset(|col|), NumGroups(|col|, gs)))
            == Load32(Laid(was', col, |col|), SumOffset(|col|))
  {
    hide NumGroups, GroupSum;
    var slots, k := NumGroups(|col|, gs), |col|;
    SlotCount(k, gs);
    SlotCount(k, k);
    WordsAddUp(was, col, gs, slots);
    GroupsAddUp(col, gs, slots);
    LaidSlot(was', col, k, 0);
    WholeGroup(col);
    ScaledSums(col, gs, slots);
    SameBytes(SumOfWords(Laid(was, col, gs), SumOffset(k), slots), 128 * Total(col, 0, k));
  }

  lemma WholeGroup(col: Column)
    ensures GroupSum(col, |col|, 0) == Total(col, 0, |col|)
  {
  }

  lemma ScaledSums(col: Column, gs: int, slots: int)
    requires SumOfGroups(col, gs, slots) == Total(col, 0, Min(slots * gs, |col|)) && |col| <= slots * gs
    ensures 128 * SumOfGroups(col, gs, slots) == 128 * Total(col, 0, |col|)
  {
  }

  lemma {:induction false} WordsAddUp(was: seq<Byte>, col: Column, gs: int, slots: int)
    requires gs > 0 && |was| >= ColumnBytes(|col|, gs) && 0 <= slots <= NumGroups(|col|, gs)
    ensures SameWord(SumOfWords(Laid(was, col, gs), SumOffset(|col|), slots), 128 * SumOfGroups(col, gs, slots))
  {
    hide NumGroups, GroupSum, Wrap32, Load32, Laid;
    OffsetFacts(|col|);
    if slots > 0 {
      WordsAddUp(was, col, gs, slots - 1);
      LaidSlot(was, col, gs, slots - 1);
      WrapIsSame(128 * GroupSum(col, gs, slots - 1));
      SumSame(SumOfWords(Laid(was, col, gs), SumOffset(|col|), slots - 1), 128 * SumOfGroups(col, gs, slots - 1),
              Wrap32(128 * GroupSum(col, gs, slots - 1)), 128 * GroupSum(col, gs, slots - 1));
    }
  }

  /** Elements of magnitude at most `bound` above, and at least -bound below. */
  predicate Within(col: Column, bound: int) {
    forall p :: 0 <= p < |col| ==> -bound <= col[p] < bound
  }

  /** Every partial sum of at most 2^24 / bound elements can be scaled by 128 without leaving int32. */
  lemma PartialSumFits(col: Column, bound: int, lo: int, hi: int)
    requires 0 <= lo <= hi <= |col| && Within(col, bound) && bound > 0 && bound * (hi - lo) <= 0x100_0000
    ensures Fits32(Total(col, lo, hi)) && Fits32(128 * Total(col, lo, hi))
  {
    IntSumBound(Values(col), bound, lo, hi);
  }

  /** The limit is exact: every column of `len` elements has a scaled sum within int32 if and only if
      len * bound <= 2^24, that is 131072 elements of s8 and 2^21 elements of s4. */
  lemma ScaledSumsFitIff(len: nat, bound: int)
    requires 0 < bound <= 128
    ensures (forall col: Column :: |col| == len && Within(col, bound) ==> Fits32(128 * Total(col, 0, len)))
            <==> bound * len <= 0x100_0000
  {
    if bound * len <= 0x100_0000 {
      forall col: Column | |col| == len && Within(col, bound) ensures Fits32(128 * Total(col, 0, len)) {
        PartialSumFits(col, bound, 0, len);
      }
    } else {
      var low: Column := seq(len, _ => -bound);
      assert |low| == len && Within(low, bound);
      TotalConstant(low, -bound, len);
      assert !Fits32(128 * Total(low, 0, len)) by { assert -bound * len == -(bound * len); }
    }
  }

  lemma {:induction false} TotalConstant(col: Column, v: int, len: nat)
    requires len <= |col| && forall p :: 0 <= p < |col| ==> col[p] == v
    ensures Total(col, 0, len) == v * len
  {
    if len > 0 {
      TotalConstant(col, v, len - 1);
      Distribute(len - 1, 1, v);
    }
  }
}
