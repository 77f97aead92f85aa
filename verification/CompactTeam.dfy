/** The fused four-bit reorder by a team of threads: any slices, any interleaving of their writes, threads missing. */
module CompactTeam {
  import opened Arith
  import opened Traces
  import opened ThreadRange
  import opened BlockedLayout
  import opened PanelPack
  import opened ReorderWalk
  import opened UnreorderWalk
  import opened Reorder
  import opened Words
  import opened Nibbles
  import opened ColumnWords
  import opened GroupedSums
  import opened GroupedWalk
  import opened GroupedReorder
  import opened GroupedTeam
  import opened GroupedS4
  import opened GroupedFused

  /** Traces of a team, one for each slice of the columns. */
  ghost predicate FusedTeam(traces: seq<seq<Write<Byte>>>, slices: seq<(int, int)>, s: Shape, gs: int, B: Matrix<Byte>)
    requires Plan(s, gs) && B.Holds(s.k, s.n)
  {
    && |traces| == |slices| && Consecutive(slices, s.n, s.blk.NR)
    && forall t :: 0 <= t < |traces| ==> CompactWrites(traces[t], s, gs, B, slices[t].0, slices[t].1)
  }

  /** A memory as the threads find it: the table of sums cleared. */
  ghost predicate CompactCleared(mem: seq<Byte>, s: Shape, gs: int)
    requires Plan(s, gs)
  {
    && 0 <= s.Size() / 2 && CompactBytes(s, gs) <= |mem|
    && forall x :: s.Size() / 2 <= x < CompactBytes(s, gs) ==> mem[x] == 0
  }

  lemma FusedTeamShape(run: seq<Step<Byte>>, traces: seq<seq<Write<Byte>>>, slices: seq<(int, int)>, s: Shape, gs: int,
                       B: Matrix<Byte>, len: int)
    requires Plan(s, gs) && B.Holds(s.k, s.n) && FusedTeam(traces, slices, s, gs, B) && Interleaves(run, traces)
    requires CompactBytes(s, gs) <= len
    ensures |traces| == |slices| >= 1 && 0 <= End(slices) <= s.n && InBounds(Writes(run), len)
    ensures InBounds(Writes(run), CompactBytes(s, gs)) && SlotTeam(traces, slices, s, gs, B, s.Size() / 2)
  {
    hide RoundUp, Pos, Consecutive, SlotWritten, NumGroups, HalfByte, Owns;
    Widths(s, gs);
    SplitShape(slices, s.n, s.blk.NR);
    forall t | 0 <= t < |traces|
      ensures InBounds(traces[t], len) && InBounds(traces[t], CompactBytes(s, gs))
      ensures forall y :: 0 <= y < 4 * (Vectors(s, gs) * s.NPad()) ==>
                SlotWritten(traces[t], s, gs, B, slices[t].0, slices[t].1, s.Size() / 2, y)
    {
      assert CompactWrites(traces[t], s, gs, B, slices[t].0, slices[t].1);
    }
    RunInBounds(run, traces, len);
    RunInBounds(run, traces, CompactBytes(s, gs));
  }

  lemma FusedCell(run: seq<Step<Byte>>, traces: seq<seq<Write<Byte>>>, slices: seq<(int, int)>, s: Shape, gs: int,
                  B: Matrix<Byte>, p: int, j: int)
    requires Plan(s, gs) && B.Holds(s.k, s.n) && FusedTeam(traces, slices, s, gs, B) && Interleaves(run, traces)
    requires s.Padded(p, j)
    ensures |slices| >= 1
    ensures if Owns(s, 0, End(slices), j) then
              HalfByte(Last(Writes(run), Pos(s, p, j) / 2), Pos(s, p, j), B.At(s, p, j))
            else Last(Writes(run), Pos(s, p, j) / 2).None?
  {
    hide RoundUp, Pos, Consecutive, SlotWritten, NumGroups, Owns, HalfByte;
    SplitShape(slices, s.n, s.blk.NR);
    forall u | 0 <= u < |traces|
      ensures if Owns(s, slices[u].0, slices[u].1, j) then
                HalfByte(Last(traces[u], Pos(s, p, j) / 2), Pos(s, p, j), B.At(s, p, j))
              else Last(traces[u], Pos(s, p, j) / 2).None?
    {
      assert CompactWrites(traces[u], s, gs, B, slices[u].0, slices[u].1);
    }
    var t := TeamAddress(run, traces, slices, s, Pos(s, p, j) / 2, j);
  }

  /** The four bits of a widened weight read back. */
  lemma HalfNibble(now: seq<Byte>, b: Option<Byte>, x: int, w: Int8)
    requires 0 <= x / 2 < |now| && 0 <= x && -8 <= w < 8 && HalfByte(b, x, ToByte(w)) && now[x / 2] == b.value
    ensures Nibble(now, x) == w
  {
  }

  /** Any interleaving of the writes of a team leaves the weights and the sums of the columns its slices reach, and
      nothing else. */
  lemma AnyInterleavingCompacts(run: seq<Step<Byte>>, traces: seq<seq<Write<Byte>>>, slices: seq<(int, int)>, s: Shape,
                                gs: int, src: seq<bv8>, rs: int, cs: int, was: seq<Byte>)
    requires Plan(s, gs) && HoldsNibbles(|src|, s.k, s.n, rs, cs) && 0 <= s.k * s.n
    requires WidenedMatrix(src, s.k, s.n, rs, cs).Holds(s.k, s.n)
    requires FusedTeam(traces, slices, s, gs, WidenedMatrix(src, s.k, s.n, rs, cs)) && Interleaves(run, traces)
    requires CompactCleared(was, s, gs)
    ensures |slices| >= 1 && InBounds(Writes(run), |was|)
    ensures CompactOnly(Apply(was, Writes(run)), was, s, gs, src, rs, cs, End(slices))
  {
    hide RoundUp, Pos, NumGroups, Owns, SumsTo, FusedTeam, Tabled, WidenedMatrix, S4At, Addr, HalfByte, SlotTeam,
         Nibble;
    var B := WidenedMatrix(src, s.k, s.n, rs, cs);
    TableSize(s, gs);
    WideFacts(s, gs);
    FusedTeamShape(run, traces, slices, s, gs, B, |was|);
    var now := Apply(was, Writes(run));
    forall p, j | s.Padded(p, j)
      ensures 0 <= Pos(s, p, j) < s.Size()
      ensures Owns(s, 0, End(slices), j) ==>
                Nibble(now, Pos(s, p, j)) == if s.Live(p, j) then S4At(src, Addr(p, j, rs, cs)) else 0
      ensures !Owns(s, 0, End(slices), j) ==> now[Pos(s, p, j) / 2] == was[Pos(s, p, j) / 2]
    {
      CellOfPos(s, p, j);
      FusedCell(run, traces, slices, s, gs, B, p, j);
      ApplyAt(was, Writes(run), Pos(s, p, j) / 2);
      if Owns(s, 0, End(slices), j) {
        var w := WidenedCell(s, gs, src, rs, cs, p, j);
        HalfSome(Last(Writes(run), Pos(s, p, j) / 2), Pos(s, p, j), B.At(s, p, j));
        HalfNibble(now, Last(Writes(run), Pos(s, p, j) / 2), Pos(s, p, j), w);
      }
    }
    GroupTable(run, traces, slices, s, gs, B, was, now, s.Size() / 2);
  }

  lemma HalfSome(b: Option<Byte>, x: int, v: Byte)
    requires HalfByte(b, x, v)
    ensures b.Some?
  {
  }

  lemma WidenedCell(s: Shape, gs: int, src: seq<bv8>, rs: int, cs: int, p: int, j: int) returns (w: Int8)
    requires Plan(s, gs) && HoldsNibbles(|src|, s.k, s.n, rs, cs) && 0 <= s.k * s.n && s.Padded(p, j)
    requires WidenedMatrix(src, s.k, s.n, rs, cs).Holds(s.k, s.n)
    ensures -8 <= w < 8 && w == if s.Live(p, j) then S4At(src, Addr(p, j, rs, cs)) else 0
    ensures WidenedMatrix(src, s.k, s.n, rs, cs).At(s, p, j) == ToByte(w)
  {
    hide S4At, Addr, WidenedMatrix, RoundUp;
    w := if s.Live(p, j) then S4At(src, Addr(p, j, rs, cs)) else 0;
    if s.Live(p, j) { WidenedAt(src, s.k, s.n, rs, cs, p, j); }
  }

  /** A team split by the count asked for, of which only the first |traces| threads exist, completes the four-bit
      reorder from every memory exactly when they suffice. */
  lemma ShortFusedTeamIff(run: seq<Step<Byte>>, traces: seq<seq<Write<Byte>>>, ways: int, s: Shape, gs: int,
                          src: seq<bv8>, rs: int, cs: int)
    requires Plan(s, gs) && HoldsNibbles(|src|, s.k, s.n, rs, cs) && 0 <= s.k * s.n && 1 <= |traces| <= ways
    requires WidenedMatrix(src, s.k, s.n, rs, cs).Holds(s.k, s.n) && Interleaves(run, traces)
    requires FusedTeam(traces, TaskSlices(ways, |traces|, s.n, s.blk.NR), s, gs, WidenedMatrix(src, s.k, s.n, rs, cs))
    ensures InBounds(Writes(run), CompactBytes(s, gs))
    ensures (forall was :: |was| == CompactBytes(s, gs) && CompactCleared(was, s, gs) ==>
               CompactReordered(Apply(was, Writes(run)), was, s, gs, src, rs, cs))
            <==> Suffices(ways, |traces|, s.n, s.blk.NR)
  {
    hide TaskRange, RoundUp, Pos, FusedTeam, CompactTo, CompactOnly, TaskSlices, CompactCleared, NumGroups, Suffices,
         WidenedMatrix, SlotTeam;
    var slices := TaskSlices(ways, |traces|, s.n, s.blk.NR);
    TaskSlicesSplit(ways, |traces|, s.n, s.blk.NR);
    FusedTeamShape(run, traces, slices, s, gs, WidenedMatrix(src, s.k, s.n, rs, cs), CompactBytes(s, gs));
    EndReached(s, ways, |traces|);
    if End(slices) == s.n {
      forall was | |was| == CompactBytes(s, gs) && CompactCleared(was, s, gs)
        ensures CompactReordered(Apply(was, Writes(run)), was, s, gs, src, rs, cs)
      {
        AnyInterleavingCompacts(run, traces, slices, s, gs, src, rs, cs, was);
        OnlyIsTo(Apply(was, Writes(run)), was, s, gs, src, rs, cs, s.n);
      }
    } else {
      var was := MissedNibble(run, traces, slices, s, gs, src, rs, cs);
    }
  }

  /** A cleared memory in which a column the team does not reach is seen to be missing. */
  lemma MissedNibble(run: seq<Step<Byte>>, traces: seq<seq<Write<Byte>>>, slices: seq<(int, int)>, s: Shape, gs: int,
                     src: seq<bv8>, rs: int, cs: int) returns (was: seq<Byte>)
    requires Plan(s, gs) && HoldsNibbles(|src|, s.k, s.n, rs, cs) && 0 <= s.k * s.n
    requires WidenedMatrix(src, s.k, s.n, rs, cs).Holds(s.k, s.n) && Interleaves(run, traces)
    requires FusedTeam(traces, slices, s, gs, WidenedMatrix(src, s.k, s.n, rs, cs))
    requires |slices| >= 1 && End(slices) != s.n
    ensures |was| == CompactBytes(s, gs) && CompactCleared(was, s, gs) && InBounds(Writes(run), |was|)
    ensures !CompactReordered(Apply(was, Writes(run)), was, s, gs, src, rs, cs)
  {
    hide RoundUp, Pos, FusedTeam, NumGroups, Tabled, SumsTo, WidenedMatrix, SlotTeam, S4At, Addr;
    WideFacts(s, gs);
    TableSize(s, gs);
    LiveHasPos(s, 0, s.n - 1);
    var v := S4At(src, Addr(0, s.n - 1, rs, cs));
    var other: Byte := if v == 0 then 0x11 else 0;
    was := seq(CompactBytes(s, gs), i => if i < s.Size() / 2 then other else 0);
    FusedTeamShape(run, traces, slices, s, gs, WidenedMatrix(src, s.k, s.n, rs, cs), |was|);
    AnyInterleavingCompacts(run, traces, slices, s, gs, src, rs, cs, was);
    var now, x := Apply(was, Writes(run)), Pos(s, 0, s.n - 1);
    assert now[x / 2] == was[x / 2] == other;
    assert Nibble(now, x) == if v == 0 then 1 else 0;
  }
}
