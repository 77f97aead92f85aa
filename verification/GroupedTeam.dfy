/** The grouped int8 reorder by a team of threads: any slices, any interleaving of their writes, threads missing. */
module GroupedTeam {
  import opened Arith
  import opened Traces
  import opened ThreadRange
  import opened BlockedLayout
  import opened ReorderWalk
  import opened UnreorderWalk
  import opened Reorder
  import opened Words
  import opened ColumnWords
  import opened GroupedSums
  import opened GroupedPack
  import opened GroupedWalk
  import opened GroupedReorder

  /** What is left once the columns before hi are reordered: their cells and sums; every other cell as it was, every
      other slot 0. */
  ghost predicate GroupedTo(now: seq<Byte>, was: seq<Byte>, s: Shape, gs: int, B: Matrix<Byte>, hi: int)
    requires Plan(s, gs) && B.Holds(s.k, s.n)
  {
    && 0 <= s.Size() <= |was| == |now|
    && (forall p, j {:trigger Pos(s, p, j)} :: s.Padded(p, j) ==>
          && 0 <= Pos(s, p, j) < s.Size()
          && now[Pos(s, p, j)] == if Owns(s, 0, hi, j) then B.At(s, p, j) else was[Pos(s, p, j)])
    && Tabled(now[s.Size()..], was[s.Size()..], 0, SumsTo(s, B, gs, hi))
  }

  lemma WholeSums(s: Shape, B: Matrix<Byte>, gs: int)
    requires Plan(s, gs)
    ensures SumsTo(s, B, gs, s.n) == SumEntries(s, B, gs, seq(s.n, j => s.k))
  {
    assert SetLim(seq(s.n, j => 0), 0, s.n, s.k) == seq(s.n, j => s.k);
  }

  /** With every column reached that is the finished reorder. */
  lemma AllReached(now: seq<Byte>, was: seq<Byte>, s: Shape, gs: int, B: Matrix<Byte>)
    requires Plan(s, gs) && B.Holds(s.k, s.n)
    ensures GroupedTo(now, was, s, gs, B, s.n) <==> GroupReordered(now, was, s, gs, B)
  {
    hide RoundUp, Pos, Tabled, SumEntries, SumsTo, NumGroups, Matrix.At;
    WholeSums(s, B, gs);
    if 0 <= s.Size() <= |was| == |now| {
      forall p, j | s.Padded(p, j) ensures Owns(s, 0, s.n, j) && 0 <= Pos(s, p, j) < s.Size() { CellOfPos(s, p, j); }
      var low := now[..s.Size()];
      if GroupedTo(now, was, s, gs, B, s.n) {
        forall p, j | s.Padded(p, j) ensures low[Pos(s, p, j)] == B.At(s, p, j) {
          assert now[Pos(s, p, j)] == B.At(s, p, j);
        }
      } else if GroupReordered(now, was, s, gs, B) {
        forall p, j | s.Padded(p, j) ensures now[Pos(s, p, j)] == B.At(s, p, j) {
          assert low[Pos(s, p, j)] == B.At(s, p, j);
        }
      }
    }
  }

  /** Two completed grouped reorders of one matrix, from any two memories, agree on weights and sums. */
  lemma SameGroupedBytes(x: seq<Byte>, was: seq<Byte>, y: seq<Byte>, was': seq<Byte>, s: Shape, gs: int,
                         B: Matrix<Byte>)
    requires Plan(s, gs) && B.Holds(s.k, s.n)
    requires GroupReordered(x, was, s, gs, B) && GroupReordered(y, was', s, gs, B)
    ensures 0 <= WideBytes(s, gs) <= |x| && WideBytes(s, gs) <= |y| && x[..WideBytes(s, gs)] == y[..WideBytes(s, gs)]
  {
    hide Reordered, SumEntries, WordByte, NumGroups, RoundUp;
    TableSize(s, gs);
    var size := s.Size();
    Reorder.SameBytes(x[..size], was[..size], y[..size], was'[..size], s, B);
    SameSize(x[..size], was[..size], s, B);
    forall i | 0 <= i < WideBytes(s, gs) ensures x[i] == y[i] {
      if i < size {
        assert x[..size][..size][i] == y[..size][..size][i];
      } else {
        assert x[size..][i - size] == y[size..][i - size];
      }
    }
  }

  lemma SameSize(now: seq<Byte>, was: seq<Byte>, s: Shape, B: Matrix<Byte>)
    requires s.Valid() && B.Holds(s.k, s.n) && Reordered(now, was, s, B)
    ensures s.Size() <= |was| == |now|
  {
    hide Pos, RoundUp;
  }

  /** A memory as the threads find it: the table of sums cleared. */
  ghost predicate Cleared(mem: seq<Byte>, s: Shape, gs: int)
    requires Plan(s, gs)
  {
    && 0 <= s.Size() && WideBytes(s, gs) <= |mem|
    && forall x :: s.Size() <= x < WideBytes(s, gs) ==> mem[x] == 0
  }

  /** Traces of a team, one for each slice of the columns. */
  ghost predicate GroupTeam(traces: seq<seq<Write<Byte>>>, slices: seq<(int, int)>, s: Shape, gs: int, B: Matrix<Byte>)
    requires Plan(s, gs) && B.Holds(s.k, s.n)
  {
    && |traces| == |slices| && Consecutive(slices, s.n, s.blk.NR)
    && forall t :: 0 <= t < |traces| ==> ThreadWrites(traces[t], s, gs, B, slices[t].0, slices[t].1)
  }

  lemma GroupTeamShape(run: seq<Step<Byte>>, traces: seq<seq<Write<Byte>>>, slices: seq<(int, int)>, s: Shape, gs: int,
                       B: Matrix<Byte>, len: int)
    requires Plan(s, gs) && B.Holds(s.k, s.n) && GroupTeam(traces, slices, s, gs, B) && Interleaves(run, traces)
    requires WideBytes(s, gs) <= len
    ensures |traces| == |slices| >= 1 && 0 <= End(slices) <= s.n && InBounds(Writes(run), len) && 0 < s.NPad()
    ensures InBounds(Writes(run), WideBytes(s, gs))
  {
    hide RoundUp, Pos, Consecutive, SlotWritten, NumGroups;
    Widths(s, gs);
    SplitShape(slices, s.n, s.blk.NR);
    forall t | 0 <= t < |traces| ensures InBounds(traces[t], len) && InBounds(traces[t], WideBytes(s, gs)) {
      assert ThreadWrites(traces[t], s, gs, B, slices[t].0, slices[t].1);
    }
    RunInBounds(run, traces, len);
    RunInBounds(run, traces, WideBytes(s, gs));
  }

  lemma GroupCell(run: seq<Step<Byte>>, traces: seq<seq<Write<Byte>>>, slices: seq<(int, int)>, s: Shape, gs: int,
                  B: Matrix<Byte>, p: int, j: int)
    requires Plan(s, gs) && B.Holds(s.k, s.n) && GroupTeam(traces, slices, s, gs, B) && Interleaves(run, traces)
    requires s.Padded(p, j)
    ensures |slices| >= 1
    ensures Last(Writes(run), Pos(s, p, j)) == if Owns(s, 0, End(slices), j) then Some(B.At(s, p, j)) else None
  {
    hide RoundUp, Pos, Consecutive, SlotWritten, NumGroups, Owns;
    GroupTeamShape(run, traces, slices, s, gs, B, WideBytes(s, gs));
    forall u | 0 <= u < |traces|
      ensures Last(traces[u], Pos(s, p, j))
              == if Owns(s, slices[u].0, slices[u].1, j) then Some(B.At(s, p, j)) else None
    {
      assert ThreadWrites(traces[u], s, gs, B, slices[u].0, slices[u].1);
    }
    var t := TeamAddress(run, traces, slices, s, Pos(s, p, j), j);
  }

  /** Traces of a team as to the table of sums, which lies at address `at`. */
  ghost predicate SlotTeam(traces: seq<seq<Write<Byte>>>, slices: seq<(int, int)>, s: Shape, gs: int, B: Matrix<Byte>,
                           at: int)
    requires Plan(s, gs)
  {
    Widths(s, gs);
    && |traces| == |slices| && Consecutive(slices, s.n, s.blk.NR)
    && forall t, y :: 0 <= t < |traces| && 0 <= y < 4 * (Vectors(s, gs) * s.NPad()) ==>
         SlotWritten(traces[t], s, gs, B, slices[t].0, slices[t].1, at, y)
  }

  lemma GroupTeamSlots(traces: seq<seq<Write<Byte>>>, slices: seq<(int, int)>, s: Shape, gs: int, B: Matrix<Byte>)
    requires Plan(s, gs) && B.Holds(s.k, s.n) && GroupTeam(traces, slices, s, gs, B)
    ensures SlotTeam(traces, slices, s, gs, B, s.Size())
  {
    hide SlotWritten, RoundUp, Pos, NumGroups, Consecutive, Owns;
    Widths(s, gs);
    forall t, y | 0 <= t < |traces| && 0 <= y < 4 * (Vectors(s, gs) * s.NPad())
      ensures 0 < s.NPad() && SlotWritten(traces[t], s, gs, B, slices[t].0, slices[t].1, s.Size(), y)
    {
      assert ThreadWrites(traces[t], s, gs, B, slices[t].0, slices[t].1);
    }
  }

  lemma GroupSlot(run: seq<Step<Byte>>, traces: seq<seq<Write<Byte>>>, slices: seq<(int, int)>, s: Shape, gs: int,
                  B: Matrix<Byte>, at: int, y: int)
    requires Plan(s, gs) && SlotTeam(traces, slices, s, gs, B, at) && Interleaves(run, traces)
    requires 0 <= y < 4 * (Vectors(s, gs) * s.NPad())
    ensures |slices| >= 1 && 0 <= y / 4 < Vectors(s, gs) * s.NPad()
    ensures (if Last(Writes(run), at + y).Some? then Last(Writes(run), at + y).value else 0)
            == WordByte(SumsTo(s, B, gs, End(slices))[y / 4], y % 4)
  {
    hide RoundUp, Consecutive, NumGroups, Owns, WordByte, SumsTo, Plan;
    PlanShape(s, gs);
    Widths(s, gs);
    SplitShape(slices, s.n, s.blk.NR);
    DivBetween(y, 4, 0, Vectors(s, gs) * s.NPad());
    DivNonneg(y / 4, s.NPad());
    SlotOwners(traces, slices, s, gs, B, at, y);
    var t := TeamAddress(run, traces, slices, s, at + y, (y / 4) % s.NPad());
    assert SlotWritten(traces[t], s, gs, B, slices[t].0, slices[t].1, at, y);
    ReachedSlot(s, B, gs, slices, t, y);
    ZeroWord(y % 4);
  }

  lemma SlotOwners(traces: seq<seq<Write<Byte>>>, slices: seq<(int, int)>, s: Shape, gs: int, B: Matrix<Byte>, at: int,
                   y: int)
    requires Plan(s, gs) && SlotTeam(traces, slices, s, gs, B, at)
    requires 0 <= y < 4 * (Vectors(s, gs) * s.NPad()) && 0 < s.NPad()
    ensures forall u :: 0 <= u < |traces| && !Owns(s, slices[u].0, slices[u].1, (y / 4) % s.NPad()) ==>
              Last(traces[u], at + y).None?
  {
    hide RoundUp, Consecutive, NumGroups, WordByte, SumsTo;
    forall u | 0 <= u < |traces| && !Owns(s, slices[u].0, slices[u].1, (y / 4) % s.NPad())
      ensures Last(traces[u], at + y).None?
    {
      assert SlotWritten(traces[u], s, gs, B, slices[u].0, slices[u].1, at, y);
    }
  }

  /** A slot's entry once the slices before their end are done: whole for the columns they reach, 0 for the others and
      for padding. */
  lemma ReachedSlot(s: Shape, B: Matrix<Byte>, gs: int, slices: seq<(int, int)>, t: int, y: int)
    requires Plan(s, gs) && Consecutive(slices, s.n, s.blk.NR) && 0 <= t < |slices| && 0 < s.NPad()
    requires 0 <= y < 4 * (Vectors(s, gs) * s.NPad()) && 0 <= y / 4 < Vectors(s, gs) * s.NPad()
    requires var j := (y / 4) % s.NPad();
      Owns(s, 0, End(slices), j) ==> Owns(s, slices[t].0, slices[t].1, j)
    ensures var j := (y / 4) % s.NPad();
      && (slices[t].0 <= j < slices[t].1 && Owns(s, 0, End(slices), j) ==>
            SumsTo(s, B, gs, End(slices))[y / 4] == SumsTo(s, B, gs, s.n)[y / 4])
      && (!(slices[t].0 <= j < slices[t].1 && Owns(s, 0, End(slices), j)) ==> SumsTo(s, B, gs, End(slices))[y / 4] == 0)
  {
    hide RoundUp, NumGroups, RowSum;
    var j, v, R := (y / 4) % s.NPad(), y / 4 / s.NPad(), VectorRows(s, gs);
    SplitShape(slices, s.n, s.blk.NR);
    DivNonneg(y / 4, s.NPad());
    MulLe(0, v, R);
    EmptySum(B, j, v * R, Min((v + 1) * R, 0));
  }

  lemma GroupTable(run: seq<Step<Byte>>, traces: seq<seq<Write<Byte>>>, slices: seq<(int, int)>, s: Shape, gs: int,
                   B: Matrix<Byte>, was: seq<Byte>, now: seq<Byte>, at: int)
    requires 0 <= at <= |was| == |now| && |slices| >= 1
    requires Plan(s, gs) && SlotTeam(traces, slices, s, gs, B, at) && Interleaves(run, traces)
    requires var end := at + 4 * (Vectors(s, gs) * s.NPad());
      && at <= end <= |was| && InBounds(Writes(run), end) && InBounds(Writes(run), |was|)
      && forall x :: at <= x < end ==> was[x] == 0
    requires now == Apply(was, Writes(run))
    ensures Tabled(now[at..], was[at..], 0, SumsTo(s, B, gs, End(slices)))
  {
    hide RoundUp, NumGroups, SumsTo, SlotTeam, Plan, WordByte;
    PlanShape(s, gs);
    var vals := SumsTo(s, B, gs, End(slices));
    forall y | 0 <= y < |was| - at
      ensures now[at..][y] == if y < 4 * |vals| then WordByte(vals[y / 4], y % 4) else was[at..][y]
    {
      ApplyAt(was, Writes(run), at + y);
      if y < 4 * |vals| {
        GroupSlot(run, traces, slices, s, gs, B, at, y);
        assert was[at + y] == 0;
      } else {
        LastNone(Writes(run), at + y);
      }
    }
  }

  /** Any interleaving of the writes of a team leaves the cells and the sums of the columns its slices reach, and
      nothing else. */
  lemma AnyInterleavingGroups(run: seq<Step<Byte>>, traces: seq<seq<Write<Byte>>>, slices: seq<(int, int)>, s: Shape,
                              gs: int, B: Matrix<Byte>, was: seq<Byte>)
    requires Plan(s, gs) && B.Holds(s.k, s.n) && GroupTeam(traces, slices, s, gs, B) && Interleaves(run, traces)
    requires Cleared(was, s, gs)
    ensures |slices| >= 1 && InBounds(Writes(run), |was|)
    ensures GroupedTo(Apply(was, Writes(run)), was, s, gs, B, End(slices))
  {
    hide RoundUp, Pos, NumGroups, Owns, SumsTo, GroupTeam, Matrix.At, Tabled;
    TableSize(s, gs);
    GroupTeamShape(run, traces, slices, s, gs, B, |was|);
    var now := Apply(was, Writes(run));
    forall p, j | s.Padded(p, j)
      ensures 0 <= Pos(s, p, j) < s.Size()
      ensures now[Pos(s, p, j)] == if Owns(s, 0, End(slices), j) then B.At(s, p, j) else was[Pos(s, p, j)]
    {
      CellOfPos(s, p, j);
      GroupCell(run, traces, slices, s, gs, B, p, j);
      ApplyAt(was, Writes(run), Pos(s, p, j));
    }
    GroupTeamSlots(traces, slices, s, gs, B);
    GroupTable(run, traces, slices, s, gs, B, was, now, s.Size());
  }

  /** A team split by the count asked for, of which only the first |traces| threads exist, completes the grouped
      reorder from every memory exactly when they suffice. */
  lemma ShortGroupTeamIff(run: seq<Step<Byte>>, traces: seq<seq<Write<Byte>>>, ways: int, s: Shape, gs: int,
                          B: Matrix<Byte>)
    requires Plan(s, gs) && B.Holds(s.k, s.n) && 1 <= |traces| <= ways
    requires GroupTeam(traces, TaskSlices(ways, |traces|, s.n, s.blk.NR), s, gs, B) && Interleaves(run, traces)
    ensures InBounds(Writes(run), WideBytes(s, gs))
    ensures (forall was :: |was| == WideBytes(s, gs) && Cleared(was, s, gs) ==>
               GroupReordered(Apply(was, Writes(run)), was, s, gs, B))
            <==> Suffices(ways, |traces|, s.n, s.blk.NR)
  {
    hide TaskRange, RoundUp, Pos, GroupTeam, GroupReordered, GroupedTo, TaskSlices, Cleared, NumGroups, Suffices;
    var slices := TaskSlices(ways, |traces|, s.n, s.blk.NR);
    TaskSlicesSplit(ways, |traces|, s.n, s.blk.NR);
    GroupTeamShape(run, traces, slices, s, gs, B, WideBytes(s, gs));
    EndReached(s, ways, |traces|);
    if End(slices) == s.n {
      forall was | |was| == WideBytes(s, gs) && Cleared(was, s, gs)
        ensures GroupReordered(Apply(was, Writes(run)), was, s, gs, B)
      {
        AnyInterleavingGroups(run, traces, slices, s, gs, B, was);
        AllReached(Apply(was, Writes(run)), was, s, gs, B);
      }
    } else {
      var was := MissedGroup(run, traces, slices, s, gs, B);
    }
  }

  /** A cleared memory in which a column the team does not reach is seen to be missing. */
  lemma MissedGroup(run: seq<Step<Byte>>, traces: seq<seq<Write<Byte>>>, slices: seq<(int, int)>, s: Shape, gs: int,
                    B: Matrix<Byte>) returns (was: seq<Byte>)
    requires Plan(s, gs) && B.Holds(s.k, s.n) && GroupTeam(traces, slices, s, gs, B) && Interleaves(run, traces)
    requires |slices| >= 1 && End(slices) != s.n
    ensures |was| == WideBytes(s, gs) && Cleared(was, s, gs) && InBounds(Writes(run), |was|)
    ensures !GroupReordered(Apply(was, Writes(run)), was, s, gs, B)
  {
    hide RoundUp, Pos, GroupTeam, NumGroups, Tabled, SumsTo, SumEntries, Cell;
    SizePositive(s);
    TableSize(s, gs);
    var v := B.At(s, 0, s.n - 1);
    var other: Byte := if v == 0 then 1 else 0;
    was := seq(WideBytes(s, gs), i => if i < s.Size() then other else 0);
    GroupTeamShape(run, traces, slices, s, gs, B, |was|);
    LiveHasPos(s, 0, s.n - 1);
    AnyInterleavingGroups(run, traces, slices, s, gs, B, was);
    var now := Apply(was, Writes(run));
    assert now[Pos(s, 0, s.n - 1)] == was[Pos(s, 0, s.n - 1)] == other;
    assert now[..s.Size()][Pos(s, 0, s.n - 1)] != v;
  }

  /** The threads a reorder asks for. */
  function Ways(nThreads: int): int { if nThreads > 0 then nThreads else 1 }

  /** `dlp_reorderb_nr64_s8s8s32o32_sym_quant`, when `team` of the threads it asks for run; their slices are taken one
      after another. */
  method ReorderGrouped(buf: array<Byte>, s: Shape, B: Matrix<Byte>, gs: int, nThreads: int, team: int)
    requires Plan(s, gs) && B.Holds(s.k, s.n) && WideBytes(s, gs) <= buf.Length && 1 <= team <= Ways(nThreads)
    modifies buf
    ensures GroupedTo(buf[..], old(buf[..]), s, gs, B, TaskRange(Ways(nThreads), team - 1, s.n, s.blk.NR).1)
    ensures Suffices(Ways(nThreads), team, s.n, s.blk.NR) ==> GroupReordered(buf[..], old(buf[..]), s, gs, B)
  {
    hide TaskRange, RoundUp, PackedCols, InParts, SumEntries, SetLim, GroupReordered, NumGroups, GroupedTo,
         ThreadWrites, Suffices;
    ghost var mem, zero := buf[..], seq(s.n, j => 0);
    SizePositive(s);
    TableSize(s, gs);
    ClearSums(buf, s.Size(), Vectors(s, gs) * s.NPad());
    NoRowsYet(s, B, gs);
    SetNone(zero, 0, s.k);
    var ways := if nThreads > 0 then nThreads else 1;
    ghost var tr: seq<Write<Byte>> := [];
    NothingPacked(s, B, 0);
    RangeEnds(ways, s.n, s.blk.NR);
    ghost var done := 0;
    var id := 0;
    while id < team
      invariant 0 <= id <= team && done == if id == 0 then 0 else TaskRange(ways, id - 1, s.n, s.blk.NR).1
      invariant PackedCols(tr, s, B, 0, done)
      invariant InParts(buf[..], mem, s.Size(), tr, SumEntries(s, B, gs, SetLim(zero, 0, done, s.k)))
    {
      var (lo, hi) := TaskRange(ways, id, s.n, s.blk.NR);
      RangeIsSlice(ways, id, s.n, s.blk.NR);
      if id > 0 { RangesAreOrdered(ways, id - 1, id, s.n, s.blk.NR); }
      ghost var here := buf[..];
      SetAfter(zero, 0, lo, s.k, hi, 0);
      Rebase(here, mem, s.Size(), tr, SumEntries(s, B, gs, SetLim(zero, 0, lo, s.k)));
      ghost var part, all := GroupedThread(buf, s, B, gs, lo, hi, here, SetLim(zero, 0, lo, s.k));
      SetExtends(zero, 0, lo, hi, s.k);
      SetAfter(zero, 0, hi, s.k, hi, 0);
      Chain(buf[..], here, mem, s.Size(), tr, part, SumEntries(s, B, gs, SetLim(zero, 0, lo, s.k)),
            SumEntries(s, B, gs, SetLim(zero, 0, hi, s.k)));
      JoinColumns(tr, part, s, B, lo, hi);
      tr := tr + part;
      done := hi;
      id := id + 1;
    }
    ColumnsReached(buf[..], mem, s, B, gs, tr, done);
    EndReached(s, ways, team);
    AllReached(buf[..], mem, s, gs, B);
  }

  lemma ColumnsReached(buf: seq<Byte>, mem: seq<Byte>, s: Shape, B: Matrix<Byte>, gs: int, tr: seq<Write<Byte>>,
                       hi: int)
    requires Plan(s, gs) && B.Holds(s.k, s.n) && PackedCols(tr, s, B, 0, hi)
    requires InParts(buf, mem, s.Size(), tr, SumEntries(s, B, gs, SetLim(seq(s.n, j => 0), 0, hi, s.k)))
    ensures GroupedTo(buf, mem, s, gs, B, hi)
  {
    hide Tabled, SumEntries, RoundUp, Pos, Owns, Matrix.At, NumGroups;
    var size := s.Size();
    forall p, j | s.Padded(p, j)
      ensures 0 <= Pos(s, p, j) < size
      ensures buf[Pos(s, p, j)] == if Owns(s, 0, hi, j) then B.At(s, p, j) else mem[Pos(s, p, j)]
    {
      CellOfPos(s, p, j);
      ApplyAt(mem[..size], tr, Pos(s, p, j));
      assert buf[Pos(s, p, j)] == buf[..size][Pos(s, p, j)];
    }
  }
}
