/** Reordering B and reading it back: any team of threads, any interleaving of their writes. */
module Reorder {
  import opened Arith
  import opened BlockedLayout
  import opened Traces
  import opened ThreadRange
  import opened PanelPack
  import opened ReorderWalk
  import opened UnreorderWalk

  /** Memory once B is reordered: every cell, padding included, at its position, and nothing else touched. */
  ghost predicate Reordered<T>(now: seq<T>, was: seq<T>, s: Shape, B: Matrix<T>)
    requires s.Valid() && B.Holds(s.k, s.n)
  {
    && |now| == |was| && s.Size() <= |was|
    && (forall p, j {:trigger Pos(s, p, j)} :: s.Padded(p, j) ==>
          0 <= Pos(s, p, j) < s.Size() && now[Pos(s, p, j)] == B.At(s, p, j))
    && forall x :: 0 <= x < |was| && s.Size() <= x ==> now[x] == was[x]
  }

  /** Memory once a reordered buffer is read back: the window restored, and nothing else touched. */
  ghost predicate Unreordered<T>(now: seq<T>, was: seq<T>, s: Shape, packed: seq<T>, rs: int, cs: int)
    requires s.Valid() && s.Size() <= |packed|
  {
    && |now| == |was| && Window(s, rs, cs, |was|)
    && (forall p, j {:trigger Addr(p, j, rs, cs)} :: s.Live(p, j) ==>
          now[Addr(p, j, rs, cs)] == Stored(s, packed, p, j))
    && forall x :: 0 <= x < |was| && (forall p, j :: s.Live(p, j) ==> x != Addr(p, j, rs, cs)) ==> now[x] == was[x]
  }

  /** Slices of the columns handed to the threads of a team, in order and without a gap, from column 0 on. */
  ghost predicate Consecutive(slices: seq<(int, int)>, n: int, NR: int)
    requires NR > 0
  {
    && |slices| >= 1 && slices[0].0 == 0
    && (forall t :: 0 <= t < |slices| ==> Slice(slices[t].0, slices[t].1, n, NR))
    && forall t {:trigger slices[t]} :: 0 < t < |slices| ==> slices[t - 1].1 == slices[t].0
  }

  function End(slices: seq<(int, int)>): int
    requires |slices| >= 1
  {
    slices[|slices| - 1].1
  }

  lemma SliceGoesUp(slice: (int, int), n: int, NR: int)
    requires NR > 0 && Slice(slice.0, slice.1, n, NR)
    ensures 0 <= slice.0 <= slice.1 <= n
  {
  }

  lemma {:induction false} SlicesOrdered(slices: seq<(int, int)>, n: int, NR: int, a: int, b: int)
    requires NR > 0 && Consecutive(slices, n, NR) && 0 <= a < b < |slices|
    ensures slices[a].1 <= slices[b].0
    decreases b
  {
    hide Slice;
    assert slices[b - 1].1 == slices[b].0;
    SliceGoesUp(slices[b - 1], n, NR);
    if a < b - 1 { SlicesOrdered(slices, n, NR, a, b - 1); }
  }

  /** The slice a column below the end of the last one lies in. */
  lemma {:induction false} SliceOf(slices: seq<(int, int)>, n: int, NR: int, last: int, j: int) returns (t: nat)
    requires NR > 0 && Consecutive(slices, n, NR) && 0 <= last < |slices| && 0 <= j < slices[last].1
    ensures t <= last && slices[t].0 <= j < slices[t].1
    decreases last
  {
    if j >= slices[last].0 {
      t := last;
    } else {
      assert slices[last - 1].1 == slices[last].0;
      t := SliceOf(slices, n, NR, last - 1, j);
    }
  }

  /** The first `team` of the slices `dlp_thread_task_range` cuts for `ways` work ids. */
  function TaskSlices(ways: int, team: int, n: int, NR: int): (slices: seq<(int, int)>)
    requires NR > 0
    ensures |slices| == if team > 0 then team else 0
  {
    seq(if team > 0 then team else 0, t => TaskRange(ways, t, n, NR))
  }

  lemma TaskSlicesSplit(ways: int, team: int, n: int, NR: int)
    requires NR > 0 && n >= 0 && 1 <= team <= ways
    ensures Consecutive(TaskSlices(ways, team, n, NR), n, NR)
    ensures End(TaskSlices(ways, team, n, NR)) == TaskRange(ways, team - 1, n, NR).1
    ensures team == ways ==> End(TaskSlices(ways, team, n, NR)) == n
  {
    hide TaskRange;
    var slices := TaskSlices(ways, team, n, NR);
    RangeEnds(ways, n, NR);
    forall t | 0 <= t < team ensures Slice(slices[t].0, slices[t].1, n, NR) { RangeIsSlice(ways, t, n, NR); }
    forall t | 0 < t < team ensures slices[t - 1].1 == slices[t].0 { RangesAreOrdered(ways, t - 1, t, n, NR); }
  }

  /** Traces of a team, one for each slice. */
  ghost predicate TeamTraces<T>(traces: seq<seq<Write<T>>>, slices: seq<(int, int)>, s: Shape, B: Matrix<T>)
    requires s.Valid() && B.Holds(s.k, s.n)
  {
    && |traces| == |slices| && Consecutive(slices, s.n, s.blk.NR)
    && forall t :: 0 <= t < |traces| ==> PackedCols(traces[t], s, B, slices[t].0, slices[t].1)
  }

  /** An address that only the owner of column j may write ends up as that owner alone leaves it, or unwritten when no
      slice reaches the column. */
  lemma TeamAddress<T>(run: seq<Step<T>>, traces: seq<seq<Write<T>>>, slices: seq<(int, int)>, s: Shape, x: int, j: int)
    returns (t: nat)
    requires s.Valid() && |traces| == |slices| && Consecutive(slices, s.n, s.blk.NR) && Interleaves(run, traces)
    requires 0 <= j < s.NPad()
    requires forall u :: 0 <= u < |traces| && !Owns(s, slices[u].0, slices[u].1, j) ==> Last(traces[u], x).None?
    ensures t < |traces| && Last(Writes(run), x) == Last(traces[t], x)
    ensures Owns(s, 0, End(slices), j) ==> Owns(s, slices[t].0, slices[t].1, j)
    ensures !Owns(s, 0, End(slices), j) ==> Last(Writes(run), x).None?
  {
    hide RoundUp, Owns, Consecutive;
    SplitShape(slices, s.n, s.blk.NR);
    t := 0;
    if Owns(s, 0, End(slices), j) { t := OwnerOf(s, slices, j); }
    forall u | 0 <= u < |traces| && (u != t || !Owns(s, 0, End(slices), j)) ensures Last(traces[u], x).None? {
      if Owns(s, slices[u].0, slices[u].1, j) {
        OwnedWithin(s, slices, u, j);
        OneOwner(s, slices, u, t, j);
      }
    }
    OwnerDecides(run, traces, t, x);
  }

  lemma SplitShape(slices: seq<(int, int)>, n: int, NR: int)
    requires NR > 0 && Consecutive(slices, n, NR)
    ensures |slices| >= 1 && 0 <= End(slices) <= n
  {
    SliceGoesUp(slices[|slices| - 1], n, NR);
  }

  /** Each column a team's slices reach belongs to one of its threads. */
  lemma OwnerOf(s: Shape, slices: seq<(int, int)>, j: int) returns (t: nat)
    requires s.Valid() && Consecutive(slices, s.n, s.blk.NR) && 0 <= j < s.NPad() && Owns(s, 0, End(slices), j)
    ensures t < |slices| && Owns(s, slices[t].0, slices[t].1, j)
  {
    hide RoundUp;
    t := SliceOf(slices, s.n, s.blk.NR, |slices| - 1, Min(j, s.n - 1));
  }

  lemma OneOwner(s: Shape, slices: seq<(int, int)>, t: int, u: int, j: int)
    requires s.Valid() && Consecutive(slices, s.n, s.blk.NR) && 0 <= t < |slices| && 0 <= u < |slices| && t != u
    requires Owns(s, slices[t].0, slices[t].1, j)
    ensures !Owns(s, slices[u].0, slices[u].1, j)
  {
    hide RoundUp;
    if t < u { SlicesOrdered(slices, s.n, s.blk.NR, t, u); } else { SlicesOrdered(slices, s.n, s.blk.NR, u, t); }
  }

  lemma OwnedWithin(s: Shape, slices: seq<(int, int)>, t: int, j: int)
    requires s.Valid() && Consecutive(slices, s.n, s.blk.NR) && 0 <= t < |slices| && 0 <= j
    requires Owns(s, slices[t].0, slices[t].1, j)
    ensures Owns(s, 0, End(slices), j)
  {
    hide RoundUp;
    if t < |slices| - 1 { SlicesOrdered(slices, s.n, s.blk.NR, t, |slices| - 1); }
  }

  lemma TraceOfSlice<T>(traces: seq<seq<Write<T>>>, slices: seq<(int, int)>, s: Shape, B: Matrix<T>, u: int, p: int,
                        j: int)
    requires s.Valid() && B.Holds(s.k, s.n) && TeamTraces(traces, slices, s, B) && 0 <= u < |traces| && s.Padded(p, j)
    ensures InBounds(traces[u], s.Size())
    ensures Last(traces[u], Pos(s, p, j))
            == if Owns(s, slices[u].0, slices[u].1, j) then Some(B.At(s, p, j)) else None
  {
    hide RoundUp, Pos, Owns, Consecutive;
  }

  /** At most one thread writes a given cell, and some thread does when the team's slices reach its column. */
  lemma CellWriter<T>(traces: seq<seq<Write<T>>>, slices: seq<(int, int)>, s: Shape, B: Matrix<T>, p: int, j: int)
    returns (t: nat)
    requires s.Valid() && B.Holds(s.k, s.n) && TeamTraces(traces, slices, s, B) && s.Padded(p, j)
    ensures t < |traces| && forall u :: 0 <= u < |traces| && u != t ==> Last(traces[u], Pos(s, p, j)).None?
    ensures Last(traces[t], Pos(s, p, j)) == if Owns(s, 0, End(slices), j) then Some(B.At(s, p, j)) else None
  {
    hide RoundUp, Pos, Owns, PackedCols, Consecutive;
    TeamShape(traces, slices, s, B);
    t := 0;
    if Owns(s, 0, End(slices), j) {
      t := OwnerOf(s, slices, j);
    }
    forall u | 0 <= u < |traces|
      ensures u != t ==> Last(traces[u], Pos(s, p, j)).None?
    {
      TraceOfSlice(traces, slices, s, B, u, p, j);
      if Owns(s, slices[u].0, slices[u].1, j) {
        OwnedWithin(s, slices, u, j);
        if u != t { OneOwner(s, slices, t, u, j); }
      }
    }
    TraceOfSlice(traces, slices, s, B, t, p, j);
    if Owns(s, slices[t].0, slices[t].1, j) {
      OwnedWithin(s, slices, t, j);
    }
  }

  lemma TeamShape<T>(traces: seq<seq<Write<T>>>, slices: seq<(int, int)>, s: Shape, B: Matrix<T>)
    requires s.Valid() && B.Holds(s.k, s.n) && TeamTraces(traces, slices, s, B)
    ensures 1 <= |slices| == |traces| && 0 <= End(slices) <= s.n && Slice(0, End(slices), s.n, s.blk.NR)
  {
    hide RoundUp, Pos;
  }

  lemma TeamInBounds<T>(run: seq<Step<T>>, traces: seq<seq<Write<T>>>, slices: seq<(int, int)>, s: Shape,
                        B: Matrix<T>, size: int)
    requires s.Valid() && B.Holds(s.k, s.n) && TeamTraces(traces, slices, s, B) && Interleaves(run, traces)
    requires s.Size() <= size
    ensures InBounds(Writes(run), s.Size()) && InBounds(Writes(run), size)
  {
    hide RoundUp, Pos, Owns, Consecutive;
    RunInBounds(run, traces, s.Size());
  }

  /** What a team leaves in memory, whatever its slices and the interleaving of its writes: each column its slices
      reach is packed, every other position keeps what it held. */
  lemma TeamResult<T>(run: seq<Step<T>>, traces: seq<seq<Write<T>>>, slices: seq<(int, int)>, s: Shape, B: Matrix<T>,
                      was: seq<T>, p: int, j: int)
    requires s.Valid() && B.Holds(s.k, s.n) && TeamTraces(traces, slices, s, B) && Interleaves(run, traces)
    requires s.Size() <= |was| && s.Padded(p, j)
    ensures InBounds(Writes(run), |was|) && 0 <= Pos(s, p, j) < s.Size() && |slices| >= 1
    ensures Apply(was, Writes(run))[Pos(s, p, j)]
            == if Owns(s, 0, End(slices), j) then B.At(s, p, j) else was[Pos(s, p, j)]
  {
    hide RoundUp, Pos, Cell, Owns, TeamTraces;
    CellOfPos(s, p, j);
    TeamShape(traces, slices, s, B);
    TeamInBounds(run, traces, slices, s, B, |was|);
    ApplyAt(was, Writes(run), Pos(s, p, j));
    var t := CellWriter(traces, slices, s, B, p, j);
    OwnerDecides(run, traces, t, Pos(s, p, j));
  }

  /** A team whose slices reach the last column reorders B: for every way to cut the columns at NR boundaries, and
      however its threads' writes interleave. */
  lemma AnyInterleavingReorders<T>(run: seq<Step<T>>, traces: seq<seq<Write<T>>>, slices: seq<(int, int)>, s: Shape,
                                   B: Matrix<T>, was: seq<T>)
    requires s.Valid() && B.Holds(s.k, s.n) && TeamTraces(traces, slices, s, B) && Interleaves(run, traces)
    requires s.Size() <= |was| && End(slices) == s.n
    ensures InBounds(Writes(run), |was|) && Reordered(Apply(was, Writes(run)), was, s, B)
  {
    hide RoundUp, Pos, TeamTraces;
    TeamInBounds(run, traces, slices, s, B, |was|);
    forall p, j | s.Padded(p, j)
      ensures 0 <= Pos(s, p, j) < s.Size() && Apply(was, Writes(run))[Pos(s, p, j)] == B.At(s, p, j)
    {
      TeamResult(run, traces, slices, s, B, was, p, j);
    }
    OutsideKept(Writes(run), s.Size(), was);
  }

  lemma OutsideKept<T>(tr: seq<Write<T>>, size: int, was: seq<T>)
    requires InBounds(tr, size) && size <= |was|
    ensures InBounds(tr, |was|) && forall x :: 0 <= x < |was| && size <= x ==> Apply(was, tr)[x] == was[x]
  {
    forall x | 0 <= x < |was| && size <= x ensures Apply(was, tr)[x] == was[x] {
      ApplyAt(was, tr, x);
      LastNone(tr, x);
    }
  }

  /** Thread count and schedule do not change the bytes: two reorders of one matrix, from any two memories,
      agree on the whole buffer. */
  lemma SameBytes<T>(now: seq<T>, was: seq<T>, now': seq<T>, was': seq<T>, s: Shape, B: Matrix<T>)
    requires s.Valid() && B.Holds(s.k, s.n)
    requires Reordered(now, was, s, B) && Reordered(now', was', s, B)
    ensures 0 <= s.Size() && now[..s.Size()] == now'[..s.Size()]
  {
    hide RoundUp, Pos, Cell, Matrix.At;
    SizePositive(s);
    var size := s.Size();
    forall x | 0 <= x < size ensures now[x] == now'[x] {
      PosOfCell(s, x);
      var (p, j) := Cell(s, x);
      assert now[Pos(s, p, j)] == now'[Pos(s, p, j)];
    }
  }

  lemma SizePositive(s: Shape)
    requires s.Valid()
    ensures 0 < s.Size()
  {
    hide RoundUp;
    RoundUpFacts(s.k, s.blk.kf);
    RoundUpFacts(s.n, s.blk.minNR);
    MulLe(1, s.NPad(), s.KPad());
  }

  /** A team that splits the columns by the thread count it asked for, and of which only the first |traces|
      threads exist, reorders B from every initial memory exactly when no thread is missing or the
      missing ones own no columns. */
  lemma ShortTeamIff(run: seq<Step<real>>, traces: seq<seq<Write<real>>>, ways: int, s: Shape, B: Matrix<real>)
    requires s.Valid() && B.Holds(s.k, s.n) && 1 <= |traces| <= ways
    requires TeamTraces(traces, TaskSlices(ways, |traces|, s.n, s.blk.NR), s, B) && Interleaves(run, traces)
    ensures InBounds(Writes(run), s.Size())
    ensures (forall was: seq<real> :: |was| == s.Size() ==> Reordered(Apply(was, Writes(run)), was, s, B))
            <==> Suffices(ways, |traces|, s.n, s.blk.NR)
  {
    hide TaskRange, RoundUp, Pos, Cell, TeamTraces, Reordered, TaskSlices;
    var slices := TaskSlices(ways, |traces|, s.n, s.blk.NR);
    TaskSlicesSplit(ways, |traces|, s.n, s.blk.NR);
    TeamInBounds(run, traces, slices, s, B, s.Size());
    EndReached(s, ways, |traces|);
    if End(slices) == s.n {
      forall was: seq<real> | |was| == s.Size() ensures Reordered(Apply(was, Writes(run)), was, s, B) {
        AnyInterleavingReorders(run, traces, slices, s, B, was);
      }
    } else {
      var was := Missed(run, traces, slices, s, B);
    }
  }

  lemma EndReached(s: Shape, ways: int, team: int)
    requires s.Valid() && 1 <= team <= ways
    ensures TaskRange(ways, team - 1, s.n, s.blk.NR).1 == s.n
            <==> Suffices(ways, team, s.n, s.blk.NR)
  {
    hide TaskRange;
    TeamCoversIff(ways, team, s.n, s.blk.NR);
    RangeIsSlice(ways, team - 1, s.n, s.blk.NR);
    forall j | 0 <= j < s.n
      ensures Covered(j, ways, team, s.n, s.blk.NR) <==> j < TaskRange(ways, team - 1, s.n, s.blk.NR).1
    {
      CoveredIsPrefix(j, ways, team, s.n, s.blk.NR);
    }
    assert Covered(s.n - 1, ways, team, s.n, s.blk.NR) <==> s.n - 1 < TaskRange(ways, team - 1, s.n, s.blk.NR).1;
  }

  /** A memory in which a column the team does not reach is seen to be missing. */
  lemma Missed(run: seq<Step<real>>, traces: seq<seq<Write<real>>>, slices: seq<(int, int)>, s: Shape, B: Matrix<real>)
    returns (was: seq<real>)
    requires s.Valid() && B.Holds(s.k, s.n) && TeamTraces(traces, slices, s, B) && Interleaves(run, traces)
    requires End(slices) != s.n
    ensures |was| == s.Size() && InBounds(Writes(run), |was|) && !Reordered(Apply(was, Writes(run)), was, s, B)
  {
    hide RoundUp, Pos, Cell, TeamTraces;
    SizePositive(s);
    TeamInBounds(run, traces, slices, s, B, s.Size());
    TeamShape(traces, slices, s, B);
    var v := B.At(s, 0, s.n - 1);
    was := seq(s.Size(), i => v + 1.0);
    LiveHasPos(s, 0, s.n - 1);
    TeamResult(run, traces, slices, s, B, was, 0, s.n - 1);
    assert Apply(was, Writes(run))[Pos(s, 0, s.n - 1)] != v;
  }

  /** Traces of a team reading the buffer back. */
  ghost predicate UnTeamTraces<T>(traces: seq<seq<Write<T>>>, slices: seq<(int, int)>, s: Shape, packed: seq<T>,
                                  rs: int, cs: int, len: int)
    requires s.Valid() && s.Size() <= |packed|
  {
    && |traces| == |slices| && Consecutive(slices, s.n, s.blk.NR)
    && forall t :: 0 <= t < |traces| ==>
        InBounds(traces[t], len) && UnpackedPart(traces[t], s, packed, rs, cs, slices[t].0, slices[t].1, 0, 0)
  }

  /** Exactly one thread writes the address of a live cell. */
  lemma CellReader<T>(traces: seq<seq<Write<T>>>, slices: seq<(int, int)>, s: Shape, packed: seq<T>, rs: int, cs: int,
                      len: int, p: int, j: int) returns (t: nat)
    requires s.Valid() && s.Size() <= |packed| && s.Live(p, j) && Window(s, rs, cs, len)
    requires UnTeamTraces(traces, slices, s, packed, rs, cs, len) && |slices| >= 1 && End(slices) == s.n
    ensures t < |traces| && Last(traces[t], Addr(p, j, rs, cs)) == Some(Stored(s, packed, p, j))
    ensures forall u :: 0 <= u < |traces| && u != t ==> Last(traces[u], Addr(p, j, rs, cs)).None?
  {
    hide RoundUp, Pos, Addr, Slice;
    t := SliceOf(slices, s.n, s.blk.NR, |slices| - 1, j);
    forall u | 0 <= u < |traces| && u != t ensures Last(traces[u], Addr(p, j, rs, cs)).None? {
      if t < u { SlicesOrdered(slices, s.n, s.blk.NR, t, u); } else { SlicesOrdered(slices, s.n, s.blk.NR, u, t); }
    }
  }

  lemma NotWritten<T>(traces: seq<seq<Write<T>>>, slices: seq<(int, int)>, s: Shape, packed: seq<T>, rs: int, cs: int,
                      len: int, x: int)
    requires s.Valid() && s.Size() <= |packed| && 0 <= x < len
    requires UnTeamTraces(traces, slices, s, packed, rs, cs, len)
    requires forall p, j :: s.Live(p, j) ==> x != Addr(p, j, rs, cs)
    ensures forall u :: 0 <= u < |traces| ==> Last(traces[u], x).None?
  {
    hide RoundUp, Pos, Addr, Consecutive, Slice;
  }

  lemma SomeSlice(slices: seq<(int, int)>, n: int, NR: int)
    requires NR > 0 && Consecutive(slices, n, NR)
    ensures |slices| >= 1
  {
  }

  /** A team whose slices reach the last column restores the window, however its threads' writes interleave. */
  lemma AnyInterleavingUnreorders<T>(run: seq<Step<T>>, traces: seq<seq<Write<T>>>, slices: seq<(int, int)>, s: Shape,
                                     packed: seq<T>, rs: int, cs: int, was: seq<T>)
    requires s.Valid() && s.Size() <= |packed| && Window(s, rs, cs, |was|)
    requires UnTeamTraces(traces, slices, s, packed, rs, cs, |was|) && Interleaves(run, traces) && End(slices) == s.n
    ensures InBounds(Writes(run), |was|) && Unreordered(Apply(was, Writes(run)), was, s, packed, rs, cs)
  {
    hide RoundUp, Pos, Addr, Consecutive, UnpackedPart, Slice;
    SomeSlice(slices, s.n, s.blk.NR);
    RunInBounds(run, traces, |was|);
    forall p, j | s.Live(p, j) ensures Apply(was, Writes(run))[Addr(p, j, rs, cs)] == Stored(s, packed, p, j) {
      ApplyAt(was, Writes(run), Addr(p, j, rs, cs));
      var t := CellReader(traces, slices, s, packed, rs, cs, |was|, p, j);
      OwnerDecides(run, traces, t, Addr(p, j, rs, cs));
    }
    forall x | 0 <= x < |was| && (forall p, j :: s.Live(p, j) ==> x != Addr(p, j, rs, cs))
      ensures Apply(was, Writes(run))[x] == was[x]
    {
      ApplyAt(was, Writes(run), x);
      NotWritten(traces, slices, s, packed, rs, cs, |was|, x);
      OwnerDecides(run, traces, 0, x);
    }
  }

  /** Reorder, then unreorder into any strides: every element of B is restored and nothing outside the
      k x n window of the output changes. */
  lemma RoundTrip<T>(s: Shape, B: Matrix<T>, packed: seq<T>, before: seq<T>,
                     out: seq<T>, outBefore: seq<T>, rs: int, cs: int)
    requires s.Valid() && B.Holds(s.k, s.n) && Reordered(packed, before, s, B)
    requires Unreordered(out, outBefore, s, packed, rs, cs)
    ensures forall p, j :: s.Live(p, j) ==> out[Addr(p, j, rs, cs)] == B.mem[Addr(p, j, B.rs, B.cs)]
    ensures forall x :: 0 <= x < |out| && (forall p, j :: s.Live(p, j) ==> x != Addr(p, j, rs, cs))
              ==> out[x] == outBefore[x]
  {
    hide RoundUp, Pos, Addr;
    forall p, j | s.Live(p, j) ensures out[Addr(p, j, rs, cs)] == B.mem[Addr(p, j, B.rs, B.cs)] {
      LiveHasPos(s, p, j);
      assert packed[Pos(s, p, j)] == B.At(s, p, j);
    }
  }

  /** `dlp_reorder_ref_reorderb`, the threads' slices taken one after another. */
  method ReorderB<T>(buf: array<T>, s: Shape, B: Matrix<T>, nThreads: int)
    requires s.Valid() && B.Holds(s.k, s.n) && s.Size() <= buf.Length
    modifies buf
    ensures Reordered(buf[..], old(buf[..]), s, B)
  {
    hide TaskRange, RoundUp, PackedCols, Reordered;
    var ways := if nThreads > 0 then nThreads else 1;
    ghost var tr: seq<Write<T>> := [];
    NothingPacked(s, B, 0);
    RangeEnds(ways, s.n, s.blk.NR);
    var id := 0;
    while id < ways
      invariant 0 <= id <= ways
      invariant InBounds(tr, buf.Length) && buf[..] == Apply(old(buf[..]), tr)
      invariant PackedCols(tr, s, B, 0, if id == 0 then 0 else TaskRange(ways, id - 1, s.n, s.blk.NR).1)
    {
      var (lo, hi) := TaskRange(ways, id, s.n, s.blk.NR);
      RangeIsSlice(ways, id, s.n, s.blk.NR);
      if id > 0 { RangesAreOrdered(ways, id - 1, id, s.n, s.blk.NR); }
      ghost var part, ranges := ReorderThread(buf, s, B, lo, hi);
      JoinColumns(tr, part, s, B, lo, hi);
      ApplyConcat(old(buf[..]), tr, part);
      tr := tr + part;
      id := id + 1;
    }
    AllColumns(tr, s, B, old(buf[..]));
  }

  lemma JoinColumns<T>(tr: seq<Write<T>>, part: seq<Write<T>>, s: Shape, B: Matrix<T>, lo: int, hi: int)
    requires s.Valid() && B.Holds(s.k, s.n) && 0 <= lo <= hi <= s.n
    requires PackedCols(tr, s, B, 0, lo) && PackedCols(part, s, B, lo, hi)
    ensures PackedCols(tr + part, s, B, 0, hi)
  {
    hide RoundUp, Pos;
    forall p, j | s.Padded(p, j)
      ensures Last(tr + part, Pos(s, p, j)) == if Owns(s, 0, hi, j) then Some(B.At(s, p, j)) else None
    {
      LastConcat(tr, part, Pos(s, p, j));
    }
  }

  lemma AllColumns<T>(tr: seq<Write<T>>, s: Shape, B: Matrix<T>, was: seq<T>)
    requires s.Valid() && B.Holds(s.k, s.n) && s.Size() <= |was| && PackedCols(tr, s, B, 0, s.n)
    ensures InBounds(tr, |was|) && Reordered(Apply(was, tr), was, s, B)
  {
    hide RoundUp, Pos, Cell;
    forall p, j | s.Padded(p, j)
      ensures 0 <= Pos(s, p, j) < s.Size() && Apply(was, tr)[Pos(s, p, j)] == B.At(s, p, j)
    {
      CellOfPos(s, p, j);
      ApplyAt(was, tr, Pos(s, p, j));
    }
    OutsideKept(tr, s.Size(), was);
  }

  /** `dlp_reorder_ref_unreorderb`, the threads' slices taken one after another. */
  method UnreorderB<T>(out: array<T>, s: Shape, packed: seq<T>, rs: int, cs: int, nThreads: int)
    requires s.Valid() && s.Size() <= |packed| && Window(s, rs, cs, out.Length)
    modifies out
    ensures Unreordered(out[..], old(out[..]), s, packed, rs, cs)
  {
    hide TaskRange, RoundUp, UnpackedPart, Unreordered, Window;
    var ways := if nThreads > 0 then nThreads else 1;
    ghost var tr: seq<Write<T>> := [];
    NothingUnpacked(s, packed, rs, cs, 0);
    RangeEnds(ways, s.n, s.blk.NR);
    var id := 0;
    while id < ways
      invariant 0 <= id <= ways
      invariant InBounds(tr, out.Length) && out[..] == Apply(old(out[..]), tr)
      invariant UnpackedPart(tr, s, packed, rs, cs, 0,
                             if id == 0 then 0 else TaskRange(ways, id - 1, s.n, s.blk.NR).1, 0, 0)
    {
      var (lo, hi) := TaskRange(ways, id, s.n, s.blk.NR);
      RangeIsSlice(ways, id, s.n, s.blk.NR);
      if id > 0 { RangesAreOrdered(ways, id - 1, id, s.n, s.blk.NR); }
      ghost var part := UnreorderThread(out, s, packed, rs, cs, lo, hi);
      UnJoinColumns(tr, part, s, packed, rs, cs, lo, hi);
      ApplyConcat(old(out[..]), tr, part);
      tr := tr + part;
      id := id + 1;
    }
    AllRestored(tr, s, packed, rs, cs, old(out[..]));
  }

  lemma UnJoinColumns<T>(tr: seq<Write<T>>, part: seq<Write<T>>, s: Shape, packed: seq<T>, rs: int, cs: int,
                         lo: int, hi: int)
    requires s.Valid() && s.Size() <= |packed| && 0 <= lo <= hi
    requires UnpackedPart(tr, s, packed, rs, cs, 0, lo, 0, 0) && UnpackedPart(part, s, packed, rs, cs, lo, hi, 0, 0)
    ensures UnpackedPart(tr + part, s, packed, rs, cs, 0, hi, 0, 0)
  {
    hide RoundUp, Addr, Stored;
    forall x ensures Last(tr + part, x) == if Last(part, x).Some? then Last(part, x) else Last(tr, x) {
      LastConcat(tr, part, x);
    }
  }

  lemma AllRestored<T>(tr: seq<Write<T>>, s: Shape, packed: seq<T>, rs: int, cs: int, was: seq<T>)
    requires s.Valid() && s.Size() <= |packed| && Window(s, rs, cs, |was|) && InBounds(tr, |was|)
    requires UnpackedPart(tr, s, packed, rs, cs, 0, s.n, 0, 0)
    ensures Unreordered(Apply(was, tr), was, s, packed, rs, cs)
  {
    hide RoundUp, Addr, Stored;
    forall x | 0 <= x < |was|
      ensures Apply(was, tr)[x] == if Last(tr, x).Some? then Last(tr, x).value else was[x]
    {
      ApplyAt(was, tr, x);
    }
  }
}
