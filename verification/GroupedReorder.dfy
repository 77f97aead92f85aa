/** The wide layout of the grouped int8 reorder: panels packed strip by strip and group by group, with the table of
    group sums behind them. */
module GroupedReorder {
  import opened Arith
  import opened Traces
  import opened ThreadRange
  import opened PanelLayout
  import opened BlockedLayout
  import opened PanelPack
  import opened ReorderWalk
  import opened Reorder
  import opened Words
  import opened ColumnWords
  import opened GroupedLayout
  import opened GroupedSums
  import opened GroupedTraces
  import opened GroupedPack
  import opened GroupedWalk

  lemma SetExtends(lim: seq<int>, a: int, b: int, c: int, row: int)
    requires a <= b <= c
    ensures SetLim(SetLim(lim, a, b, row), b, c, row) == SetLim(lim, a, c, row)
  {
  }

  lemma SetAfter(lim: seq<int>, a: int, b: int, row: int, c: int, row': int)
    requires 0 <= b && forall j :: b <= j < c && j < |lim| ==> lim[j] == row'
    ensures |SetLim(lim, a, b, row)| == |lim|
    ensures forall j :: b <= j < c && j < |lim| ==> SetLim(lim, a, b, row)[j] == row'
  {
  }

  /** One strip packed and joined to the panel. */
  method AddStrip(buf: array<Byte>, base: int, s: Shape, B: Matrix<Byte>, gs: int, jc: int, nc0: int, pc: int, col: int,
                  cols: int, slot: int, ghost mem: seq<Byte>, ghost before: seq<Write<Byte>>,
                  ghost part: seq<Write<Byte>>, ghost lim: seq<int>, ghost origin: seq<Byte>,
                  ghost done: seq<Write<Byte>>)
    returns (ghost more: seq<Write<Byte>>, ghost all: seq<Write<Byte>>)
    requires Plan(s, gs) && B.Holds(s.k, s.n) && ThreadBlock(s, jc, nc0, pc) && Strip(nc0, s.blk, col, cols, slot)
    requires base == BlockOffset(s, jc, pc) + col * BlockRows(s, pc)
    requires |lim| == s.n && forall j :: jc <= j < jc + nc0 ==> lim[j] == pc
    requires BlockJob(s, B, jc, nc0, pc).Valid()
    requires PanelPart(part, BlockOffset(s, jc, pc), BlockJob(s, B, jc, nc0, pc), col)
    requires Did(done, buf[..], origin, part, SumTable(s, gs), jc, jc + nc0)
    requires InParts(buf[..], mem, s.Size(), before + part,
                     SumEntries(s, B, gs, SetLim(lim, jc, jc + col, pc + Min(s.k - pc, s.blk.KC))))
    modifies buf
    ensures PanelPart(part + more, BlockOffset(s, jc, pc), BlockJob(s, B, jc, nc0, pc), col + cols)
    ensures InParts(buf[..], mem, s.Size(), before + (part + more),
                    SumEntries(s, B, gs, SetLim(lim, jc, jc + col + cols, pc + Min(s.k - pc, s.blk.KC))))
    ensures Did(all, buf[..], origin, part + more, SumTable(s, gs), jc, jc + nc0)
  {
    hide BlockOffset, InParts, StripPart, SumEntries, Job.Valid, Matrix.Holds, NumGroups, Strip, SetLim, ThreadBlock,
         Plan, PanelPart, RoundUp, Did;
    BlockShape(s, gs, jc, nc0, pc);
    StripIn(nc0, s.blk, col, cols, slot);
    ghost var row := pc + Min(s.k - pc, s.blk.KC);
    SetAfter(lim, jc, jc + col, row, jc + nc0, pc);
    ghost var here, next := buf[..], [];
    more, next := PackStrip(buf, base, s, B, gs, jc, nc0, pc, col, cols, slot, mem, before + part,
                            SetLim(lim, jc, jc + col, row));
    all := done + next;
    DidMore(done, next, buf[..], here, origin, part, more, SumTable(s, gs), jc, jc + col, jc + col + cols, jc + nc0);
    SetExtends(lim, jc, jc + col, jc + col + cols, row);
    assert before + part + more == before + (part + more);
    PanelStep(part, more, BlockOffset(s, jc, pc), BlockJob(s, B, jc, nc0, pc), col, cols, slot);
  }

  /** One K block of the nc0 columns that start at jc: NR-wide strips, then a fringe of whole 16-column slots, then a
      tail in one slot. */
  method PackBlock(buf: array<Byte>, s: Shape, B: Matrix<Byte>, gs: int, jc: int, nc0: int, pc: int,
                   ghost mem: seq<Byte>, ghost before: seq<Write<Byte>>, ghost lim: seq<int>)
    returns (ghost part: seq<Write<Byte>>, ghost all: seq<Write<Byte>>)
    requires Plan(s, gs) && B.Holds(s.k, s.n) && ThreadBlock(s, jc, nc0, pc)
    requires |lim| == s.n && forall j :: jc <= j < jc + nc0 ==> lim[j] == pc
    requires InParts(buf[..], mem, s.Size(), before, SumEntries(s, B, gs, lim))
    modifies buf
    ensures BlockJob(s, B, jc, nc0, pc).Valid() && Packed(part, BlockOffset(s, jc, pc), BlockJob(s, B, jc, nc0, pc))
    ensures InParts(buf[..], mem, s.Size(), before + part,
                    SumEntries(s, B, gs, SetLim(lim, jc, jc + nc0, pc + Min(s.k - pc, s.blk.KC))))
    ensures Did(all, buf[..], old(buf[..]), part, SumTable(s, gs), jc, jc + nc0)
  {
    hide InParts, StripPart, SumEntries, Job.Valid, Matrix.Holds, NumGroups, Strip, SetLim, ThreadBlock, PanelPart,
         RoundUp, Packed, BlockJob, PanelWidth, Plan, Did;
    Widths(s, gs);
    BlockShape(s, gs, jc, nc0, pc);
    MinNR(s, gs, jc, nc0, pc);
    BlockJobValid(s, B, jc, nc0, pc);
    var NR, kc0 := s.blk.NR, Min(s.k - pc, s.blk.KC);
    var kc0Updated := BlockRows(s, pc);
    var dst := Floor(jc, s.blk.NC) * s.KPad() + PanelWidth(jc, s.n, s.blk.NC, s.blk.minNR) * pc
               + (jc - Floor(jc, s.blk.NC)) * kc0Updated;
    ghost var off, job := BlockOffset(s, jc, pc), BlockJob(s, B, jc, nc0, pc);
    part, all := [], [];
    DidNothing(buf[..], SumTable(s, gs), jc, jc + nc0);
    PanelStart(off, job);
    SetNone(lim, jc, pc + kc0);
    assert before + part == before;
    var jr := 0;
    while jr < nc0
      invariant 0 <= jr && jr % NR == 0
      invariant PanelPart(part, off, job, Min(jr, nc0))
      invariant InParts(buf[..], mem, s.Size(), before + part,
                        SumEntries(s, B, gs, SetLim(lim, jc, jc + Min(jr, nc0), pc + kc0)))
      invariant Did(all, buf[..], old(buf[..]), part, SumTable(s, gs), jc, jc + nc0)
    {
      ghost var more: seq<Write<Byte>>;
      var nr0 := Min(nc0 - jr, NR);
      if nr0 < NR {
        FringeStrips(nc0, s.blk, jr);
        var nrMult16, nr0Rem := (nr0 / 16) * 16, nr0 % 16;
        if nrMult16 > 0 {
          more, all := AddStrip(buf, dst + jr * kc0Updated, s, B, gs, jc, nc0, pc, jr, nrMult16, nrMult16, mem,
                                before, part, lim, old(buf[..]), all);
          part := part + more;
        }
        if nr0Rem > 0 {
          more, all := AddStrip(buf, dst + (jr + nrMult16) * kc0Updated, s, B, gs, jc, nc0, pc, jr + nrMult16,
                                nr0Rem, 16, mem, before, part, lim, old(buf[..]), all);
          part := part + more;
        }
      } else {
        FullStrip(nc0, s.blk, jr);
        more, all := AddStrip(buf, dst + jr * kc0Updated, s, B, gs, jc, nc0, pc, jr, NR, NR, mem, before, part, lim,
                              old(buf[..]), all);
        part := part + more;
      }
      MulMod(1, NR);
      MultAdd(jr, NR, NR);
      jr := jr + NR;
    }
    PanelEnd(part, off, job);
  }

  lemma MinNR(s: Shape, gs: int, jc: int, nc0: int, pc: int)
    requires Plan(s, gs) && ThreadBlock(s, jc, nc0, pc)
    ensures s.Valid() && s.blk.minNR == 16 && 0 < nc0
    ensures forall B: Matrix<Byte> :: BlockJob(s, B, jc, nc0, pc).nc0 == nc0
  {
  }

  lemma SetNone(lim: seq<int>, a: int, row: int)
    ensures SetLim(lim, a, a, row) == lim
  {
  }

  /** The PC loop over the nc0 columns that start at jc. */
  method GroupedColumns(buf: array<Byte>, s: Shape, B: Matrix<Byte>, gs: int, ghost lo: int, ghost hi: int, jc: int,
                        nc0: int, ghost mem: seq<Byte>, ghost before: seq<Write<Byte>>, ghost lim: seq<int>,
                        ghost origin: seq<Byte>, ghost done: seq<Write<Byte>>)
    returns (ghost tr: seq<Write<Byte>>, ghost all: seq<Write<Byte>>)
    requires Plan(s, gs) && B.Holds(s.k, s.n) && ThreadBlock(s, jc, nc0, 0) && 0 <= lo <= jc && jc + nc0 <= hi
    requires Did(done, buf[..], origin, before, SumTable(s, gs), lo, hi)
    requires |lim| == s.n && forall j :: jc <= j < jc + nc0 ==> lim[j] == 0
    requires InParts(buf[..], mem, s.Size(), before, SumEntries(s, B, gs, lim)) && PackedCols(before, s, B, lo, jc)
    modifies buf
    ensures PackedPart(tr, s, B, lo, jc, nc0, s.KPad())
    ensures InParts(buf[..], mem, s.Size(), tr, SumEntries(s, B, gs, SetLim(lim, jc, jc + nc0, s.k)))
    ensures Did(all, buf[..], origin, tr, SumTable(s, gs), lo, hi)
  {
    hide InParts, SumEntries, NumGroups, SetLim, RoundUp, Packed, BlockJob, PackedCols, PackedPart, Plan, BlockOffset,
         PanelPos, Pos, Job.Valid, Matrix.Holds, BlockRows, Did;
    BlockShape(s, gs, jc, nc0, 0);
    PlanShape(s, gs);
    var KC := s.blk.KC;
    tr, all := before, done;
    ColumnsStart(tr, s, B, lo, jc, nc0);
    SetSame(lim, jc, jc + nc0, 0);
    var pc := 0;
    while pc < s.k
      invariant 0 <= pc && pc % KC == 0
      invariant PackedPart(tr, s, B, lo, jc, nc0, pc)
      invariant InParts(buf[..], mem, s.Size(), tr, SumEntries(s, B, gs, SetLim(lim, jc, jc + nc0, Min(pc, s.k))))
      invariant Did(all, buf[..], origin, tr, SumTable(s, gs), lo, hi)
    {
      ghost var row := pc + Min(s.k - pc, KC);
      SetAt(lim, jc, jc + nc0, pc);
      ghost var here := buf[..];
      ghost var part, next := PackBlock(buf, s, B, gs, jc, nc0, pc, mem, tr, SetLim(lim, jc, jc + nc0, pc));
      DidMore(all, next, buf[..], here, origin, tr, part, SumTable(s, gs), lo, jc, jc + nc0, hi);
      all := all + next;
      SetTwice(lim, jc, jc + nc0, pc, row);
      BlockDone(tr, part, s, B, lo, jc, nc0, pc);
      tr := tr + part;
      MulMod(1, KC);
      MultAdd(pc, KC, KC);
      pc := pc + KC;
    }
    AllRows(tr, s, B, lo, jc, nc0, pc);
  }

  /** The table once the columns before hi have been summed, over all rows. */
  ghost function SumsTo(s: Shape, B: Matrix<Byte>, gs: int, hi: int): (vals: seq<int>)
    requires Plan(s, gs)
    ensures |vals| == Vectors(s, gs) * s.NPad()
  {
    SumEntries(s, B, gs, SetLim(seq(s.n, j => 0), 0, hi, s.k))
  }

  /** What is written at byte y of the table by a thread with slice [lo, hi): its own columns' slots end with their
      whole sums, unwritten ones being 0 already, and no other column's slot is touched. */
  ghost predicate SlotWritten(tr: seq<Write<Byte>>, s: Shape, gs: int, B: Matrix<Byte>, lo: int, hi: int, at: int,
                              y: int)
    requires Plan(s, gs) && 0 <= y < 4 * (Vectors(s, gs) * s.NPad()) && 0 < s.NPad()
  {
    if lo <= (y / 4) % s.NPad() < hi then
      (if Last(tr, at + y).Some? then Last(tr, at + y).value else 0) == WordByte(SumsTo(s, B, gs, s.n)[y / 4], y % 4)
    else Last(tr, at + y).None?
  }

  /** Everything a thread with slice [lo, hi) writes, starting from a cleared table. It reads no slot but those of its
      own columns, so what other threads write meanwhile makes no difference to it. */
  ghost predicate ThreadWrites(tr: seq<Write<Byte>>, s: Shape, gs: int, B: Matrix<Byte>, lo: int, hi: int)
    requires Plan(s, gs) && B.Holds(s.k, s.n)
  {
    Widths(s, gs);
    && InBounds(tr, WideBytes(s, gs))
    && (forall p, j {:trigger Pos(s, p, j)} :: s.Padded(p, j) ==>
          Last(tr, Pos(s, p, j)) == if Owns(s, lo, hi, j) then Some(B.At(s, p, j)) else None)
    && forall y :: 0 <= y < 4 * (Vectors(s, gs) * s.NPad()) ==> SlotWritten(tr, s, gs, B, lo, hi, s.Size(), y)
  }

  lemma EntryWhole(s: Shape, B: Matrix<Byte>, gs: int, lim: seq<int>, lo: int, hi: int, y: int)
    requires Plan(s, gs) && |lim| == s.n && 0 <= lo <= hi <= s.n && 0 <= y < 4 * (Vectors(s, gs) * s.NPad())
    requires forall j :: lo <= j < hi ==> lim[j] == 0
    ensures 0 < s.NPad() && 0 <= y / 4 < Vectors(s, gs) * s.NPad()
    ensures lo <= (y / 4) % s.NPad() < hi ==>
              && SumEntries(s, B, gs, lim)[y / 4] == 0
              && SumEntries(s, B, gs, SetLim(lim, lo, hi, s.k))[y / 4] == SumsTo(s, B, gs, s.n)[y / 4]
  {
    hide RoundUp, NumGroups, RowSum;
    Widths(s, gs);
    PlanShape(s, gs);
    DivBetween(y, 4, 0, Vectors(s, gs) * s.NPad());
    DivNonneg(y / 4, s.NPad());
    var v, R := y / 4 / s.NPad(), VectorRows(s, gs);
    MulLe(0, v, R);
    EmptySum(B, (y / 4) % s.NPad(), v * R, Min((v + 1) * R, 0));
  }

  lemma EmptySum(B: Matrix<Byte>, j: int, lo: int, hi: int)
    requires hi <= lo
    ensures RowSum(B, j, lo, hi) == 0
  {
  }

  /** The trace behind a thread's progress is what a thread writes. */
  lemma ThreadDone(all: seq<Write<Byte>>, now: seq<Byte>, was: seq<Byte>, mem: seq<Byte>, tr: seq<Write<Byte>>,
                   s: Shape, gs: int, B: Matrix<Byte>, lim: seq<int>, lo: int, hi: int)
    requires Plan(s, gs) && B.Holds(s.k, s.n) && 0 <= lo <= hi <= s.n && |lim| == s.n
    requires forall j :: lo <= j < hi ==> lim[j] == 0
    requires Did(all, now, was, tr, SumTable(s, gs), lo, hi) && PackedCols(tr, s, B, lo, hi)
    requires InParts(was, mem, s.Size(), [], SumEntries(s, B, gs, lim))
    requires InParts(now, mem, s.Size(), tr, SumEntries(s, B, gs, SetLim(lim, lo, hi, s.k)))
    ensures ThreadWrites(all, s, gs, B, lo, hi)
  {
    hide RoundUp, Pos, SumEntries, SetLim, NumGroups, WordByte, Owns, SumsTo, Plan, Matrix.Holds;
    Widths(s, gs);
    PlanShape(s, gs);
    var size, T := s.Size(), Vectors(s, gs) * s.NPad();
    forall p, j | s.Padded(p, j)
      ensures Last(all, Pos(s, p, j)) == if Owns(s, lo, hi, j) then Some(B.At(s, p, j)) else None
    {
      CellOfPos(s, p, j);
    }
    forall i | 0 <= i < |all| ensures 0 <= all[i].addr < WideBytes(s, gs) {
      LastNone(all, all[i].addr);
      assert all[i].addr < size || SlotByte(all[i].addr, SumTable(s, gs), lo, hi);
    }
    forall y | 0 <= y < 4 * T ensures SlotWritten(all, s, gs, B, lo, hi, size, y) {
      EntryWhole(s, B, gs, lim, lo, hi, y);
      assert was[size..][y] == WordByte(SumEntries(s, B, gs, lim)[y / 4], y % 4);
      assert now[size..][y] == WordByte(SumEntries(s, B, gs, SetLim(lim, lo, hi, s.k))[y / 4], y % 4);
      ApplyAt(was, all, size + y);
      ZeroWord(y % 4);
    }
  }

  lemma ZeroWord(t: int)
    ensures WordByte(0, t) == 0
  {
  }

  /** One thread's loops over its slice of the columns: weights and sums of those columns, and no others. */
  method GroupedThread(buf: array<Byte>, s: Shape, B: Matrix<Byte>, gs: int, lo: int, hi: int, ghost mem: seq<Byte>,
                       ghost lim: seq<int>) returns (ghost tr: seq<Write<Byte>>, ghost all: seq<Write<Byte>>)
    requires Plan(s, gs) && B.Holds(s.k, s.n) && Slice(lo, hi, s.n, s.blk.NR)
    requires |lim| == s.n && forall j :: lo <= j < hi ==> lim[j] == 0
    requires InParts(buf[..], mem, s.Size(), [], SumEntries(s, B, gs, lim))
    modifies buf
    ensures PackedCols(tr, s, B, lo, hi)
    ensures InParts(buf[..], mem, s.Size(), tr, SumEntries(s, B, gs, SetLim(lim, lo, hi, s.k)))
    ensures InBounds(all, buf.Length) && buf[..] == Apply(old(buf[..]), all) && ThreadWrites(all, s, gs, B, lo, hi)
  {
    hide InParts, SumEntries, NumGroups, SetLim, RoundUp, PackedCols, PackedPart, ThreadBlock, Floor, Did, ThreadWrites;
    Widths(s, gs);
    ghost var was := buf[..];
    PlanShape(s, gs);
    var NC := s.blk.NC;
    tr, all := [], [];
    DidNothing(buf[..], SumTable(s, gs), lo, hi);
    NothingPacked(s, B, lo);
    SetNone(lim, lo, s.k);
    var jc := lo;
    while jc < hi
      invariant lo <= jc && (jc == lo || jc % NC == 0)
      invariant PackedCols(tr, s, B, lo, Min(jc, hi))
      invariant InParts(buf[..], mem, s.Size(), tr, SumEntries(s, B, gs, SetLim(lim, lo, Min(jc, hi), s.k)))
      invariant Did(all, buf[..], old(buf[..]), tr, SumTable(s, gs), lo, hi)
      decreases hi - jc
    {
      var (start, rem, nc0) := PanelClip(jc, NC, Min(hi - jc, NC));
      ClipIsBlock(s, lo, hi, jc, 0);
      SetAfter(lim, lo, jc, s.k, hi, 0);
      tr, all := GroupedColumns(buf, s, B, gs, lo, hi, jc, nc0, mem, tr, SetLim(lim, lo, jc, s.k), old(buf[..]), all);
      SetExtends(lim, lo, jc, jc + nc0, s.k);
      ColumnsDone(tr, s, B, lo, jc, nc0);
      jc := start;
      jc := jc + NC;
    }
    DidApply(all, buf[..], was, tr, SumTable(s, gs), lo, hi);
    ThreadDone(all, buf[..], was, mem, tr, s, gs, B, lim, lo, hi);
  }

  /** Taking the buffer as it stands for the starting memory of what follows. */
  lemma Rebase(buf: seq<Byte>, mem: seq<Byte>, size: int, tr: seq<Write<Byte>>, vals: seq<int>)
    requires InParts(buf, mem, size, tr, vals)
    ensures InParts(buf, buf, size, [], vals)
  {
    hide WordByte;
  }

  lemma Chain(buf: seq<Byte>, here: seq<Byte>, mem: seq<Byte>, size: int, tr: seq<Write<Byte>>, part: seq<Write<Byte>>,
              before: seq<int>, after: seq<int>)
    requires InParts(here, mem, size, tr, before) && InParts(buf, here, size, part, after) && |before| == |after|
    ensures InParts(buf, mem, size, tr + part, after)
  {
    hide WordByte;
    ApplyConcat(mem[..size], tr, part);
    assert here[..size] == Apply(mem[..size], tr);
    forall x | 0 <= x < |mem| - size && !(0 <= x < 4 * |after|) ensures buf[size..][x] == mem[size..][x] {
      assert here[size..][x] == mem[size..][x];
    }
  }

  /** What the finished reorder leaves: panels, and one int32 for every padded column of every vector of sums. */
  ghost predicate GroupReordered(now: seq<Byte>, was: seq<Byte>, s: Shape, gs: int, B: Matrix<Byte>)
    requires Plan(s, gs) && B.Holds(s.k, s.n)
  {
    && 0 <= s.Size() <= |was| == |now|
    && Reordered(now[..s.Size()], was[..s.Size()], s, B)
    && Tabled(now[s.Size()..], was[s.Size()..], 0, SumEntries(s, B, gs, seq(s.n, j => s.k)))
  }

  /** Bytes of that layout. */
  function WideBytes(s: Shape, gs: int): int
    requires Plan(s, gs)
  {
    s.Size() + 4 * (Vectors(s, gs) * s.NPad())
  }

  /** The clearing loop over the table of sums. */
  method ClearSums(buf: array<Byte>, size: int, count: int)
    requires 0 <= size && 0 <= count && size + 4 * count <= buf.Length
    modifies buf
    ensures InParts(buf[..], old(buf[..]), size, [], seq(count, x => 0))
  {
    hide InParts, PutWord;
    ghost var mem := buf[..];
    ghost var vals: seq<int> := [];
    NoSums(mem, size);
    var idx := 0;
    while idx < count
      invariant 0 <= idx <= count && buf.Length == |mem|
      invariant vals == seq(idx, x => 0) && InParts(buf[..], mem, size, [], vals)
    {
      OneMoreSum(buf[..], mem, size, vals);
      Store32(buf, size + 4 * idx, 0);
      vals := vals + [0];
      idx := idx + 1;
    }
  }

  lemma NoSums(mem: seq<Byte>, size: int)
    requires 0 <= size <= |mem|
    ensures InParts(mem, mem, size, [], [])
  {
  }

  lemma OneMoreSum(buf: seq<Byte>, mem: seq<Byte>, size: int, vals: seq<int>)
    requires InParts(buf, mem, size, [], vals) && size + 4 * |vals| + 4 <= |buf|
    ensures 0 <= size && InParts(PutWord(buf, size + 4 * |vals|, 0), mem, size, [], vals + [0])
  {
    hide WordByte;
    var there := PutWord(buf, size + 4 * |vals|, 0);
    assert there[..size] == buf[..size];
    assert there[size..] == PutWord(buf[size..], 4 * |vals|, 0);
    AddEntry(buf[size..], mem[size..], 0, vals, 0);
  }

  lemma NoRowsYet(s: Shape, B: Matrix<Byte>, gs: int)
    requires Plan(s, gs)
    ensures Vectors(s, gs) * s.NPad() >= 0
    ensures SumEntries(s, B, gs, seq(s.n, j => 0)) == seq(Vectors(s, gs) * s.NPad(), x => 0)
  {
    hide NumGroups, RoundUp;
    TableSize(s, gs);
    var zero := seq(s.n, j => 0);
    forall x | 0 <= x < Vectors(s, gs) * s.NPad() ensures EntryOf(s, B, gs, zero, x / s.NPad(), x % s.NPad()) == 0 {
      DivNonneg(x, s.NPad());
      MulLe(0, x / s.NPad(), VectorRows(s, gs));
    }
  }

  lemma TableEntry(s: Shape, B: Matrix<Byte>, gs: int, lim: seq<int>, v: int, j: int)
    requires Plan(s, gs) && |lim| == s.n && 0 <= v < Vectors(s, gs) && 0 <= j < s.NPad()
    ensures 0 <= v * s.NPad() + j < Vectors(s, gs) * s.NPad()
    ensures SumEntries(s, B, gs, lim)[v * s.NPad() + j] == EntryOf(s, B, gs, lim, v, j)
  {
    hide EntryOf, Vectors, RoundUp;
    TwoDigits(v, Vectors(s, gs), s.NPad(), j);
    DivModUnique(v * s.NPad() + j, s.NPad(), v, j);
  }

  /** Slot j of vector v reads as 128 times column j's sum over the rows of that vector; padding columns read 0. */
  lemma GroupSumsRead(now: seq<Byte>, was: seq<Byte>, s: Shape, gs: int, B: Matrix<Byte>, v: int, j: int)
    requires Plan(s, gs) && B.Holds(s.k, s.n) && GroupReordered(now, was, s, gs, B)
    requires 0 <= v < Vectors(s, gs) && 0 <= j < s.NPad()
    ensures 0 <= s.Size() + 4 * (v * s.NPad() + j) && s.Size() + 4 * (v * s.NPad() + j) + 4 <= |now|
    ensures var R := VectorRows(s, gs);
      Load32(now, s.Size() + 4 * (v * s.NPad() + j))
      == if j < s.n then Wrap32(128 * RowSum(B, j, v * R, Min((v + 1) * R, s.k))) else 0
  {
    hide RoundUp, Reordered, WordByte, RowSum, Vectors, SumEntries, Wrap32, Pos;
    TableEntry(s, B, gs, seq(s.n, j => s.k), v, j);
    EntryAt(now[s.Size()..], was[s.Size()..], 0, SumEntries(s, B, gs, seq(s.n, j => s.k)), v * s.NPad() + j);
  }

  /** The blocking the entry points resolve is one the walk accepts. */
  lemma GroupedPlan(k: int, n: int, t: BlockTable, gs: int)
    requires t.Legal() && GroupSize(gs, k) && n > 0
    ensures Plan(GroupedShape(k, n, t, gs), gs)
  {
    GroupedShapeValid(k, n, t, gs);
  }

  /** The unchecked products of the size query cannot wrap: no accepted shape needs more than the size type holds. */
  lemma WideBytesFit(s: Shape, gs: int)
    requires Plan(s, gs) && s.k <= 0x7FFF_FFFF && s.n <= 0x7FFF_FFFF
    ensures 0 < WideBytes(s, gs) <= 0xFFFF_FFFF_FFFF_FFFF
  {
    hide RoundUp, NumGroups;
    var K, N, V := s.KPad(), s.NPad(), Vectors(s, gs);
    RoundUpFacts(s.k, 4);
    RoundUpFacts(s.n, 16);
    SizePositive(s);
    TableSize(s, gs);
    FewVectors(s, gs);
    MulLe(N, 0x8000_0010, K);
    MulLe(K, 0x8000_0004, 0x8000_0010);
    MulLe(V, 0x2000_0001, N);
    MulLe(N, 0x8000_0010, 0x2000_0001);
  }

  /** Every vector but the last covers four rows at least. */
  lemma FewVectors(s: Shape, gs: int)
    requires Plan(s, gs) && s.k <= 0x7FFF_FFFF
    ensures Vectors(s, gs) <= 0x2000_0001
  {
    hide NumGroups;
    var R := VectorRows(s, gs);
    SlotCount(s.k, R);
    AtLeastFour(s.blk.KC, gs, s.k);
    if Vectors(s, gs) > 0x2000_0001 {
      MulLe(4, R, Vectors(s, gs) - 1);
    }
  }

  lemma AtLeastFour(KC: int, gs: int, k: int)
    requires 0 < KC && KC % 4 == 0 && 0 < gs && (gs == k || gs % 4 == 0)
    ensures KC >= 4 && (gs != k ==> gs >= 4)
  {
  }
}
