/** The four-bit reorder in its fused form: each strip is packed to a small int8 scratch, its sums go straight to their
    table, and its weights are compressed into place. It leaves the bytes of the portable form. */
module GroupedFused {
  import opened Arith
  import opened Traces
  import opened ThreadRange
  import opened PanelLayout
  import opened BlockedLayout
  import opened PanelPack
  import opened ReorderWalk
  import opened Reorder
  import opened Words
  import opened Nibbles
  import opened ColumnWords
  import opened GroupedSums
  import opened GroupedTraces
  import opened GroupedPack
  import opened GroupedWalk
  import opened GroupedReorder
  import opened GroupedTeam
  import opened GroupedS4

  /** The scratch holds what the trace wrote to the int8 layout from address base on. */
  ghost predicate Held(strip: seq<Byte>, tr: seq<Write<Byte>>, base: int) {
    forall x {:trigger Last(tr, x)} :: Last(tr, x).Some? ==>
      0 <= x - base < |strip| && strip[x - base] == Last(tr, x).value
  }

  lemma HeldStep(strip: seq<Byte>, here: seq<Byte>, tr: seq<Write<Byte>>, part: seq<Write<Byte>>, base: int)
    requires Held(here, tr, base) && InBounds(part, |here|) && strip == Apply(here, part)
    ensures Held(strip, tr + Shifted(part, base), base)
  {
    var more := Shifted(part, base);
    forall x | Last(tr + more, x).Some?
      ensures 0 <= x - base < |strip| && strip[x - base] == Last(tr + more, x).value
    {
      LastConcat(tr, more, x);
      LastShifted(part, base, x);
      LastNone(part, x - base);
      if 0 <= x - base < |here| { ApplyAt(here, part, x - base); }
    }
  }

  lemma PackedShifted(part: seq<Write<Byte>>, off: int, d: int, job: Job<Byte>)
    requires job.Valid() && Packed(part, off, job)
    ensures Packed(Shifted(part, d), off + d, job)
  {
    hide PanelPos, RoundUp;
    forall x ensures Last(Shifted(part, d), x) == Last(part, x - d) { LastShifted(part, d, x); }
    forall kr, c | job.Padded(kr, c)
      ensures Last(Shifted(part, d), off + d + job.Pos(kr, c)) == Some(job.Value(kr, c))
    {
      assert off + d + job.Pos(kr, c) - d == off + job.Pos(kr, c);
    }
  }

  /** Byte i of the compact buffer, against the int8 layout a trace has written: weights 2 i and 2 i + 1 once they are
      there, what it was before. */
  ghost predicate HalvedAt(b: Byte, was: Byte, tr: seq<Write<Byte>>, i: int) {
    var lo, hi := Last(tr, 2 * i), Last(tr, 2 * i + 1);
    (lo.Some? <==> hi.Some?) && b == if lo.Some? && hi.Some? then Compress(lo.value, hi.value) else was
  }

  /** The compact buffer, with the table of sums behind the weights. */
  ghost predicate Halved(buf: seq<Byte>, mem: seq<Byte>, size: int, tr: seq<Write<Byte>>, vals: seq<int>) {
    && 0 <= size && size % 2 == 0 && size / 2 <= |mem| == |buf|
    && Tabled(buf[size / 2..], mem[size / 2..], 0, vals)
    && forall i :: 0 <= i < size / 2 ==> HalvedAt(buf[i], mem[i], tr, i)
  }

  /** Nothing written to the weights yet. */
  lemma HalvedStart(buf: seq<Byte>, mem: seq<Byte>, size: int, vals: seq<int>)
    requires size % 2 == 0 && InParts(buf, mem, size / 2, [], vals)
    ensures Halved(buf, mem, size, [], vals)
  {
    hide Tabled;
    forall i | 0 <= i < size / 2 ensures HalvedAt(buf[i], mem[i], [], i) {
      assert buf[..size / 2][i] == mem[..size / 2][i];
    }
  }

  /** Taking the buffer as it stands for the start of what follows. */
  lemma HalvedParts(buf: seq<Byte>, mem: seq<Byte>, size: int, tr: seq<Write<Byte>>, vals: seq<int>)
    requires Halved(buf, mem, size, tr, vals)
    ensures InParts(buf, buf, size / 2, [], vals)
  {
    hide WordByte, HalvedAt;
  }

  lemma HalvedShape(buf: seq<Byte>, mem: seq<Byte>, size: int, tr: seq<Write<Byte>>, vals: seq<int>)
    requires Halved(buf, mem, size, tr, vals)
    ensures 0 <= size && size / 2 <= |buf| == |mem|
  {
  }

  /** New sums, old weights. */
  lemma SumsReplaced(buf: seq<Byte>, here: seq<Byte>, mem: seq<Byte>, size: int, tr: seq<Write<Byte>>,
                     vals: seq<int>, now: seq<int>)
    requires Halved(here, mem, size, tr, vals) && InParts(buf, here, size / 2, [], now) && |now| == |vals|
    ensures Halved(buf, mem, size, tr, now)
  {
    hide WordByte, HalvedAt;
    var half := size / 2;
    forall i | 0 <= i < half ensures buf[i] == here[i] { assert buf[..half][i] == here[..half][i]; }
    forall i | 0 <= i < half ensures HalvedAt(buf[i], mem[i], tr, i) { assert HalvedAt(here[i], mem[i], tr, i); }
    forall x | 0 <= x < |mem| - half && !(0 <= x < 4 * |now|) ensures buf[half..][x] == mem[half..][x] {
      assert here[half..][x] == mem[half..][x];
    }
  }

  /** A finished strip compressed into place. */
  lemma StripCompressed(buf: seq<Byte>, here: seq<Byte>, mem: seq<Byte>, strip: seq<Byte>, size: int,
                        tr: seq<Write<Byte>>, part: seq<Write<Byte>>, vals: seq<int>, g: int, count: int)
    requires Halved(here, mem, size, tr, vals) && Held(strip, part, g) && |buf| == |here|
    requires 0 <= g && g % 2 == 0 && 0 <= count <= |strip| && count % 2 == 0 && g + count <= size
    requires forall x :: Last(part, x).Some? <==> g <= x < g + count
    requires forall x {:trigger buf[x]} :: 0 <= x < |buf| ==>
               buf[x] == if g / 2 <= x < g / 2 + count / 2 then
                           Compress(strip[2 * (x - g / 2)], strip[2 * (x - g / 2) + 1])
                         else here[x]
    ensures Halved(buf, mem, size, tr + part, vals)
  {
    hide Tabled, Compress;
    var half := size / 2;
    assert buf[half..] == here[half..];
    forall i | 0 <= i < half ensures HalvedAt(buf[i], mem[i], tr + part, i) {
      assert HalvedAt(here[i], mem[i], tr, i);
      LastConcat(tr, part, 2 * i);
      LastConcat(tr, part, 2 * i + 1);
      if g / 2 <= i < g / 2 + count / 2 {
        assert 2 * (i - g / 2) == 2 * i - g && g <= 2 * i && 2 * i + 1 < g + count;
        assert Last(part, 2 * i).Some? && Last(part, 2 * i + 1).Some?;
      } else {
        assert Last(part, 2 * i).None? && Last(part, 2 * i + 1).None?;
      }
    }
  }

  /** The table behind the compact weights. */
  function HalfTable(s: Shape, gs: int): Table
    requires VectorRows(s, gs) > 0
  {
    Table(s.Size() / 2, s.NPad(), Vectors(s, gs) * s.NPad())
  }

  /** All that was written between two states of the compact buffer: the bytes of the weights `wide` lays out, and
      slots of columns [a, b). */
  ghost predicate HalfDid(all: seq<Write<Byte>>, now: seq<Byte>, was: seq<Byte>, wide: seq<Write<Byte>>, t: Table,
                          a: int, b: int)
  {
    && t.width > 0 && InBounds(all, |was|) && now == Apply(was, all)
    && (forall i {:trigger Last(all, i)} :: 0 <= i < t.at ==> (Last(all, i).Some? <==> Last(wide, 2 * i).Some?))
    && (forall x {:trigger Last(all, x)} :: t.at <= x && Last(all, x).Some? ==> SlotByte(x, t, a, b))
  }

  lemma HalfDidNothing(was: seq<Byte>, t: Table, a: int, b: int)
    requires t.width > 0
    ensures HalfDid([], was, was, [], t, a, b)
  {
  }

  lemma HalfDidApply(all: seq<Write<Byte>>, now: seq<Byte>, was: seq<Byte>, wide: seq<Write<Byte>>, t: Table, a: int,
                     b: int)
    requires HalfDid(all, now, was, wide, t, a, b)
    ensures InBounds(all, |was|) && now == Apply(was, all)
  {
  }

  /** A step's sums, then its compression. */
  lemma HalfDidStep(done: seq<Write<Byte>>, sums: seq<Write<Byte>>, weights: seq<Write<Byte>>, now: seq<Byte>,
                    summed: seq<Byte>, here: seq<Byte>, origin: seq<Byte>, before: seq<Write<Byte>>,
                    cur: seq<Write<Byte>>, t: Table, a: int, c: int, d: int, b: int, g: int, count: int)
    requires HalfDid(done, here, origin, before, t, a, b) && Did(sums, summed, here, [], t, c, d) && a <= c && d <= b
    requires InBounds(weights, |summed|) && now == Apply(summed, weights)
    requires 0 <= g && g % 2 == 0 && 0 <= count && count % 2 == 0 && g / 2 + count / 2 <= t.at
    requires forall x :: Last(weights, x).Some? <==> g / 2 <= x < g / 2 + count / 2
    requires forall x :: Last(cur, x).Some? <==> g <= x < g + count
    ensures HalfDid(done + sums + weights, now, origin, before + cur, t, a, b)
  {
    ApplyConcat(origin, done, sums);
    ApplyConcat(origin, done + sums, weights);
    forall x ensures Last(done + sums + weights, x).Some?
                     <==> Last(done, x).Some? || Last(sums, x).Some? || Last(weights, x).Some?
    {
      LastConcat(done, sums, x);
      LastConcat(done + sums, weights, x);
    }
    forall x ensures Last(before + cur, x).Some? <==> Last(before, x).Some? || Last(cur, x).Some? {
      LastConcat(before, cur, x);
    }
  }

  /** A kernel call stays within the scratch. */
  lemma ScratchFits(s: Shape, B: Matrix<Byte>, jc: int, nc0: int, pc: int, col: int, cols: int, slot: int, rows: int,
                    h: int)
    requires B.Holds(s.k, s.n) && ThreadBlock(s, jc, nc0, pc) && Strip(nc0, s.blk, col, cols, slot)
    requires SubRows(BlockJob(s, B, jc, nc0, pc), rows, h)
    ensures SubJob(B, s.blk, pc + rows, h, jc + col, cols).Valid()
    ensures 0 <= rows * slot
    ensures rows * slot + SubJob(B, s.blk, pc + rows, h, jc + col, cols).Size() <= slot * BlockRows(s, pc)
  {
    hide RoundUp, Strip, ThreadBlock, Job.Valid, SubJob, Matrix.Holds;
    StripShape(s, B, jc, nc0, pc, col, cols, slot, rows, h);
    SubJobValid(s, B, jc, nc0, pc, col, cols, slot, rows, h);
    BlockJobValid(s, B, jc, nc0, pc);
    MulLe(0, rows, slot);
    Distribute(rows, RoundUp(h, s.blk.kf), slot);
    MulLe(rows + RoundUp(h, s.blk.kf), BlockRows(s, pc), slot);
  }

  /** The call for one group's rows of a strip: weights to the scratch, which stands for the int8 layout from address g
      on, sums to their table. */
  method FusedGroup(buf: array<Byte>, strip: array<Byte>, local: int, s: Shape, B: Matrix<Byte>, gs: int, jc: int,
                    nc0: int, pc: int, col: int, cols: int, slot: int, group: int, ghost g: int,
                    ghost here: seq<Byte>, ghost cur: seq<Write<Byte>>, ghost part: seq<Write<Byte>>,
                    ghost lim: seq<int>) returns (ghost more: seq<Write<Byte>>, ghost all: seq<Write<Byte>>)
    requires buf != strip
    requires Plan(s, gs) && B.Holds(s.k, s.n) && ThreadBlock(s, jc, nc0, pc) && Strip(nc0, s.blk, col, cols, slot)
    requires FirstGroup(gs, pc) <= group <= LastGroup(s, gs, pc)
    requires 0 <= local && local + slot * BlockRows(s, pc) <= strip.Length
    requires |lim| == s.n && forall j :: jc + col <= j < jc + col + cols ==> lim[j] == GroupRows(s, gs, pc, group).0
    requires InParts(buf[..], here, s.Size() / 2, [], SumEntries(s, B, gs, lim)) && Held(strip[..], cur + part, g)
    requires BlockJob(s, B, jc, nc0, pc).Valid()
    requires StripPart(part, g + local, BlockJob(s, B, jc, nc0, pc), col, slot, GroupRows(s, gs, pc, group).0 - pc)
    modifies buf, strip
    ensures var (kStart, kg0, v) := GroupRows(s, gs, pc, group);
      && StripPart(part + more, g + local, BlockJob(s, B, jc, nc0, pc), col, slot, kStart + kg0 - pc)
      && Held(strip[..], cur + (part + more), g)
      && InParts(buf[..], here, s.Size() / 2, [],
                 SumEntries(s, B, gs, SetLim(lim, jc + col, jc + col + cols, kStart + kg0)))
    ensures Did(all, buf[..], old(buf[..]), [], HalfTable(s, gs), jc + col, jc + col + cols)
  {
    hide BlockRows, RoundUp, InParts, StripPart, Packed, SumEntries, Job.Valid, SubJob, Added, NumGroups, ChunkStart,
         ChunkSlot, Matrix.Holds, Held, Shifted, Did;
    GroupCut(s, gs, pc, group);
    var kc0 := Min(s.k - pc, s.blk.KC);
    var kStart := Max(group * gs, pc);
    var kEnd := Min((group + 1) * gs - 1, pc + kc0 - 1);
    var kg0 := kEnd - kStart + 1;
    var v := (if gs == s.k then pc / s.blk.KC else 0) + group;
    ScratchFits(s, B, jc, nc0, pc, col, cols, slot, kStart - pc, kg0);
    SumStep(s, B, gs, lim, v, jc + col, cols, kStart, kg0);
    ghost var before := strip[..];
    var at := local + (kStart - pc) * slot;
    ghost var written := PackPanel(strip, at, SubJob(B, s.blk, kStart, kg0, jc + col, cols));
    HeldStep(strip[..], before, cur + part, written, g);
    PackedShifted(written, at, g, SubJob(B, s.blk, kStart, kg0, jc + col, cols));
    more := Shifted(written, g);
    assert cur + part + more == cur + (part + more);
    SlotStart(s, gs, v, jc + col, cols);
    all := AddSums(buf, s.Size() / 2, v * s.NPad() + jc + col, B, s.blk, kStart, kg0, jc + col, cols, s.NPad(), here,
                   [], SumEntries(s, B, gs, lim));
    StripStep(part, more, g + local, s, B, jc, nc0, pc, col, cols, slot, kStart - pc, kg0);
  }

  /** The group loop over one strip. */
  method FusedStrip(buf: array<Byte>, strip: array<Byte>, local: int, s: Shape, B: Matrix<Byte>, gs: int, jc: int,
                    nc0: int, pc: int, col: int, cols: int, slot: int, ghost g: int, ghost here: seq<Byte>,
                    ghost cur: seq<Write<Byte>>, ghost lim: seq<int>)
    returns (ghost part: seq<Write<Byte>>, ghost all: seq<Write<Byte>>)
    requires buf != strip
    requires Plan(s, gs) && B.Holds(s.k, s.n) && ThreadBlock(s, jc, nc0, pc) && Strip(nc0, s.blk, col, cols, slot)
    requires 0 <= local && local + slot * BlockRows(s, pc) <= strip.Length
    requires |lim| == s.n && forall j :: jc + col <= j < jc + col + cols ==> lim[j] == pc
    requires InParts(buf[..], here, s.Size() / 2, [], SumEntries(s, B, gs, lim)) && Held(strip[..], cur, g)
    requires BlockJob(s, B, jc, nc0, pc).Valid()
    modifies buf, strip
    ensures StripPart(part, g + local, BlockJob(s, B, jc, nc0, pc), col, slot, Min(s.k - pc, s.blk.KC))
    ensures Held(strip[..], cur + part, g)
    ensures InParts(buf[..], here, s.Size() / 2, [],
                    SumEntries(s, B, gs, SetLim(lim, jc + col, jc + col + cols, pc + Min(s.k - pc, s.blk.KC))))
    ensures Did(all, buf[..], old(buf[..]), [], HalfTable(s, gs), jc + col, jc + col + cols)
  {
    hide BlockRows, RoundUp, InParts, StripPart, SumEntries, Job.Valid, Matrix.Holds, GroupRows, BlockJob, NumGroups,
         Strip, FirstGroup, LastGroup, SetLim, ThreadBlock, Plan, Held, Did;
    Widths(s, gs);
    BlockShape(s, gs, jc, nc0, pc);
    StripIn(nc0, s.blk, col, cols, slot);
    ghost var job, a, b := BlockJob(s, B, jc, nc0, pc), jc + col, jc + col + cols;
    part, all := [], [];
    DidNothing(buf[..], HalfTable(s, gs), a, b);
    StripStart(g + local, job, col, slot);
    SetSame(lim, a, b, pc);
    assert cur + part == cur;
    var kc0 := Min(s.k - pc, s.blk.KC);
    var group, groupEnd := FirstGroup(gs, pc), LastGroup(s, gs, pc);
    ghost var r := pc;
    GroupAt(s, gs, pc, group);
    while group <= groupEnd
      invariant FirstGroup(gs, pc) <= group <= groupEnd + 1
      invariant r == if group <= groupEnd then GroupRows(s, gs, pc, group).0 else pc + kc0
      invariant StripPart(part, g + local, job, col, slot, r - pc) && Held(strip[..], cur + part, g)
      invariant InParts(buf[..], here, s.Size() / 2, [], SumEntries(s, B, gs, SetLim(lim, a, b, r)))
      invariant Did(all, buf[..], old(buf[..]), [], HalfTable(s, gs), a, b)
    {
      GroupAt(s, gs, pc, group);
      ghost var kg0 := GroupRows(s, gs, pc, group).1;
      SetTwice(lim, a, b, r, r + kg0);
      SetAt(lim, a, b, r);
      ghost var now := buf[..];
      ghost var more, next := FusedGroup(buf, strip, local, s, B, gs, jc, nc0, pc, col, cols, slot, group, g, here,
                                         cur, part, SetLim(lim, a, b, r));
      DidMore(all, next, buf[..], now, old(buf[..]), [], [], HalfTable(s, gs), a, a, b, b);
      NoWeights();
      part, all := part + more, all + next;
      r := r + kg0;
      group := group + 1;
    }
  }

  /** Within a step: the columns before col of a panel are laid out, by the trace `panel` and, from address g on, by
      `cur`, whose `done` bytes are in the scratch; their sums are in the table; the weights are still those of
      `here`. */
  ghost predicate InStep(buf: seq<Byte>, strip: seq<Byte>, s: Shape, B: Matrix<Byte>, gs: int, jc: int, nc0: int,
                         pc: int, col: int, g: int, done: int, here: seq<Byte>, panel: seq<Write<Byte>>,
                         cur: seq<Write<Byte>>, lim: seq<int>)
    requires Plan(s, gs) && |lim| == s.n && BlockJob(s, B, jc, nc0, pc).Valid()
  {
    && Held(strip, cur, g) && (forall x :: Last(cur, x).Some? <==> g <= x < g + done)
    && PanelPart(panel + cur, BlockOffset(s, jc, pc), BlockJob(s, B, jc, nc0, pc), col)
    && InParts(buf, here, s.Size() / 2, [],
               SumEntries(s, B, gs, SetLim(lim, jc, jc + col, pc + Min(s.k - pc, s.blk.KC))))
  }

  /** One strip packed to the scratch and joined to the panel. */
  method FusedAdd(buf: array<Byte>, strip: array<Byte>, local: int, s: Shape, B: Matrix<Byte>, gs: int, jc: int,
                  nc0: int, pc: int, col: int, cols: int, slot: int, ghost g: int, ghost here: seq<Byte>,
                  ghost panel: seq<Write<Byte>>, ghost was: seq<Write<Byte>>, ghost lim: seq<int>,
                  ghost sums: seq<Write<Byte>>) returns (ghost cur: seq<Write<Byte>>, ghost all: seq<Write<Byte>>)
    requires buf != strip
    requires Plan(s, gs) && B.Holds(s.k, s.n) && ThreadBlock(s, jc, nc0, pc) && Strip(nc0, s.blk, col, cols, slot)
    requires 0 <= local && local + slot * BlockRows(s, pc) <= strip.Length
    requires g + local == BlockOffset(s, jc, pc) + col * BlockRows(s, pc)
    requires |lim| == s.n && forall j :: jc <= j < jc + nc0 ==> lim[j] == pc
    requires BlockJob(s, B, jc, nc0, pc).Valid()
    requires InStep(buf[..], strip[..], s, B, gs, jc, nc0, pc, col, g, local, here, panel, was, lim)
    requires Did(sums, buf[..], here, [], HalfTable(s, gs), jc, jc + nc0)
    modifies buf, strip
    ensures InStep(buf[..], strip[..], s, B, gs, jc, nc0, pc, col + cols, g, local + slot * BlockRows(s, pc), here,
                   panel, cur, lim)
    ensures Did(all, buf[..], here, [], HalfTable(s, gs), jc, jc + nc0)
  {
    hide BlockOffset, InParts, StripPart, SumEntries, Job.Valid, Matrix.Holds, NumGroups, Strip, SetLim, ThreadBlock,
         Plan, PanelPart, RoundUp, Held, Did;
    BlockShape(s, gs, jc, nc0, pc);
    StripIn(nc0, s.blk, col, cols, slot);
    ghost var row := pc + Min(s.k - pc, s.blk.KC);
    SetAfter(lim, jc, jc + col, row, jc + nc0, pc);
    ghost var now := buf[..];
    ghost var more, next := FusedStrip(buf, strip, local, s, B, gs, jc, nc0, pc, col, cols, slot, g, here, was,
                                       SetLim(lim, jc, jc + col, row));
    all := sums + next;
    DidMore(sums, next, buf[..], now, here, [], [], HalfTable(s, gs), jc, jc + col, jc + col + cols, jc + nc0);
    NoWeights();
    SetExtends(lim, jc, jc + col, jc + col + cols, row);
    cur := was + more;
    assert panel + was + more == panel + cur;
    PanelStep(panel + was, more, BlockOffset(s, jc, pc), BlockJob(s, B, jc, nc0, pc), col, cols, slot);
    StripWritten(more, g + local, BlockJob(s, B, jc, nc0, pc), col, slot);
    StripShapeOf(s, B, jc, nc0, pc, col, cols, slot);
    forall x ensures Last(cur, x).Some? <==> g <= x < g + (local + slot * BlockRows(s, pc)) {
      LastConcat(was, more, x);
    }
  }

  lemma StripShapeOf(s: Shape, B: Matrix<Byte>, jc: int, nc0: int, pc: int, col: int, cols: int, slot: int)
    requires ThreadBlock(s, jc, nc0, pc) && Strip(nc0, s.blk, col, cols, slot)
    ensures 0 <= slot * BlockRows(s, pc) && BlockJob(s, B, jc, nc0, pc).H() == BlockRows(s, pc)
  {
    hide RoundUp;
    RowsOfBlock(s, pc);
    MulLe(0, slot, BlockRows(s, pc));
  }

  lemma StripWritten(part: seq<Write<Byte>>, base: int, job: Job<Byte>, col: int, slot: int)
    requires job.Valid() && StripPart(part, base, job, col, slot, job.kc0)
    ensures forall x :: Last(part, x).Some? <==> base <= x < base + slot * job.H()
  {
  }

  /** Where a strip of whole NR columns starts, and what it needs: an even place in the weights, and no more scratch
      than NR columns of a K block. */
  lemma StripPlace(s: Shape, gs: int, jc: int, nc0: int, pc: int, jr: int)
    requires Plan(s, gs) && ThreadBlock(s, jc, nc0, pc) && 0 <= jr < nc0 && jr % s.blk.NR == 0
    ensures var g := BlockOffset(s, jc, pc) + jr * BlockRows(s, pc);
      var count := RoundUp(Min(nc0 - jr, s.blk.NR), 16) * BlockRows(s, pc);
      && 0 <= g && g % 2 == 0 && 0 < count && count % 2 == 0 && g + count <= s.Size()
      && count <= s.blk.NR * RoundUp(s.blk.KC, 4)
  {
    hide RoundUp, BlockOffset, BlockRows, Plan, ThreadBlock, NumGroups;
    StripEven(s, gs, jc, nc0, pc, jr, RoundUp(Min(nc0 - jr, s.blk.NR), 16));
    StripFits(s, gs, jc, nc0, pc, jr);
  }

  lemma StripEven(s: Shape, gs: int, jc: int, nc0: int, pc: int, jr: int, slots: int)
    requires Plan(s, gs) && ThreadBlock(s, jc, nc0, pc)
    ensures (BlockOffset(s, jc, pc) + jr * BlockRows(s, pc)) % 2 == 0 && (slots * BlockRows(s, pc)) % 2 == 0
  {
    hide RoundUp, BlockOffset, BlockRows;
    RowsOfBlock(s, pc);
    EvenPlace(s, jc, pc);
    EvenProduct(jr, BlockRows(s, pc));
    EvenProduct(slots, BlockRows(s, pc));
  }

  lemma StripFits(s: Shape, gs: int, jc: int, nc0: int, pc: int, jr: int)
    requires Plan(s, gs) && ThreadBlock(s, jc, nc0, pc) && 0 <= jr < nc0 && jr % s.blk.NR == 0
    ensures var g := BlockOffset(s, jc, pc) + jr * BlockRows(s, pc);
      var count := RoundUp(Min(nc0 - jr, s.blk.NR), 16) * BlockRows(s, pc);
      && 0 <= g && 0 < count && g + count <= s.Size() && count <= s.blk.NR * RoundUp(s.blk.KC, 4)
  {
    hide RoundUp, BlockOffset, BlockRows, Floor;
    var H, NR, width := BlockRows(s, pc), s.blk.NR, PaddedCols(nc0, s.blk);
    var slots := RoundUp(Min(nc0 - jr, NR), 16);
    BlockInBounds(s, jc, nc0, pc);
    RowsOfBlock(s, pc);
    RoundUpFacts(Min(nc0 - jr, NR), 16);
    RoundUpLeast(Min(nc0 - jr, NR), 16, NR);
    RoundUpUnique(s.blk.KC, 4, s.blk.KC);
    WithinPadded(nc0, NR, jr);
    ScratchBounds(slots, NR, H, s.blk.KC);
    StripRegion(jr, slots, width, H, 0, H);
  }

  lemma ScratchBounds(slots: int, NR: int, H: int, KC: int)
    requires 1 <= slots <= NR && 0 < H <= KC
    ensures 0 < slots * H <= NR * KC
  {
    MulLe(1, slots, H);
    MulLe(slots, NR, H);
    MulLe(H, KC, NR);
  }

  lemma WithinPadded(nc0: int, NR: int, jr: int)
    requires NR > 0 && NR % 16 == 0 && 0 <= jr < nc0 && jr % NR == 0
    ensures jr + RoundUp(Min(nc0 - jr, NR), 16) <= RoundUp(nc0, 16)
  {
    hide RoundUp;
    RoundUpFacts(nc0, 16);
    if nc0 - jr < NR {
      MultTrans(jr, NR, 16);
      RoundUpShift(nc0 - jr, 16, jr);
    } else {
      RoundUpUnique(NR, 16, NR);
    }
  }

  lemma EvenProduct(x: int, y: int)
    requires y % 4 == 0
    ensures (x * y) % 2 == 0
  {
    MulAssoc(x, y / 2, 2);
    MulMod(x * (y / 2), 2);
  }

  lemma FringeCols(nr0: int)
    requires 0 < nr0
    ensures RoundUp(nr0, 16) == (nr0 / 16) * 16 + (if nr0 % 16 > 0 then 16 else 0)
  {
  }

  /** Panels, K blocks and columns of a K block all start at even places. */
  lemma EvenPlace(s: Shape, jc: int, pc: int)
    requires s.Valid() && s.blk.kf == 4 && 0 <= pc < s.k && pc % s.blk.KC == 0
    ensures BlockOffset(s, jc, pc) % 2 == 0
  {
    hide RoundUp, Floor, PanelWidth, BlockRows;
    var jcl, width := Floor(jc, s.blk.NC), PanelWidth(jc, s.n, s.blk.NC, s.blk.minNR);
    RoundUpFacts(s.k, 4);
    RowsOfBlock(s, pc);
    MultTrans(pc, s.blk.KC, 4);
    EvenSum(jcl, s.KPad(), width, pc, jc - jcl, BlockRows(s, pc));
  }

  lemma EvenSum(a: int, x: int, b: int, y: int, c: int, z: int)
    requires x % 4 == 0 && y % 4 == 0 && z % 4 == 0
    ensures (a * x + b * y + c * z) % 2 == 0
  {
    EvenProduct(a, x);
    EvenProduct(b, y);
    EvenProduct(c, z);
    SumOfEven(a * x, b * y, c * z);
  }

  lemma SumOfEven(u: int, v: int, w: int)
    requires u % 2 == 0 && v % 2 == 0 && w % 2 == 0
    ensures (u + v + w) % 2 == 0
  {
  }

  /** A fringe narrower than NR: whole 16-column slots, then a tail in one slot. */
  method FusedFringe(buf: array<Byte>, strip: array<Byte>, s: Shape, B: Matrix<Byte>, gs: int, jc: int, nc0: int,
                     pc: int, jr: int, ghost g: int, ghost here: seq<Byte>, ghost panel: seq<Write<Byte>>,
                     ghost lim: seq<int>, ghost sums: seq<Write<Byte>>)
    returns (ghost cur: seq<Write<Byte>>, ghost all: seq<Write<Byte>>)
    requires buf != strip
    requires Plan(s, gs) && B.Holds(s.k, s.n) && ThreadBlock(s, jc, nc0, pc)
    requires 0 <= jr < nc0 < jr + s.blk.NR && jr % s.blk.NR == 0
    requires RoundUp(nc0 - jr, 16) * BlockRows(s, pc) <= strip.Length
    requires g == BlockOffset(s, jc, pc) + jr * BlockRows(s, pc)
    requires |lim| == s.n && forall j :: jc <= j < jc + nc0 ==> lim[j] == pc
    requires BlockJob(s, B, jc, nc0, pc).Valid()
    requires InStep(buf[..], strip[..], s, B, gs, jc, nc0, pc, jr, g, 0, here, panel, [], lim)
    requires Did(sums, buf[..], here, [], HalfTable(s, gs), jc, jc + nc0)
    modifies buf, strip
    ensures InStep(buf[..], strip[..], s, B, gs, jc, nc0, pc, nc0, g, RoundUp(nc0 - jr, 16) * BlockRows(s, pc), here,
                   panel, cur, lim)
    ensures Did(all, buf[..], here, [], HalfTable(s, gs), jc, jc + nc0)
  {
    hide InStep, Did, Job.Valid, Matrix.Holds, NumGroups, Strip, SetLim, ThreadBlock, RoundUp, BlockJob, PanelWidth,
         Plan, BlockOffset, BlockRows;
    BlockShape(s, gs, jc, nc0, pc);
    MinNR(s, gs, jc, nc0, pc);
    FringeStrips(nc0, s.blk, jr);
    FringeCols(nc0 - jr);
    StripHeight(s, gs, jc, nc0, pc);
    var nr0, H := nc0 - jr, BlockRows(s, pc);
    var nrMult16, nr0Rem := (nr0 / 16) * 16, nr0 % 16;
    Distribute(nrMult16, 16, H);
    Distribute(jr, nrMult16, H);
    MulLe(0, nrMult16, H);
    cur, all := [], sums;
    if nrMult16 > 0 {
      cur, all := FusedAdd(buf, strip, 0, s, B, gs, jc, nc0, pc, jr, nrMult16, nrMult16, g, here, panel, cur, lim, all);
    }
    if nr0Rem > 0 {
      cur, all := FusedAdd(buf, strip, nrMult16 * H, s, B, gs, jc, nc0, pc, jr + nrMult16, nr0Rem, 16, g, here, panel,
                           cur, lim, all);
    }
  }

  lemma StripHeight(s: Shape, gs: int, jc: int, nc0: int, pc: int)
    requires Plan(s, gs) && ThreadBlock(s, jc, nc0, pc)
    ensures 0 < BlockRows(s, pc)
  {
    hide RoundUp;
    RowsOfBlock(s, pc);
  }

  lemma StepStart(buf: seq<Byte>, strip: seq<Byte>, mem: seq<Byte>, s: Shape, B: Matrix<Byte>, gs: int, jc: int,
                  nc0: int, pc: int, jr: int, g: int, before: seq<Write<Byte>>, panel: seq<Write<Byte>>,
                  lim: seq<int>)
    requires Plan(s, gs) && |lim| == s.n && BlockJob(s, B, jc, nc0, pc).Valid()
    requires PanelPart(panel, BlockOffset(s, jc, pc), BlockJob(s, B, jc, nc0, pc), jr)
    requires Halved(buf, mem, s.Size(), before,
                    SumEntries(s, B, gs, SetLim(lim, jc, jc + jr, pc + Min(s.k - pc, s.blk.KC))))
    ensures InStep(buf, strip, s, B, gs, jc, nc0, pc, jr, g, 0, buf, panel, [], lim) && s.Size() / 2 <= |buf|
  {
    HalvedShape(buf, mem, s.Size(), before,
                SumEntries(s, B, gs, SetLim(lim, jc, jc + jr, pc + Min(s.k - pc, s.blk.KC))));
    hide Halved, InParts, SumEntries, SetLim, PanelPart, BlockJob, BlockOffset, Plan;
    HalvedParts(buf, mem, s.Size(), before,
                SumEntries(s, B, gs, SetLim(lim, jc, jc + jr, pc + Min(s.k - pc, s.blk.KC))));
    assert panel + [] == panel;
  }

  /** A step ends: sums in, and the scratch compressed into its place. */
  lemma StepEnd(buf: seq<Byte>, summed: seq<Byte>, here: seq<Byte>, mem: seq<Byte>, strip: seq<Byte>, s: Shape,
                B: Matrix<Byte>, gs: int, jc: int, nc0: int, pc: int, jr: int, col: int, g: int, count: int,
                before: seq<Write<Byte>>, panel: seq<Write<Byte>>, cur: seq<Write<Byte>>, lim: seq<int>)
    requires Plan(s, gs) && |lim| == s.n && BlockJob(s, B, jc, nc0, pc).Valid()
    requires InStep(summed, strip, s, B, gs, jc, nc0, pc, col, g, count, here, panel, cur, lim)
    requires Halved(here, mem, s.Size(), before,
                    SumEntries(s, B, gs, SetLim(lim, jc, jc + jr, pc + Min(s.k - pc, s.blk.KC))))
    requires 0 <= g && g % 2 == 0 && 0 <= count <= |strip| && count % 2 == 0 && g + count <= s.Size()
    requires |buf| == |summed|
    requires forall x {:trigger buf[x]} :: 0 <= x < |buf| ==>
               buf[x] == if g / 2 <= x < g / 2 + count / 2 then
                           Compress(strip[2 * (x - g / 2)], strip[2 * (x - g / 2) + 1])
                         else summed[x]
    ensures PanelPart(panel + cur, BlockOffset(s, jc, pc), BlockJob(s, B, jc, nc0, pc), col)
    ensures Halved(buf, mem, s.Size(), before + cur,
                   SumEntries(s, B, gs, SetLim(lim, jc, jc + col, pc + Min(s.k - pc, s.blk.KC))))
  {
    hide Halved, InParts, SetLim, PanelPart, BlockJob, BlockOffset, Plan, Held, Compress, NumGroups, EntryOf;
    var row := pc + Min(s.k - pc, s.blk.KC);
    var vals, now := SumEntries(s, B, gs, SetLim(lim, jc, jc + jr, row)),
      SumEntries(s, B, gs, SetLim(lim, jc, jc + col, row));
    SumsReplaced(summed, here, mem, s.Size(), before, vals, now);
    StripCompressed(buf, summed, mem, strip, s.Size(), before, cur, now, g, count);
  }

  /** The scratch cleared before a step. */
  method ClearStrip(strip: array<Byte>, count: int)
    requires 0 <= count <= strip.Length
    modifies strip
    ensures forall x :: 0 <= x < strip.Length ==> strip[x] == if x < count then 0 else old(strip[x])
  {
    forall x | 0 <= x < count { strip[x] := 0; }
  }

  /** One NR-wide step over a K block: its strips to the scratch, then the scratch compressed into place. */
  method FusedStep(buf: array<Byte>, strip: array<Byte>, s: Shape, B: Matrix<Byte>, gs: int, jc: int, nc0: int, pc: int,
                   jr: int, ghost mem: seq<Byte>, ghost before: seq<Write<Byte>>, ghost panel: seq<Write<Byte>>,
                   ghost lim: seq<int>, ghost lo: int, ghost hi: int, ghost done: seq<Write<Byte>>)
    returns (ghost cur: seq<Write<Byte>>, ghost all: seq<Write<Byte>>)
    requires buf != strip && strip.Length == s.blk.NR * RoundUp(s.blk.KC, 4)
    requires Plan(s, gs) && B.Holds(s.k, s.n) && ThreadBlock(s, jc, nc0, pc)
    requires 0 <= jr < nc0 && jr % s.blk.NR == 0
    requires |lim| == s.n && forall j :: jc <= j < jc + nc0 ==> lim[j] == pc
    requires BlockJob(s, B, jc, nc0, pc).Valid()
    requires PanelPart(panel, BlockOffset(s, jc, pc), BlockJob(s, B, jc, nc0, pc), jr)
    requires Halved(buf[..], mem, s.Size(), before,
                    SumEntries(s, B, gs, SetLim(lim, jc, jc + jr, pc + Min(s.k - pc, s.blk.KC))))
    requires HalfDid(done, buf[..], mem, before, HalfTable(s, gs), lo, hi) && lo <= jc && jc + nc0 <= hi
    modifies buf, strip
    ensures PanelPart(panel + cur, BlockOffset(s, jc, pc), BlockJob(s, B, jc, nc0, pc), Min(jr + s.blk.NR, nc0))
    ensures Halved(buf[..], mem, s.Size(), before + cur,
                   SumEntries(s, B, gs, SetLim(lim, jc, jc + Min(jr + s.blk.NR, nc0), pc + Min(s.k - pc, s.blk.KC))))
    ensures HalfDid(all, buf[..], mem, before + cur, HalfTable(s, gs), lo, hi)
  {
    hide InStep, Halved, SumEntries, Job.Valid, Matrix.Holds, NumGroups, Strip, SetLim, ThreadBlock, PanelPart,
         RoundUp, BlockJob, PanelWidth, Plan, BlockOffset, Compress, BlockRows, Did, HalfDid;
    Widths(s, gs);
    BlockShape(s, gs, jc, nc0, pc);
    MinNR(s, gs, jc, nc0, pc);
    StripPlace(s, gs, jc, nc0, pc, jr);
    var NR, H := s.blk.NR, BlockRows(s, pc);
    var g := BlockOffset(s, jc, pc) + jr * H;
    var nr0 := Min(nc0 - jr, NR);
    var count := RoundUp(nr0, 16) * H;
    ghost var here := buf[..];
    ClearStrip(strip, count);
    assert buf[..] == here;
    StepStart(here, strip[..], mem, s, B, gs, jc, nc0, pc, jr, g, before, panel, lim);
    ghost var sums: seq<Write<Byte>> := [];
    DidNothing(here, HalfTable(s, gs), jc, jc + nc0);
    if nr0 < NR {
      cur, sums := FusedFringe(buf, strip, s, B, gs, jc, nc0, pc, jr, g, here, panel, lim, sums);
    } else {
      FullStrip(nc0, s.blk, jr);
      WholeStrip(s, gs, NR);
      cur, sums := FusedAdd(buf, strip, 0, s, B, gs, jc, nc0, pc, jr, NR, NR, g, here, panel, [], lim, sums);
    }
    ghost var summed := buf[..];
    ghost var weights := CompressAll(buf, g / 2, strip, count);
    all := done + sums + weights;
    StepWritten(summed, strip[..], s, B, gs, jc, nc0, pc, Min(jr + NR, nc0), g, count, here, panel, cur, lim);
    HalfDidStep(done, sums, weights, buf[..], summed, here, mem, before, cur, HalfTable(s, gs), lo, jc, jc + nc0, hi, g,
                count);
    StepEnd(buf[..], summed, here, mem, strip[..], s, B, gs, jc, nc0, pc, jr, Min(jr + NR, nc0), g, count, before,
            panel, cur, lim);
  }

  lemma StepWritten(buf: seq<Byte>, strip: seq<Byte>, s: Shape, B: Matrix<Byte>, gs: int, jc: int, nc0: int, pc: int,
                    col: int, g: int, count: int, here: seq<Byte>, panel: seq<Write<Byte>>, cur: seq<Write<Byte>>,
                    lim: seq<int>)
    requires Plan(s, gs) && |lim| == s.n && BlockJob(s, B, jc, nc0, pc).Valid()
    requires InStep(buf, strip, s, B, gs, jc, nc0, pc, col, g, count, here, panel, cur, lim)
    ensures forall x :: Last(cur, x).Some? <==> g <= x < g + count
  {
    hide Held, PanelPart, InParts;
  }

  lemma WholeStrip(s: Shape, gs: int, NR: int)
    requires Plan(s, gs) && NR == s.blk.NR
    ensures RoundUp(NR, 16) == NR
  {
    RoundUpUnique(NR, 16, NR);
  }

  /** One K block of the nc0 columns that start at jc. */
  method FusedBlock(buf: array<Byte>, strip: array<Byte>, s: Shape, B: Matrix<Byte>, gs: int, jc: int, nc0: int,
                    pc: int, ghost mem: seq<Byte>, ghost before: seq<Write<Byte>>, ghost lim: seq<int>,
                    ghost lo: int, ghost hi: int, ghost done: seq<Write<Byte>>)
    returns (ghost part: seq<Write<Byte>>, ghost all: seq<Write<Byte>>)
    requires buf != strip && strip.Length == s.blk.NR * RoundUp(s.blk.KC, 4)
    requires Plan(s, gs) && B.Holds(s.k, s.n) && ThreadBlock(s, jc, nc0, pc)
    requires |lim| == s.n && forall j :: jc <= j < jc + nc0 ==> lim[j] == pc
    requires Halved(buf[..], mem, s.Size(), before, SumEntries(s, B, gs, lim))
    requires HalfDid(done, buf[..], mem, before, HalfTable(s, gs), lo, hi) && lo <= jc && jc + nc0 <= hi
    modifies buf, strip
    ensures BlockJob(s, B, jc, nc0, pc).Valid() && Packed(part, BlockOffset(s, jc, pc), BlockJob(s, B, jc, nc0, pc))
    ensures Halved(buf[..], mem, s.Size(), before + part,
                   SumEntries(s, B, gs, SetLim(lim, jc, jc + nc0, pc + Min(s.k - pc, s.blk.KC))))
    ensures HalfDid(all, buf[..], mem, before + part, HalfTable(s, gs), lo, hi)
  {
    hide Halved, SumEntries, Job.Valid, Matrix.Holds, NumGroups, SetLim, ThreadBlock, PanelPart, RoundUp, Packed,
         BlockJob, Plan, BlockOffset, HalfDid;
    BlockShape(s, gs, jc, nc0, pc);
    MinNR(s, gs, jc, nc0, pc);
    BlockJobValid(s, B, jc, nc0, pc);
    var NR, kc0 := s.blk.NR, Min(s.k - pc, s.blk.KC);
    ghost var off, job := BlockOffset(s, jc, pc), BlockJob(s, B, jc, nc0, pc);
    part, all := [], done;
    PanelStart(off, job);
    SetNone(lim, jc, pc + kc0);
    assert before + part == before;
    var jr := 0;
    while jr < nc0
      invariant 0 <= jr && jr % NR == 0
      invariant PanelPart(part, off, job, Min(jr, nc0))
      invariant Halved(buf[..], mem, s.Size(), before + part,
                       SumEntries(s, B, gs, SetLim(lim, jc, jc + Min(jr, nc0), pc + kc0)))
      invariant HalfDid(all, buf[..], mem, before + part, HalfTable(s, gs), lo, hi)
    {
      ghost var cur;
      cur, all := FusedStep(buf, strip, s, B, gs, jc, nc0, pc, jr, mem, before + part, part, lim, lo, hi, all);
      assert before + part + cur == before + (part + cur);
      part := part + cur;
      MulMod(1, NR);
      MultAdd(jr, NR, NR);
      jr := jr + NR;
    }
    PanelEnd(part, off, job);
  }

  /** The PC loop over the nc0 columns that start at jc. */
  method FusedColumns(buf: array<Byte>, strip: array<Byte>, s: Shape, B: Matrix<Byte>, gs: int, ghost lo: int,
                      ghost hi: int, jc: int, nc0: int, ghost mem: seq<Byte>, ghost before: seq<Write<Byte>>,
                      ghost lim: seq<int>, ghost done: seq<Write<Byte>>)
    returns (ghost tr: seq<Write<Byte>>, ghost all: seq<Write<Byte>>)
    requires buf != strip && strip.Length == s.blk.NR * RoundUp(s.blk.KC, 4)
    requires Plan(s, gs) && B.Holds(s.k, s.n) && ThreadBlock(s, jc, nc0, 0) && 0 <= lo <= jc
    requires |lim| == s.n && forall j :: jc <= j < jc + nc0 ==> lim[j] == 0
    requires Halved(buf[..], mem, s.Size(), before, SumEntries(s, B, gs, lim)) && PackedCols(before, s, B, lo, jc)
    requires HalfDid(done, buf[..], mem, before, HalfTable(s, gs), lo, hi) && jc + nc0 <= hi
    modifies buf, strip
    ensures PackedPart(tr, s, B, lo, jc, nc0, s.KPad())
    ensures Halved(buf[..], mem, s.Size(), tr, SumEntries(s, B, gs, SetLim(lim, jc, jc + nc0, s.k)))
    ensures HalfDid(all, buf[..], mem, tr, HalfTable(s, gs), lo, hi)
  {
    hide Halved, SumEntries, NumGroups, SetLim, RoundUp, Packed, BlockJob, PackedCols, PackedPart, Plan, BlockOffset,
         PanelPos, Pos, Job.Valid, Matrix.Holds, BlockRows, HalfDid;
    BlockShape(s, gs, jc, nc0, 0);
    PlanShape(s, gs);
    var KC := s.blk.KC;
    tr, all := before, done;
    ColumnsStart(tr, s, B, lo, jc, nc0);
    SetSame(lim, jc, jc + nc0, 0);
    var pc := 0;
    while pc < s.k
      invariant 0 <= pc && pc % KC == 0
      invariant PackedPart(tr, s, B, lo, jc, nc0, pc)
      invariant Halved(buf[..], mem, s.Size(), tr, SumEntries(s, B, gs, SetLim(lim, jc, jc + nc0, Min(pc, s.k))))
      invariant HalfDid(all, buf[..], mem, tr, HalfTable(s, gs), lo, hi)
    {
      ghost var row := pc + Min(s.k - pc, KC);
      SetAt(lim, jc, jc + nc0, pc);
      ghost var part;
      part, all := FusedBlock(buf, strip, s, B, gs, jc, nc0, pc, mem, tr, SetLim(lim, jc, jc + nc0, pc), lo, hi, all);
      SetTwice(lim, jc, jc + nc0, pc, row);
      BlockDone(tr, part, s, B, lo, jc, nc0, pc);
      tr := tr + part;
      MulMod(1, KC);
      MultAdd(pc, KC, KC);
      pc := pc + KC;
    }
    AllRows(tr, s, B, lo, jc, nc0, pc);
  }

  /** Everything a thread with slice [lo, hi) writes, starting from a cleared table: for each of its cells the byte that
      holds it, with the cell's four bits in its half, and its columns' slots, which end with their whole sums. */
  ghost predicate CompactWrites(tr: seq<Write<Byte>>, s: Shape, gs: int, B: Matrix<Byte>, lo: int, hi: int)
    requires Plan(s, gs) && B.Holds(s.k, s.n)
  {
    Widths(s, gs);
    && InBounds(tr, CompactBytes(s, gs))
    && (forall p, j {:trigger Pos(s, p, j)} :: s.Padded(p, j) ==>
          if Owns(s, lo, hi, j) then HalfByte(Last(tr, Pos(s, p, j) / 2), Pos(s, p, j), B.At(s, p, j))
          else Last(tr, Pos(s, p, j) / 2).None?)
    && forall y :: 0 <= y < 4 * (Vectors(s, gs) * s.NPad()) ==> SlotWritten(tr, s, gs, B, lo, hi, s.Size() / 2, y)
  }

  /** A written byte holds the four bits of v at position x. */
  predicate HalfByte(b: Option<Byte>, x: int, v: Byte) {
    b.Some? && (if x % 2 == 0 then b.value % 16 else b.value / 16) == v % 16
  }

  lemma CompressHalves(lo: Byte, hi: Byte)
    ensures Compress(lo, hi) % 16 == lo % 16 && Compress(lo, hi) / 16 == hi % 16
  {
  }

  lemma HalfCell(all: seq<Write<Byte>>, now: seq<Byte>, was: seq<Byte>, wide: seq<Write<Byte>>, s: Shape, gs: int,
                 B: Matrix<Byte>, vals: seq<int>, lo: int, hi: int, p: int, j: int)
    requires Plan(s, gs) && B.Holds(s.k, s.n) && s.Padded(p, j)
    requires HalfDid(all, now, was, wide, HalfTable(s, gs), lo, hi) && PackedCols(wide, s, B, lo, hi)
    requires Halved(now, was, s.Size(), wide, vals)
    ensures 0 <= Pos(s, p, j) < s.Size()
    ensures if Owns(s, lo, hi, j) then HalfByte(Last(all, Pos(s, p, j) / 2), Pos(s, p, j), B.At(s, p, j))
            else Last(all, Pos(s, p, j) / 2).None?
  {
    hide Pos, RoundUp, Owns, Matrix.At, Compress, Tabled;
    CellOfPos(s, p, j);
    var x := Pos(s, p, j);
    var i := x / 2;
    assert HalvedAt(now[i], was[i], wide, i);
    assert Last(wide, x) == if Owns(s, lo, hi, j) then Some(B.At(s, p, j)) else None;
    assert x == 2 * i || x == 2 * i + 1;
    ApplyAt(was, all, i);
    if Owns(s, lo, hi, j) { CompressHalves(Last(wide, 2 * i).value, Last(wide, 2 * i + 1).value); }
  }

  /** The trace behind a thread's progress is what a thread writes. */
  lemma CompactThreadDone(all: seq<Write<Byte>>, now: seq<Byte>, was: seq<Byte>, wide: seq<Write<Byte>>, s: Shape,
                          gs: int, B: Matrix<Byte>, lim: seq<int>, lo: int, hi: int)
    requires Plan(s, gs) && B.Holds(s.k, s.n) && 0 <= lo <= hi <= s.n && |lim| == s.n
    requires forall j :: lo <= j < hi ==> lim[j] == 0
    requires HalfDid(all, now, was, wide, HalfTable(s, gs), lo, hi) && PackedCols(wide, s, B, lo, hi)
    requires Halved(was, was, s.Size(), [], SumEntries(s, B, gs, lim))
    requires Halved(now, was, s.Size(), wide, SumEntries(s, B, gs, SetLim(lim, lo, hi, s.k)))
    ensures CompactWrites(all, s, gs, B, lo, hi)
  {
    hide RoundUp, Pos, SumEntries, SetLim, NumGroups, WordByte, Owns, SumsTo, Plan, Matrix.Holds, HalfByte, HalvedAt,
         PackedCols;
    Widths(s, gs);
    PlanShape(s, gs);
    var half, T := s.Size() / 2, Vectors(s, gs) * s.NPad();
    forall p, j | s.Padded(p, j)
      ensures if Owns(s, lo, hi, j) then HalfByte(Last(all, Pos(s, p, j) / 2), Pos(s, p, j), B.At(s, p, j))
              else Last(all, Pos(s, p, j) / 2).None?
    {
      HalfCell(all, now, was, wide, s, gs, B, SumEntries(s, B, gs, SetLim(lim, lo, hi, s.k)), lo, hi, p, j);
    }
    forall i | 0 <= i < |all| ensures 0 <= all[i].addr < CompactBytes(s, gs) {
      LastNone(all, all[i].addr);
      assert all[i].addr < half || SlotByte(all[i].addr, HalfTable(s, gs), lo, hi);
    }
    forall y | 0 <= y < 4 * T ensures SlotWritten(all, s, gs, B, lo, hi, half, y) {
      EntryWhole(s, B, gs, lim, lo, hi, y);
      assert was[half..][y] == WordByte(SumEntries(s, B, gs, lim)[y / 4], y % 4);
      assert now[half..][y] == WordByte(SumEntries(s, B, gs, SetLim(lim, lo, hi, s.k))[y / 4], y % 4);
      ApplyAt(was, all, half + y);
      ZeroWord(y % 4);
    }
  }

  /** One thread's loops over its slice of the columns, with a scratch of its own. */
  method FusedThread(buf: array<Byte>, strip: array<Byte>, s: Shape, B: Matrix<Byte>, gs: int, lo: int, hi: int,
                     ghost lim: seq<int>) returns (ghost tr: seq<Write<Byte>>, ghost all: seq<Write<Byte>>)
    requires buf != strip && strip.Length == s.blk.NR * RoundUp(s.blk.KC, 4)
    requires Plan(s, gs) && B.Holds(s.k, s.n) && Slice(lo, hi, s.n, s.blk.NR)
    requires |lim| == s.n && forall j :: lo <= j < hi ==> lim[j] == 0
    requires Halved(buf[..], buf[..], s.Size(), [], SumEntries(s, B, gs, lim))
    modifies buf, strip
    ensures PackedCols(tr, s, B, lo, hi)
    ensures Halved(buf[..], old(buf[..]), s.Size(), tr, SumEntries(s, B, gs, SetLim(lim, lo, hi, s.k)))
    ensures InBounds(all, buf.Length) && buf[..] == Apply(old(buf[..]), all) && CompactWrites(all, s, gs, B, lo, hi)
  {
    hide Halved, SumEntries, NumGroups, SetLim, RoundUp, PackedCols, PackedPart, ThreadBlock, Floor, HalfDid,
         CompactWrites;
    Widths(s, gs);
    ghost var mem := buf[..];
    PlanShape(s, gs);
    var NC := s.blk.NC;
    tr, all := [], [];
    HalfDidNothing(mem, HalfTable(s, gs), lo, hi);
    NothingPacked(s, B, lo);
    SetNone(lim, lo, s.k);
    var jc := lo;
    while jc < hi
      invariant lo <= jc && (jc == lo || jc % NC == 0)
      invariant PackedCols(tr, s, B, lo, Min(jc, hi))
      invariant Halved(buf[..], mem, s.Size(), tr, SumEntries(s, B, gs, SetLim(lim, lo, Min(jc, hi), s.k)))
      invariant HalfDid(all, buf[..], mem, tr, HalfTable(s, gs), lo, hi)
      decreases hi - jc
    {
      var (start, rem, nc0) := PanelClip(jc, NC, Min(hi - jc, NC));
      ClipIsBlock(s, lo, hi, jc, 0);
      SetAfter(lim, lo, jc, s.k, hi, 0);
      tr, all := FusedColumns(buf, strip, s, B, gs, lo, hi, jc, nc0, mem, tr, SetLim(lim, lo, jc, s.k), all);
      SetExtends(lim, lo, jc, jc + nc0, s.k);
      ColumnsDone(tr, s, B, lo, jc, nc0);
      jc := start;
      jc := jc + NC;
    }
    HalfDidApply(all, buf[..], mem, tr, HalfTable(s, gs), lo, hi);
    CompactThreadDone(all, buf[..], mem, tr, s, gs, B, lim, lo, hi);
  }

  lemma HalvedChain(buf: seq<Byte>, here: seq<Byte>, mem: seq<Byte>, size: int, tr: seq<Write<Byte>>,
                    part: seq<Write<Byte>>, before: seq<int>, after: seq<int>)
    requires Halved(here, mem, size, tr, before) && Halved(buf, here, size, part, after) && |before| == |after|
    ensures Halved(buf, mem, size, tr + part, after)
  {
    hide WordByte, Compress;
    var half := size / 2;
    forall i | 0 <= i < half ensures HalvedAt(buf[i], mem[i], tr + part, i) {
      assert HalvedAt(here[i], mem[i], tr, i) && HalvedAt(buf[i], here[i], part, i);
      LastConcat(tr, part, 2 * i);
      LastConcat(tr, part, 2 * i + 1);
    }
    forall x | 0 <= x < |mem| - half && !(0 <= x < 4 * |after|) ensures buf[half..][x] == mem[half..][x] {
      assert here[half..][x] == mem[half..][x];
    }
  }

  /** `dlp_reorderb_nr64_s8s4s32o32` as built for Zen 4, when `team` of the threads it asks for run; their slices are
      taken one after another. The packers widen as they load: what they see is the widened matrix. */
  method ReorderFused(buf: array<Byte>, s: Shape, gs: int, src: seq<bv8>, rs: int, cs: int, nThreads: int, team: int)
    requires Plan(s, gs) && HoldsNibbles(|src|, s.k, s.n, rs, cs) && CompactBytes(s, gs) <= buf.Length
    requires 1 <= team <= Ways(nThreads)
    modifies buf
    ensures CompactOnly(buf[..], old(buf[..]), s, gs, src, rs, cs,
                        TaskRange(Ways(nThreads), team - 1, s.n, s.blk.NR).1)
    ensures Suffices(Ways(nThreads), team, s.n, s.blk.NR) ==>
              CompactReordered(buf[..], old(buf[..]), s, gs, src, rs, cs)
  {
    hide TaskRange, RoundUp, PackedCols, Halved, SumEntries, SetLim, NumGroups, InParts, CompactTo,
         CompactOnly, WidenedMatrix, Matrix.Holds, CompactWrites, Suffices;
    WideFacts(s, gs);
    PlanShape(s, gs);
    WidenedHolds(src, s.k, s.n, rs, cs);
    var B := WidenedMatrix(src, s.k, s.n, rs, cs);
    ghost var mem, zero := buf[..], seq(s.n, j => 0);
    TableSize(s, gs);
    ClearSums(buf, s.Size() / 2, Vectors(s, gs) * s.NPad());
    NoRowsYet(s, B, gs);
    SetNone(zero, 0, s.k);
    HalvedStart(buf[..], mem, s.Size(), SumEntries(s, B, gs, zero));
    var ways := if nThreads > 0 then nThreads else 1;
    var stride := s.blk.NR * RoundUp(s.blk.KC, 4);
    ScratchSize(s, gs);
    ghost var tr: seq<Write<Byte>> := [];
    NothingPacked(s, B, 0);
    RangeEnds(ways, s.n, s.blk.NR);
    ghost var done := 0;
    var id := 0;
    while id < team
      invariant 0 <= id <= team && done == if id == 0 then 0 else TaskRange(ways, id - 1, s.n, s.blk.NR).1
      invariant PackedCols(tr, s, B, 0, done)
      invariant Halved(buf[..], mem, s.Size(), tr, SumEntries(s, B, gs, SetLim(zero, 0, done, s.k)))
    {
      var (lo, hi) := TaskRange(ways, id, s.n, s.blk.NR);
      RangeIsSlice(ways, id, s.n, s.blk.NR);
      if id > 0 { RangesAreOrdered(ways, id - 1, id, s.n, s.blk.NR); }
      ghost var here := buf[..];
      SetAfter(zero, 0, lo, s.k, hi, 0);
      var strip := new Byte[stride];
      HalvedParts(here, mem, s.Size(), tr, SumEntries(s, B, gs, SetLim(zero, 0, lo, s.k)));
      HalvedStart(here, here, s.Size(), SumEntries(s, B, gs, SetLim(zero, 0, lo, s.k)));
      ghost var part, all := FusedThread(buf, strip, s, B, gs, lo, hi, SetLim(zero, 0, lo, s.k));
      SetExtends(zero, 0, lo, hi, s.k);
      SetAfter(zero, 0, hi, s.k, hi, 0);
      HalvedChain(buf[..], here, mem, s.Size(), tr, part, SumEntries(s, B, gs, SetLim(zero, 0, lo, s.k)),
                  SumEntries(s, B, gs, SetLim(zero, 0, hi, s.k)));
      JoinColumns(tr, part, s, B, lo, hi);
      tr := tr + part;
      done := hi;
      id := id + 1;
    }
    FusedDone(buf[..], mem, s, gs, src, rs, cs, tr, done);
    EndReached(s, ways, team);
    OnlyIsTo(buf[..], mem, s, gs, src, rs, cs, done);
  }

  lemma ScratchSize(s: Shape, gs: int)
    requires Plan(s, gs)
    ensures 0 <= s.blk.NR * RoundUp(s.blk.KC, 4)
  {
    hide RoundUp;
    RoundUpFacts(s.blk.KC, 4);
    MulLe(0, s.blk.NR, RoundUp(s.blk.KC, 4));
  }

  /** What is left once the columns before hi are reordered, and every other byte of the weights as it was. */
  ghost predicate CompactOnly(now: seq<Byte>, was: seq<Byte>, s: Shape, gs: int, src: seq<bv8>, rs: int, cs: int,
                              hi: int)
    requires Plan(s, gs) && HoldsNibbles(|src|, s.k, s.n, rs, cs)
  {
    && CompactTo(now, was, s, gs, src, rs, cs, hi) && s.Size() % 2 == 0
    && forall p, j {:trigger Pos(s, p, j)} :: s.Padded(p, j) && !Owns(s, 0, hi, j) ==>
         now[Pos(s, p, j) / 2] == was[Pos(s, p, j) / 2]
  }

  lemma OnlyIsTo(now: seq<Byte>, was: seq<Byte>, s: Shape, gs: int, src: seq<bv8>, rs: int, cs: int, hi: int)
    requires Plan(s, gs) && HoldsNibbles(|src|, s.k, s.n, rs, cs)
    requires CompactOnly(now, was, s, gs, src, rs, cs, hi)
    ensures CompactTo(now, was, s, gs, src, rs, cs, hi)
  {
  }

  /** The weights so far: every position is that of a cell, and its nibble is that cell's weight. */
  lemma FusedDone(buf: seq<Byte>, mem: seq<Byte>, s: Shape, gs: int, src: seq<bv8>, rs: int, cs: int,
                  tr: seq<Write<Byte>>, hi: int)
    requires Plan(s, gs) && HoldsNibbles(|src|, s.k, s.n, rs, cs) && 0 <= s.k * s.n
    requires WidenedMatrix(src, s.k, s.n, rs, cs).Holds(s.k, s.n)
    requires PackedCols(tr, s, WidenedMatrix(src, s.k, s.n, rs, cs), 0, hi)
    requires Halved(buf, mem, s.Size(), tr,
                    SumEntries(s, WidenedMatrix(src, s.k, s.n, rs, cs), gs, SetLim(seq(s.n, j => 0), 0, hi, s.k)))
    ensures CompactOnly(buf, mem, s, gs, src, rs, cs, hi)
  {
    hide Tabled, SumEntries, Pos, RoundUp, PackedCols, WidenedMatrix, S4At, Addr, HalvedAt, NumGroups, Owns;
    forall p, j | s.Padded(p, j)
      ensures 0 <= Pos(s, p, j) < s.Size()
      ensures Owns(s, 0, hi, j) ==>
                Nibble(buf, Pos(s, p, j)) == if s.Live(p, j) then S4At(src, Addr(p, j, rs, cs)) else 0
      ensures !Owns(s, 0, hi, j) ==> buf[Pos(s, p, j) / 2] == mem[Pos(s, p, j) / 2]
    {
      FusedNibble(buf, mem, s, gs, src, rs, cs, tr, 0, hi, p, j);
    }
  }

  /** What a trace leaves for a position: the widened weight of its cell, which has four significant bits, or
      nothing. */
  lemma WrittenWeight(s: Shape, gs: int, src: seq<bv8>, rs: int, cs: int, tr: seq<Write<Byte>>, lo: int, hi: int,
                      p: int, j: int) returns (w: Int8)
    requires Plan(s, gs) && HoldsNibbles(|src|, s.k, s.n, rs, cs) && 0 <= s.k * s.n && s.Padded(p, j)
    requires WidenedMatrix(src, s.k, s.n, rs, cs).Holds(s.k, s.n)
    requires PackedCols(tr, s, WidenedMatrix(src, s.k, s.n, rs, cs), lo, hi)
    ensures -8 <= w < 8 && w == if s.Live(p, j) then S4At(src, Addr(p, j, rs, cs)) else 0
    ensures 0 <= Pos(s, p, j) < s.Size()
    ensures Last(tr, Pos(s, p, j)) == if Owns(s, lo, hi, j) then Some(ToByte(w)) else None
  {
    hide S4At, Pos, Addr, WidenedMatrix, RoundUp, Owns;
    var B := WidenedMatrix(src, s.k, s.n, rs, cs);
    w := if s.Live(p, j) then S4At(src, Addr(p, j, rs, cs)) else 0;
    if s.Live(p, j) { WidenedAt(src, s.k, s.n, rs, cs, p, j); }
    CellOfPos(s, p, j);
    assert Last(tr, Pos(s, p, j)) == if Owns(s, lo, hi, j) then Some(B.At(s, p, j)) else None;
  }

  lemma FusedNibble(buf: seq<Byte>, mem: seq<Byte>, s: Shape, gs: int, src: seq<bv8>, rs: int, cs: int,
                    tr: seq<Write<Byte>>, lo: int, hi: int, p: int, j: int)
    requires Plan(s, gs) && HoldsNibbles(|src|, s.k, s.n, rs, cs) && 0 <= s.k * s.n && s.Padded(p, j)
    requires WidenedMatrix(src, s.k, s.n, rs, cs).Holds(s.k, s.n)
    requires PackedCols(tr, s, WidenedMatrix(src, s.k, s.n, rs, cs), lo, hi)
    requires s.Size() % 2 == 0 && s.Size() / 2 <= |buf| == |mem|
    requires forall i :: 0 <= i < s.Size() / 2 ==> HalvedAt(buf[i], mem[i], tr, i)
    ensures 0 <= Pos(s, p, j) < s.Size()
    ensures Owns(s, lo, hi, j) ==>
              Nibble(buf, Pos(s, p, j)) == if s.Live(p, j) then S4At(src, Addr(p, j, rs, cs)) else 0
    ensures !Owns(s, lo, hi, j) ==> buf[Pos(s, p, j) / 2] == mem[Pos(s, p, j) / 2]
    ensures Last(tr, 2 * (Pos(s, p, j) / 2)).Some? <==> Owns(s, lo, hi, j)
  {
    hide S4At, Pos, Addr, Compress, PackedCols, WidenedMatrix, RoundUp, Owns;
    var w := WrittenWeight(s, gs, src, rs, cs, tr, lo, hi, p, j);
    var x := Pos(s, p, j);
    var i := x / 2;
    assert HalvedAt(buf[i], mem[i], tr, i);
    if Owns(s, lo, hi, j) { CompressKeeps(Last(tr, 2 * i).value, Last(tr, 2 * i + 1).value, w); }
  }

  /** A completed four-bit reorder is determined: from any two memories, the fused and the portable form and any teams
      leave the same weights and sums. */
  lemma SameCompactBytes(x: seq<Byte>, was: seq<Byte>, y: seq<Byte>, was': seq<Byte>, s: Shape, gs: int, src: seq<bv8>,
                         rs: int, cs: int)
    requires Plan(s, gs) && HoldsNibbles(|src|, s.k, s.n, rs, cs)
    requires CompactReordered(x, was, s, gs, src, rs, cs) && CompactReordered(y, was', s, gs, src, rs, cs)
    ensures 0 <= CompactBytes(s, gs) <= |x| && CompactBytes(s, gs) <= |y|
    ensures x[..CompactBytes(s, gs)] == y[..CompactBytes(s, gs)]
  {
    hide S4At, Pos, Cell, Addr, RoundUp, SumsTo, WordByte, WidenedMatrix, NumGroups, Owns;
    WideFacts(s, gs);
    var half, size := s.Size() / 2, CompactBytes(s, gs);
    forall i | 0 <= i < size ensures x[i] == y[i] {
      if i < half {
        SameNibble(x, was, y, was', s, gs, src, rs, cs, 2 * i);
        SameNibble(x, was, y, was', s, gs, src, rs, cs, 2 * i + 1);
      } else {
        assert x[half..][i - half] == y[half..][i - half];
      }
    }
  }

  lemma SameNibble(x: seq<Byte>, was: seq<Byte>, y: seq<Byte>, was': seq<Byte>, s: Shape, gs: int, src: seq<bv8>,
                   rs: int, cs: int, z: int)
    requires Plan(s, gs) && HoldsNibbles(|src|, s.k, s.n, rs, cs) && 0 <= z < s.Size()
    requires CompactReordered(x, was, s, gs, src, rs, cs) && CompactReordered(y, was', s, gs, src, rs, cs)
    ensures Nibble(x, z) == Nibble(y, z)
  {
    hide S4At, Pos, Cell, Addr, RoundUp, Tabled, SumsTo, Nibble, WidenedMatrix;
    PosOfCell(s, z);
    var (p, j) := Cell(s, z);
    assert Owns(s, 0, s.n, j);
    assert Pos(s, p, j) == z;
  }
}
