/** The walk of the grouped int8 reorder: strips of a panel, groups of a strip, and the sums of each. */
module GroupedWalk {
  import opened Arith
  import opened Traces
  import opened PanelLayout
  import opened BlockedLayout
  import opened PanelPack
  import opened ReorderWalk
  import opened Words
  import opened GroupedSums
  import opened GroupedTraces
  import opened GroupedPack

  /** A strip handed to the packing kernel: an NR strip, a fringe of whole slots, or a tail in one slot. */
  predicate Strip(nc0: int, blk: Blocking, col: int, cols: int, slot: int)
    requires blk.Legal()
  {
    && 0 <= col && 0 < cols <= slot <= blk.NR && col + cols <= nc0 && slot % blk.minNR == 0
    && (cols == slot || (slot == blk.minNR && col + cols == nc0))
    && ChunkStart(nc0, blk, col) == col && ChunkSlot(nc0, blk, col) == slot
    && col + slot <= PaddedCols(nc0, blk) && (col + cols == nc0 ==> col + slot == PaddedCols(nc0, blk))
  }

  /** The strips the loop cuts are chunks of the panel. */
  lemma FullStrip(nc0: int, blk: Blocking, jr: int)
    requires blk.Legal() && 0 <= jr && jr % blk.NR == 0 && jr + blk.NR <= nc0
    ensures Strip(nc0, blk, jr, blk.NR, blk.NR)
  {
    FloorUnique(jr, blk.NR, jr);
    ChunkFacts(nc0, blk, jr) by { RoundUpFacts(nc0, blk.minNR); }
    RoundUpFacts(nc0, blk.minNR);
    if jr + blk.NR == nc0 {
      MultTrans(jr, blk.NR, blk.minNR);
      MultAdd(jr, blk.NR, blk.minNR);
      RoundUpUnique(nc0, blk.minNR, nc0);
    }
  }

  lemma FringeStrips(nc0: int, blk: Blocking, jr: int)
    requires blk.Legal() && 0 <= jr < nc0 < jr + blk.NR && jr % blk.NR == 0
    ensures var whole := ((nc0 - jr) / blk.minNR) * blk.minNR;
      && 0 <= whole <= nc0 - jr < whole + blk.minNR
      && (whole > 0 ==> Strip(nc0, blk, jr, whole, whole))
      && (whole < nc0 - jr ==> Strip(nc0, blk, jr + whole, nc0 - jr - whole, blk.minNR))
  {
    var m := blk.minNR;
    var whole := Floor(nc0 - jr, m);
    FloorFacts(nc0 - jr, m);
    FloorUnique(jr, blk.NR, jr);
    FloorUnique(jr + whole, blk.NR, jr);
    RoundUpFacts(nc0, m);
    MultTrans(jr, blk.NR, m);
    MultAdd(jr, whole, m);
    if whole == nc0 - jr {
      RoundUpUnique(nc0, m, nc0);
    } else {
      MulMod(1, m);
      MultAdd(jr + whole, m, m);
      RoundUpUnique(nc0, m, jr + whole + m);
      MultLess(whole, blk.NR, m);
    }
  }

  /** A panel that is one strip has one chunk. */
  lemma OneStrip(nc0: int, blk: Blocking, col: int, cols: int, slot: int, c: int)
    requires blk.Legal() && Strip(nc0, blk, col, cols, slot) && 0 <= c < slot
    ensures PaddedCols(cols, blk) == slot && ChunkStart(cols, blk, c) == 0 && ChunkSlot(cols, blk, c) == slot
  {
    var m := blk.minNR;
    if cols == slot {
      RoundUpUnique(cols, m, cols);
    } else {
      RoundUpUnique(cols, m, m) by { MulMod(1, m); }
    }
    if slot == blk.NR && c < blk.NR && cols == slot {
      FloorUnique(c, blk.NR, 0);
    } else {
      FloorUnique(c, blk.NR, 0);
      FloorFacts(cols, m);
      if cols == slot { FloorUnique(cols, m, cols); } else { FloorUnique(cols, m, 0); }
    }
  }

  /** The first `rows` rows of a strip that starts at column col, with their padding, are laid out from `base` on. */
  ghost predicate StripPart(tr: seq<Write<Byte>>, base: int, job: Job<Byte>, col: int, slot: int, rows: int)
    requires job.Valid()
  {
    var top := RoundUp(rows, job.blk.kf);
    && (forall x :: Last(tr, x).Some? <==> base <= x < base + slot * top)
    && forall kr, c {:trigger ElemOffset(kr, c, slot, job.blk.kf)} :: 0 <= kr < top && 0 <= c < slot ==>
         Last(tr, base + ElemOffset(kr, c, slot, job.blk.kf)) == Some(job.Value(kr, col + c))
  }

  lemma StripStart(base: int, job: Job<Byte>, col: int, slot: int)
    requires job.Valid()
    ensures StripPart([], base, job, col, slot, 0)
  {
    RoundUpUnique(0, job.blk.kf, 0);
  }

  /** Rows in whole groups of kf further down sit slot elements per row further on. */
  lemma ElemShift(rows: int, kr: int, c: int, slot: int, kf: int)
    requires kf > 0 && rows % kf == 0
    ensures ElemOffset(rows + kr, c, slot, kf) == rows * slot + ElemOffset(kr, c, slot, kf)
  {
    DivModUnique(rows + kr, kf, rows / kf + kr / kf, kr % kf) by { Distribute(rows / kf, kr / kf, kf); }
    Distribute(rows / kf, kr / kf, kf * slot);
    MulAssoc(rows / kf, kf, slot);
  }

  /** What a kernel call for rows [rows, rows + h) of a strip lays out. */
  predicate SubRows(job: Job<Byte>, rows: int, h: int) {
    && job.blk.kf > 0 && 0 <= rows && 0 < h && rows + h <= job.kc0 && rows % job.blk.kf == 0
    && (rows + h == job.kc0 || h % job.blk.kf == 0)
  }

  /** Within a kernel call, cells lie as in the strip, and hold what the block holds there. */
  lemma SubPos(s: Shape, B: Matrix<Byte>, nc0: int, r: int, h: int, j0: int, col: int, cols: int, slot: int, kr: int,
               c: int)
    requires s.blk.Legal() && Strip(nc0, s.blk, col, cols, slot) && 0 <= c < slot
    ensures SubJob(B, s.blk, r, h, j0, cols).Pos(kr, c) == ElemOffset(kr, c, slot, s.blk.kf)
  {
    hide RoundUp, ChunkStart, ChunkSlot, ElemOffset, Addr;
    OneStrip(nc0, s.blk, col, cols, slot, c);
  }

  lemma RowsLive(job: Job<Byte>, rows: int, h: int, kr: int)
    requires SubRows(job, rows, h) && 0 <= kr < RoundUp(h, job.blk.kf)
    ensures 0 <= rows && (kr < h <==> rows + kr < job.kc0)
  {
    hide RoundUp;
    if h % job.blk.kf == 0 { RoundUpUnique(h, job.blk.kf, h); }
  }

  lemma ColumnsLive(nc0: int, blk: Blocking, col: int, cols: int, slot: int, c: int)
    requires blk.Legal() && Strip(nc0, blk, col, cols, slot) && 0 <= c < slot
    ensures 0 <= col && (c < cols <==> col + c < nc0)
  {
  }

  lemma SubValue(s: Shape, B: Matrix<Byte>, jc: int, nc0: int, pc: int, col: int, cols: int, slot: int, rows: int,
                 h: int, kr: int, c: int)
    requires B.Holds(s.k, s.n) && ThreadBlock(s, jc, nc0, pc) && Strip(nc0, s.blk, col, cols, slot)
    requires BlockJob(s, B, jc, nc0, pc).Valid() && SubRows(BlockJob(s, B, jc, nc0, pc), rows, h)
    requires SubJob(B, s.blk, pc + rows, h, jc + col, cols).Valid()
    requires 0 <= kr < RoundUp(h, s.blk.kf) && 0 <= c < slot
    ensures SubJob(B, s.blk, pc + rows, h, jc + col, cols).Value(kr, c) ==
            BlockJob(s, B, jc, nc0, pc).Value(rows + kr, col + c)
  {
    hide Addr, ThreadBlock, Strip, SubRows, Job.Valid, Matrix.Holds, RoundUp;
    StripShape(s, B, jc, nc0, pc, col, cols, slot, rows, h);
    RowsLive(BlockJob(s, B, jc, nc0, pc), rows, h, kr);
    ColumnsLive(nc0, s.blk, col, cols, slot, c);
    AddrShift(pc + rows + kr, jc + col + c, pc + rows, jc + col, B.rs, B.cs);
    AddrShift(pc + rows + kr, jc + col + c, pc, jc, B.rs, B.cs);
  }

  lemma SubJobValid(s: Shape, B: Matrix<Byte>, jc: int, nc0: int, pc: int, col: int, cols: int, slot: int, rows: int,
                    h: int)
    requires B.Holds(s.k, s.n) && ThreadBlock(s, jc, nc0, pc) && Strip(nc0, s.blk, col, cols, slot)
    requires SubRows(BlockJob(s, B, jc, nc0, pc), rows, h)
    ensures var sub := SubJob(B, s.blk, pc + rows, h, jc + col, cols);
      && sub.Valid() && sub.H() == RoundUp(h, s.blk.kf) && sub.Size() == slot * RoundUp(h, s.blk.kf)
    ensures RoundUp(rows, s.blk.kf) == rows && RoundUp(rows + h, s.blk.kf) == rows + RoundUp(h, s.blk.kf)
    ensures RoundUp(rows + h, s.blk.kf) <= BlockJob(s, B, jc, nc0, pc).H()
  {
    hide ChunkStart, ChunkSlot, RoundUp, Addr, PaddedCols;
    var kf, job := s.blk.kf, BlockJob(s, B, jc, nc0, pc);
    RoundUpFacts(h, kf);
    RoundUpUnique(rows, kf, rows);
    RoundUpShift(h, kf, rows);
    RoundUpFacts(job.kc0, kf);
    if rows + h < job.kc0 { RoundUpUnique(h, kf, h); }
    OneStrip(nc0, s.blk, col, cols, slot, 0);
    forall kr, c | 0 <= kr < h && 0 <= c < cols
      ensures 0 <= B.rs * (pc + rows) + B.cs * (jc + col) + Addr(kr, c, B.rs, B.cs) < |B.mem|
    {
      AddrShift(pc + rows + kr, jc + col + c, pc + rows, jc + col, B.rs, B.cs);
    }
  }

  /** One more kernel call extends the finished rows of the strip. */
  lemma StripStep(tr: seq<Write<Byte>>, part: seq<Write<Byte>>, base: int, s: Shape, B: Matrix<Byte>, jc: int, nc0: int,
                  pc: int, col: int, cols: int, slot: int, rows: int, h: int)
    requires B.Holds(s.k, s.n) && ThreadBlock(s, jc, nc0, pc) && Strip(nc0, s.blk, col, cols, slot)
    requires BlockJob(s, B, jc, nc0, pc).Valid() && SubRows(BlockJob(s, B, jc, nc0, pc), rows, h)
    requires StripPart(tr, base, BlockJob(s, B, jc, nc0, pc), col, slot, rows)
    requires SubJob(B, s.blk, pc + rows, h, jc + col, cols).Valid()
    requires Packed(part, base + rows * slot, SubJob(B, s.blk, pc + rows, h, jc + col, cols))
    ensures StripPart(tr + part, base, BlockJob(s, B, jc, nc0, pc), col, slot, rows + h)
  {
    hide RoundUp, ElemOffset, Packed, ThreadBlock, Strip, SubRows, Job.Value, Job.Valid, Matrix.Holds, SubJob;
    var job, kf := BlockJob(s, B, jc, nc0, pc), s.blk.kf;
    var top, more := RoundUp(rows + h, kf), RoundUp(h, kf);
    StripShape(s, B, jc, nc0, pc, col, cols, slot, rows, h);
    SubJobValid(s, B, jc, nc0, pc, col, cols, slot, rows, h);
    Distribute(rows, more, slot);
    RoundUpFacts(h, kf);
    MulLe(0, rows, slot);
    MulLe(0, more, slot);
    forall x ensures Last(tr + part, x).Some? <==> base <= x < base + slot * top {
      LastConcat(tr, part, x);
      PackedRange(part, base + rows * slot, SubJob(B, s.blk, pc + rows, h, jc + col, cols), x);
    }
    forall kr, c | 0 <= kr < top && 0 <= c < slot
      ensures Last(tr + part, base + ElemOffset(kr, c, slot, kf)) == Some(job.Value(kr, col + c))
    {
      LastConcat(tr, part, base + ElemOffset(kr, c, slot, kf));
      if kr < rows {
        PackedRange(part, base + rows * slot, SubJob(B, s.blk, pc + rows, h, jc + col, cols),
                    base + ElemOffset(kr, c, slot, kf));
      } else {
        NewCell(part, base, s, B, jc, nc0, pc, col, cols, slot, rows, h, kr, c);
      }
    }
  }

  lemma PackedRange(part: seq<Write<Byte>>, off: int, job: Job<Byte>, x: int)
    requires job.Valid() && Packed(part, off, job)
    ensures Last(part, x).Some? <==> off <= x < off + job.Size()
  {
  }

  lemma NewCell(part: seq<Write<Byte>>, base: int, s: Shape, B: Matrix<Byte>, jc: int, nc0: int, pc: int, col: int,
                cols: int, slot: int, rows: int, h: int, kr: int, c: int)
    requires B.Holds(s.k, s.n) && ThreadBlock(s, jc, nc0, pc) && Strip(nc0, s.blk, col, cols, slot)
    requires BlockJob(s, B, jc, nc0, pc).Valid() && SubRows(BlockJob(s, B, jc, nc0, pc), rows, h)
    requires SubJob(B, s.blk, pc + rows, h, jc + col, cols).Valid()
    requires Packed(part, base + rows * slot, SubJob(B, s.blk, pc + rows, h, jc + col, cols))
    requires rows <= kr < rows + RoundUp(h, s.blk.kf) && 0 <= c < slot
    ensures Last(part, base + ElemOffset(kr, c, slot, s.blk.kf)) == Some(BlockJob(s, B, jc, nc0, pc).Value(kr, col + c))
  {
    hide RoundUp, ChunkStart, ChunkSlot, ElemOffset, Addr, PanelPos;
    var sub := SubJob(B, s.blk, pc + rows, h, jc + col, cols);
    SubJobValid(s, B, jc, nc0, pc, col, cols, slot, rows, h);
    SubPos(s, B, nc0, pc + rows, h, jc + col, col, cols, slot, kr - rows, c);
    SubValue(s, B, jc, nc0, pc, col, cols, slot, rows, h, kr - rows, c);
    ElemShift(rows, kr - rows, c, slot, s.blk.kf);
    OneStrip(nc0, s.blk, col, cols, slot, c);
    assert Last(part, base + rows * slot + sub.Pos(kr - rows, c)) == Some(sub.Value(kr - rows, c));
  }

  lemma StripShape(s: Shape, B: Matrix<Byte>, jc: int, nc0: int, pc: int, col: int, cols: int, slot: int, rows: int,
                   h: int)
    requires ThreadBlock(s, jc, nc0, pc) && Strip(nc0, s.blk, col, cols, slot)
    requires SubRows(BlockJob(s, B, jc, nc0, pc), rows, h)
    ensures s.blk.kf > 0 && 0 < slot && 0 <= rows && 0 < h && s.blk.Legal()
  {
  }

  /** Columns of a panel laid out once the strips before column col are: padding comes with the last. */
  function Reached(job: Job<Byte>, col: int): int {
    if col == job.nc0 then PaddedCols(job.nc0, job.blk) else col
  }

  ghost predicate PanelPart(tr: seq<Write<Byte>>, off: int, job: Job<Byte>, col: int)
    requires job.Valid()
  {
    && (forall x :: Last(tr, x).Some? <==> off <= x < off + Reached(job, col) * job.H())
    && forall kr, c {:trigger job.Pos(kr, c)} :: job.Padded(kr, c) && c < Reached(job, col) ==>
         Last(tr, off + job.Pos(kr, c)) == Some(job.Value(kr, c))
  }

  lemma PanelStart(off: int, job: Job<Byte>)
    requires job.Valid()
    ensures PanelPart([], off, job, 0)
  {
    hide PanelPos, RoundUp;
  }

  lemma PanelEnd(tr: seq<Write<Byte>>, off: int, job: Job<Byte>)
    requires job.Valid() && PanelPart(tr, off, job, job.nc0)
    ensures Packed(tr, off, job)
  {
    hide PanelPos, RoundUp;
  }

  /** A finished strip joins the panel. */
  lemma PanelStep(tr: seq<Write<Byte>>, part: seq<Write<Byte>>, off: int, job: Job<Byte>, col: int, cols: int,
                  slot: int)
    requires job.Valid() && PanelPart(tr, off, job, col) && Strip(job.nc0, job.blk, col, cols, slot)
    requires StripPart(part, off + col * job.H(), job, col, slot, job.kc0)
    ensures PanelPart(tr + part, off, job, col + cols)
  {
    hide PanelPos, RoundUp, ElemOffset, Job.Value, ChunkStart, ChunkSlot;
    var h, kf := job.H(), job.blk.kf;
    Distribute(col, slot, h);
    MulLe(0, col, h);
    MulLe(0, slot, h);
    assert Reached(job, col) == col && Reached(job, col + cols) == col + slot;
    forall x ensures Last(tr + part, x).Some? <==> off <= x < off + (col + slot) * h {
      LastConcat(tr, part, x);
    }
    forall kr, c | job.Padded(kr, c) && c < col + slot
      ensures Last(tr + part, off + job.Pos(kr, c)) == Some(job.Value(kr, c))
    {
      LastConcat(tr, part, off + job.Pos(kr, c));
      if c < col {
        assert Last(tr, off + job.Pos(kr, c)) == Some(job.Value(kr, c));
      } else {
        StripPos(job, col, cols, slot, kr, c - col);
        assert Last(part, off + col * h + ElemOffset(kr, c - col, slot, kf)) == Some(job.Value(kr, col + (c - col)));
      }
    }
  }

  lemma StripPos(job: Job<Byte>, col: int, cols: int, slot: int, kr: int, c: int)
    requires job.Valid() && Strip(job.nc0, job.blk, col, cols, slot) && 0 <= c < slot
    ensures job.Pos(kr, col + c) == col * job.H() + ElemOffset(kr, c, slot, job.blk.kf)
  {
    hide RoundUp, ElemOffset, ChunkStart, ChunkSlot;
    ChunkSame(job.nc0, job.blk, col, col + c);
  }

  function Max(a: int, b: int): int { if a < b then b else a }

  /** The groups a K block touches. */
  function FirstGroup(gs: int, pc: int): int
    requires gs > 0
  {
    pc / gs
  }

  function LastGroup(s: Shape, gs: int, pc: int): int
    requires gs > 0
  {
    (pc + Min(s.k - pc, s.blk.KC) - 1) / gs
  }

  /** Rows of group `group` that lie in the K block at pc, and the vector of sums they go to. */
  function GroupRows(s: Shape, gs: int, pc: int, group: int): (int, int, int)
    requires gs > 0 && s.blk.KC > 0
  {
    var kc0 := Min(s.k - pc, s.blk.KC);
    var kStart := Max(group * gs, pc);
    var kEnd := Min((group + 1) * gs - 1, pc + kc0 - 1);
    (kStart, kEnd - kStart + 1, (if gs == s.k then pc / s.blk.KC else 0) + group)
  }

  /** The groups of a K block cut it into consecutive runs of rows, each within one vector. */
  lemma GroupCut(s: Shape, gs: int, pc: int, group: int)
    requires Plan(s, gs) && 0 <= pc < s.k && pc % s.blk.KC == 0
    requires pc / gs <= group <= (pc + Min(s.k - pc, s.blk.KC) - 1) / gs
    ensures var kc0 := Min(s.k - pc, s.blk.KC); var (kStart, kg0, v) := GroupRows(s, gs, pc, group);
      && pc <= kStart && 0 < kg0 && kStart + kg0 <= pc + kc0 && (kStart - pc) % 4 == 0
      && (kStart + kg0 == pc + kc0 || kg0 % 4 == 0)
      && 0 <= v * VectorRows(s, gs) <= kStart && kStart + kg0 <= (v + 1) * VectorRows(s, gs) && 0 <= v < Vectors(s, gs)
      && (group == pc / gs ==> kStart == pc)
      && (if group == (pc + kc0 - 1) / gs then kStart + kg0 == pc + kc0
          else GroupRows(s, gs, pc, group + 1).0 == kStart + kg0)
  {
    var KC, kc0, last := s.blk.KC, Min(s.k - pc, s.blk.KC), (pc + Min(s.k - pc, s.blk.KC) - 1) / gs;
    DivBetween(pc, gs, group, group + 1);
    DivBetween(pc + kc0 - 1, gs, group, group + 1);
    Distribute(group, 1, gs);
    Distribute(group + 1, 1, gs);
    if gs == s.k {
      DivModUnique(pc, gs, 0, pc);
      DivModUnique(pc + kc0 - 1, gs, 0, pc + kc0 - 1);
      OneGroupRows(s, gs, pc);
    } else {
      ManyGroupRows(s, gs, pc, group);
    }
  }

  /** How the group loop advances. */
  lemma GroupAt(s: Shape, gs: int, pc: int, group: int)
    requires Plan(s, gs) && 0 <= pc < s.k && pc % s.blk.KC == 0
    ensures FirstGroup(gs, pc) <= LastGroup(s, gs, pc)
    ensures GroupRows(s, gs, pc, FirstGroup(gs, pc)).0 == pc
    ensures FirstGroup(gs, pc) <= group <= LastGroup(s, gs, pc) ==>
      var (kStart, kg0, v) := GroupRows(s, gs, pc, group);
      if group == LastGroup(s, gs, pc) then kStart + kg0 == pc + Min(s.k - pc, s.blk.KC)
      else GroupRows(s, gs, pc, group + 1).0 == kStart + kg0
  {
    hide GroupRows, NumGroups, VectorRows, Vectors;
    DivOrder(pc, pc + Min(s.k - pc, s.blk.KC) - 1, gs);
    GroupCut(s, gs, pc, FirstGroup(gs, pc));
    if FirstGroup(gs, pc) <= group <= LastGroup(s, gs, pc) { GroupCut(s, gs, pc, group); }
  }

  lemma OneGroupRows(s: Shape, gs: int, pc: int)
    requires Plan(s, gs) && gs == s.k && 0 <= pc < s.k && pc % s.blk.KC == 0
    ensures var v := pc / s.blk.KC;
      v * s.blk.KC == pc && (v + 1) * s.blk.KC == pc + s.blk.KC && 0 <= v < Vectors(s, gs)
    ensures s.blk.KC % 4 == 0
  {
    hide NumGroups;
    var KC := s.blk.KC;
    DivNonneg(pc, KC);
    Distribute(pc / KC, 1, KC);
    GroupExists(s.k, KC, pc / KC);
  }

  lemma ManyGroupRows(s: Shape, gs: int, pc: int, group: int)
    requires Plan(s, gs) && gs != s.k && 0 <= pc < s.k && pc % s.blk.KC == 0
    requires pc / gs <= group <= (pc + Min(s.k - pc, s.blk.KC) - 1) / gs
    ensures pc <= group * gs <= pc + Min(s.k - pc, s.blk.KC) - 1 && 0 <= group < Vectors(s, gs)
    ensures (group * gs - pc) % 4 == 0
    ensures group < (pc + Min(s.k - pc, s.blk.KC) - 1) / gs ==> (group + 1) * gs <= pc + Min(s.k - pc, s.blk.KC) - 1
    ensures group == (pc + Min(s.k - pc, s.blk.KC) - 1) / gs ==> pc + Min(s.k - pc, s.blk.KC) <= (group + 1) * gs
  {
    hide NumGroups;
    MultTrans(pc, s.blk.KC, gs);
    GroupSpan(pc, pc + Min(s.k - pc, s.blk.KC) - 1, gs, group);
    MultTrans(pc, gs, 4);
    MulMod(group, gs);
    MultTrans(group * gs, gs, 4);
    MultAdd(group * gs, pc, 4);
    DivNonneg(pc, gs);
    GroupExists(s.k, gs, group);
  }

  lemma GroupSpan(lo: int, top: int, gs: int, group: int)
    requires gs > 0 && 0 <= lo <= top && lo % gs == 0 && lo / gs <= group <= top / gs
    ensures lo <= group * gs <= top
    ensures group < top / gs ==> (group + 1) * gs <= top
    ensures group == top / gs ==> top < (group + 1) * gs
  {
    MulLe(lo / gs, group, gs);
    DivBetween(top, gs, group, group + 1);
    if group < top / gs { MulLe(group + 1, top / gs, gs); }
    MulLe(group, top / gs, gs);
    assert (top / gs) * gs + top % gs == top;
  }

  /** Where a kernel call for part of a strip writes stays within the weights. */
  lemma StripInBounds(s: Shape, B: Matrix<Byte>, jc: int, nc0: int, pc: int, col: int, cols: int, slot: int,
                      rows: int, h: int)
    requires B.Holds(s.k, s.n) && ThreadBlock(s, jc, nc0, pc) && Strip(nc0, s.blk, col, cols, slot)
    requires SubRows(BlockJob(s, B, jc, nc0, pc), rows, h)
    ensures var at := BlockOffset(s, jc, pc) + col * BlockRows(s, pc) + rows * slot;
      && SubJob(B, s.blk, pc + rows, h, jc + col, cols).Valid() && BlockJob(s, B, jc, nc0, pc).Valid()
      && 0 <= at && at + SubJob(B, s.blk, pc + rows, h, jc + col, cols).Size() <= s.Size()
  {
    hide RoundUp, BlockOffset, ChunkStart, ChunkSlot, Job.Valid, SubJob, Matrix.Holds;
    BlockJobValid(s, B, jc, nc0, pc);
    BlockInBounds(s, jc, nc0, pc);
    SubJobValid(s, B, jc, nc0, pc, col, cols, slot, rows, h);
    StripRegion(col, slot, PaddedCols(nc0, s.blk), BlockRows(s, pc), rows, RoundUp(h, s.blk.kf));
  }

  lemma StripRegion(col: int, slot: int, width: int, H: int, rows: int, more: int)
    requires 0 <= col && 0 < slot && col + slot <= width && 0 <= rows && 0 <= H && rows + more <= H
    ensures 0 <= col * H + rows * slot && col * H + rows * slot + slot * more <= width * H
  {
    MulLe(0, col, H);
    MulLe(0, rows, slot);
    Distribute(rows, more, slot);
    MulLe(rows + more, H, slot);
    Distribute(col, slot, H);
    MulLe(col + slot, width, H);
  }

  lemma SetTwice(lim: seq<int>, a: int, b: int, r: int, r': int)
    ensures SetLim(SetLim(lim, a, b, r), a, b, r') == SetLim(lim, a, b, r')
  {
  }

  lemma SetSame(lim: seq<int>, a: int, b: int, r: int)
    requires forall j :: a <= j < b && 0 <= j < |lim| ==> lim[j] == r
    ensures SetLim(lim, a, b, r) == lim
  {
  }

  lemma StripIn(nc0: int, blk: Blocking, col: int, cols: int, slot: int)
    requires blk.Legal() && Strip(nc0, blk, col, cols, slot)
    ensures 0 <= col && 0 < cols && col + cols <= nc0
  {
  }

  lemma SetAt(lim: seq<int>, a: int, b: int, r: int)
    ensures |SetLim(lim, a, b, r)| == |lim|
    ensures forall j :: a <= j < b && 0 <= j < |lim| ==> SetLim(lim, a, b, r)[j] == r
  {
  }

  lemma BlockShape(s: Shape, gs: int, jc: int, nc0: int, pc: int)
    requires Plan(s, gs) && ThreadBlock(s, jc, nc0, pc)
    ensures s.blk.Legal() && gs > 0 && s.blk.KC > 0 && 0 <= pc < s.k && pc % s.blk.KC == 0 && 0 <= jc && jc + nc0 <= s.n
  {
  }

  /** The table behind the panels. */
  function SumTable(s: Shape, gs: int): Table
    requires VectorRows(s, gs) > 0
  {
    Table(s.Size(), s.NPad(), Vectors(s, gs) * s.NPad())
  }

  /** The first slot of a call, in column terms. */
  lemma SlotStart(s: Shape, gs: int, v: int, j: int, cols: int)
    requires Plan(s, gs) && 0 <= v && 0 <= j && 0 < cols && j + cols <= s.n
    ensures 0 < s.NPad() && (v * s.NPad() + j) % s.NPad() == j && j + cols <= s.NPad()
  {
    hide RoundUp, NumGroups;
    TableSize(s, gs);
    DivModUnique(v * s.NPad() + j, s.NPad(), v, j);
  }

  /** The call for one group's rows of a strip that starts at address base. */
  method PackGroup(buf: array<Byte>, base: int, s: Shape, B: Matrix<Byte>, gs: int, jc: int, nc0: int, pc: int,
                   col: int, cols: int, slot: int, group: int, ghost mem: seq<Byte>, ghost before: seq<Write<Byte>>,
                   ghost part: seq<Write<Byte>>, ghost lim: seq<int>)
    returns (ghost more: seq<Write<Byte>>, ghost all: seq<Write<Byte>>)
    requires Plan(s, gs) && B.Holds(s.k, s.n) && ThreadBlock(s, jc, nc0, pc) && Strip(nc0, s.blk, col, cols, slot)
    requires FirstGroup(gs, pc) <= group <= LastGroup(s, gs, pc)
    requires base == BlockOffset(s, jc, pc) + col * BlockRows(s, pc)
    requires |lim| == s.n && forall j :: jc + col <= j < jc + col + cols ==> lim[j] == GroupRows(s, gs, pc, group).0
    requires InParts(buf[..], mem, s.Size(), before + part, SumEntries(s, B, gs, lim))
    requires BlockJob(s, B, jc, nc0, pc).Valid()
    requires StripPart(part, base, BlockJob(s, B, jc, nc0, pc), col, slot, GroupRows(s, gs, pc, group).0 - pc)
    modifies buf
    ensures var (kStart, kg0, v) := GroupRows(s, gs, pc, group);
      && StripPart(part + more, base, BlockJob(s, B, jc, nc0, pc), col, slot, kStart + kg0 - pc)
      && InParts(buf[..], mem, s.Size(), before + (part + more),
                 SumEntries(s, B, gs, SetLim(lim, jc + col, jc + col + cols, kStart + kg0)))
    ensures Did(all, buf[..], old(buf[..]), more, SumTable(s, gs), jc + col, jc + col + cols)
  {
    hide BlockOffset, BlockRows, RoundUp, InParts, StripPart, Packed, SumEntries, Job.Valid, SubJob, Added, NumGroups,
         ChunkStart, ChunkSlot, Matrix.Holds, Did;
    GroupCut(s, gs, pc, group);
    var kc0 := Min(s.k - pc, s.blk.KC);
    var kStart := Max(group * gs, pc);
    var kEnd := Min((group + 1) * gs - 1, pc + kc0 - 1);
    var kg0 := kEnd - kStart + 1;
    var v := (if gs == s.k then pc / s.blk.KC else 0) + group;
    StripInBounds(s, B, jc, nc0, pc, col, cols, slot, kStart - pc, kg0);
    SumStep(s, B, gs, lim, v, jc + col, cols, kStart, kg0);
    SlotStart(s, gs, v, jc + col, cols);
    more, all := PackKernel(buf, base + (kStart - pc) * slot, s.Size(), v * s.NPad() + jc + col, B, s.blk, kStart, kg0,
                            jc + col, cols, s.NPad(), mem, before + part, SumEntries(s, B, gs, lim));
    StripStep(part, more, base, s, B, jc, nc0, pc, col, cols, slot, kStart - pc, kg0);
    assert before + part + more == before + (part + more);
  }

  /** The group loop over one strip. */
  method PackStrip(buf: array<Byte>, base: int, s: Shape, B: Matrix<Byte>, gs: int, jc: int, nc0: int, pc: int,
                   col: int, cols: int, slot: int, ghost mem: seq<Byte>, ghost before: seq<Write<Byte>>,
                   ghost lim: seq<int>)
    returns (ghost part: seq<Write<Byte>>, ghost all: seq<Write<Byte>>)
    requires Plan(s, gs) && B.Holds(s.k, s.n) && ThreadBlock(s, jc, nc0, pc) && Strip(nc0, s.blk, col, cols, slot)
    requires base == BlockOffset(s, jc, pc) + col * BlockRows(s, pc)
    requires |lim| == s.n && forall j :: jc + col <= j < jc + col + cols ==> lim[j] == pc
    requires InParts(buf[..], mem, s.Size(), before, SumEntries(s, B, gs, lim))
    requires BlockJob(s, B, jc, nc0, pc).Valid()
    modifies buf
    ensures StripPart(part, base, BlockJob(s, B, jc, nc0, pc), col, slot, Min(s.k - pc, s.blk.KC))
    ensures InParts(buf[..], mem, s.Size(), before + part,
                    SumEntries(s, B, gs, SetLim(lim, jc + col, jc + col + cols, pc + Min(s.k - pc, s.blk.KC))))
    ensures Did(all, buf[..], old(buf[..]), part, SumTable(s, gs), jc + col, jc + col + cols)
  {
    hide BlockOffset, BlockRows, RoundUp, InParts, StripPart, SumEntries, Job.Valid, Matrix.Holds, GroupRows, BlockJob,
         NumGroups, Strip, FirstGroup, LastGroup, SetLim, ThreadBlock, Plan, Did;
    Widths(s, gs);
    BlockShape(s, gs, jc, nc0, pc);
    StripIn(nc0, s.blk, col, cols, slot);
    ghost var job, a, b := BlockJob(s, B, jc, nc0, pc), jc + col, jc + col + cols;
    part, all := [], [];
    DidNothing(buf[..], SumTable(s, gs), a, b);
    StripStart(base, job, col, slot);
    SetSame(lim, a, b, pc);
    assert before + part == before;
    var kc0 := Min(s.k - pc, s.blk.KC);
    var group, groupEnd := FirstGroup(gs, pc), LastGroup(s, gs, pc);
    ghost var r := pc;
    GroupAt(s, gs, pc, group);
    while group <= groupEnd
      invariant FirstGroup(gs, pc) <= group <= groupEnd + 1
      invariant r == if group <= groupEnd then GroupRows(s, gs, pc, group).0 else pc + kc0
      invariant StripPart(part, base, job, col, slot, r - pc)
      invariant InParts(buf[..], mem, s.Size(), before + part, SumEntries(s, B, gs, SetLim(lim, a, b, r)))
      invariant Did(all, buf[..], old(buf[..]), part, SumTable(s, gs), a, b)
    {
      GroupAt(s, gs, pc, group);
      ghost var kg0 := GroupRows(s, gs, pc, group).1;
      SetTwice(lim, a, b, r, r + kg0);
      SetAt(lim, a, b, r);
      ghost var here := buf[..];
      ghost var more, next := PackGroup(buf, base, s, B, gs, jc, nc0, pc, col, cols, slot, group, mem, before, part,
                                        SetLim(lim, a, b, r));
      DidMore(all, next, buf[..], here, old(buf[..]), part, more, SumTable(s, gs), a, a, b, b);
      part, all := part + more, all + next;
      r := r + kg0;
      group := group + 1;
    }
  }

  lemma Widths(s: Shape, gs: int)
    requires Plan(s, gs)
    ensures 0 < s.NPad()
  {
    hide RoundUp, NumGroups;
    TableSize(s, gs);
  }

  lemma DivOrder(a: int, b: int, d: int)
    requires d > 0 && a <= b
    ensures a / d <= b / d
  {
    if b / d < a / d {
      MulLe(b / d + 1, a / d, d);
      Distribute(b / d, 1, d);
    }
  }
}
