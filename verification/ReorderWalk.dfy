/** The walk over panels one thread makes, in both directions. */
module ReorderWalk {
  import opened Arith
  import opened PanelLayout
  import opened BlockedLayout
  import opened Traces
  import opened ThreadRange
  import opened PanelPack

  /** A k x n matrix as it lies in the caller's memory, and the value padding is filled with. */
  datatype Matrix<T> = Matrix(mem: seq<T>, rs: int, cs: int, zero: T) {
    predicate Holds(k: int, n: int) {
      forall p, j :: 0 <= p < k && 0 <= j < n ==> 0 <= Addr(p, j, rs, cs) < |mem|
    }

    /** What the reordered buffer holds for a cell. */
    function At(s: Shape, p: int, j: int): T
      requires Holds(s.k, s.n)
    {
      if s.Live(p, j) then mem[Addr(p, j, rs, cs)] else zero
    }
  }

  /** `dlp_gemm_get_B_panel_reordered_start_offset_width`: panel start, columns before jc in it, and the
      width clipped to its end. */
  function PanelClip(jc: int, NC: int, width: int): (int, int, int)
    requires NC > 0
  {
    var start := Floor(jc, NC);
    (start, jc - start, if jc + width > start + NC then NC - (jc - start) else width)
  }

  /** What the loop hands to the packer is a legal block, and the next panel starts where it stops. */
  lemma ClipIsBlock(s: Shape, lo: int, hi: int, jc: int, pc: int)
    requires s.Valid() && Slice(lo, hi, s.n, s.blk.NR) && lo <= jc < hi
    requires jc == lo || jc % s.blk.NC == 0
    requires 0 <= pc < s.k && pc % s.blk.KC == 0
    ensures var (start, rem, nc0) := PanelClip(jc, s.blk.NC, Min(hi - jc, s.blk.NC));
      && ThreadBlock(s, jc, nc0, pc)
      && jc + nc0 == Min(start + s.blk.NC, hi) && jc < start + s.blk.NC && (start + s.blk.NC) % s.blk.NC == 0
  {
    hide Floor;
    var NC, NR := s.blk.NC, s.blk.NR;
    FloorFacts(jc, NC);
    var start := Floor(jc, NC);
    MulMod(1, NC);
    MultAdd(start, NC, NC);
    MultTrans(start + NC, NC, NR);
    if jc != lo { MultTrans(jc, NC, NR); }
    MultAdd(start + NC, jc, NR);
    if hi % NR == 0 { MultAdd(hi, jc, NR); }
  }

  /** A column a thread with slice [lo, hi) writes: its own, and the padding behind the last one. */
  predicate Owns(s: Shape, lo: int, hi: int, j: int) {
    lo <= j < hi || (lo < hi && hi == s.n && s.n <= j < s.NPad())
  }

  /** The trace writes exactly the cells of the columns it owns, each finally with its own value. */
  ghost predicate PackedCols<T>(tr: seq<Write<T>>, s: Shape, B: Matrix<T>, lo: int, hi: int)
    requires s.Valid() && B.Holds(s.k, s.n)
  {
    && InBounds(tr, s.Size())
    && forall p, j {:trigger Pos(s, p, j)} :: s.Padded(p, j) ==>
        Last(tr, Pos(s, p, j)) == if Owns(s, lo, hi, j) then Some(B.At(s, p, j)) else None
  }

  /** ... and, of the block of nc0 columns from jc on, the rows before pc. */
  ghost predicate PackedPart<T>(tr: seq<Write<T>>, s: Shape, B: Matrix<T>, lo: int, jc: int, nc0: int, pc: int)
    requires s.Valid() && B.Holds(s.k, s.n)
  {
    && InBounds(tr, s.Size())
    && forall p, j {:trigger Pos(s, p, j)} :: s.Padded(p, j) ==>
        Last(tr, Pos(s, p, j))
        == if lo <= j < jc || (jc <= j < jc + PaddedCols(nc0, s.blk) && p < pc)
           then Some(B.At(s, p, j)) else None
  }

  function BlockJob<T>(s: Shape, B: Matrix<T>, jc: int, nc0: int, pc: int): Job<T> {
    Job(B.mem, B.rs * pc + B.cs * jc, B.zero, nc0, Min(s.k - pc, s.blk.KC), s.blk, B.rs, B.cs)
  }

  lemma AddrShift(p: int, j: int, p0: int, j0: int, rs: int, cs: int)
    ensures rs * p0 + cs * j0 + Addr(p - p0, j - j0, rs, cs) == Addr(p, j, rs, cs)
  {
    Distribute(p - p0, p0, rs);
    Distribute(j - j0, j0, cs);
  }

  lemma BlockJobValid<T>(s: Shape, B: Matrix<T>, jc: int, nc0: int, pc: int)
    requires B.Holds(s.k, s.n) && ThreadBlock(s, jc, nc0, pc)
    ensures BlockJob(s, B, jc, nc0, pc).Valid() && BlockJob(s, B, jc, nc0, pc).H() == BlockRows(s, pc)
  {
    hide Floor, RoundUp, Addr;
    RowsOfBlock(s, pc);
    var job := BlockJob(s, B, jc, nc0, pc);
    forall kr, c | 0 <= kr < job.kc0 && 0 <= c < nc0
      ensures 0 <= job.base + Addr(kr, c, B.rs, B.cs) < |B.mem|
    {
      AddrShift(pc + kr, jc + c, pc, jc, B.rs, B.cs);
    }
  }

  /** A cell of a block is live in the block exactly when it is live in the matrix, with the same value. */
  lemma BlockValue<T>(s: Shape, B: Matrix<T>, jc: int, nc0: int, pc: int, kr: int, c: int)
    requires B.Holds(s.k, s.n) && ThreadBlock(s, jc, nc0, pc)
    requires 0 <= kr < BlockRows(s, pc) && 0 <= c < PaddedCols(nc0, s.blk)
    ensures BlockJob(s, B, jc, nc0, pc).Valid()
    ensures BlockJob(s, B, jc, nc0, pc).Value(kr, c) == B.At(s, pc + kr, jc + c)
  {
    hide Floor, RoundUp, Addr;
    BlockJobValid(s, B, jc, nc0, pc);
    RowsOfBlock(s, pc);
    AddrShift(pc + kr, jc + c, pc, jc, B.rs, B.cs);
    if nc0 % s.blk.NR == 0 {
      MultTrans(nc0, s.blk.NR, s.blk.minNR);
      RoundUpUnique(nc0, s.blk.minNR, nc0);
    }
  }

  /** One packed block extends the finished rows of its columns by a K block. */
  lemma BlockDone<T>(tr: seq<Write<T>>, part: seq<Write<T>>, s: Shape, B: Matrix<T>,
                     lo: int, jc: int, nc0: int, pc: int)
    requires B.Holds(s.k, s.n) && ThreadBlock(s, jc, nc0, pc) && lo <= jc
    requires PackedPart(tr, s, B, lo, jc, nc0, pc)
    requires BlockJob(s, B, jc, nc0, pc).Valid()
    requires Packed(part, BlockOffset(s, jc, pc), BlockJob(s, B, jc, nc0, pc))
    ensures PackedPart(tr + part, s, B, lo, jc, nc0, pc + s.blk.KC)
  {
    hide Floor, RoundUp, Pos, PanelPos, BlockOffset;
    var off, job := BlockOffset(s, jc, pc), BlockJob(s, B, jc, nc0, pc);
    RowsOfBlock(s, pc);
    BlockJobValid(s, B, jc, nc0, pc);
    BlockInBounds(s, jc, nc0, pc);
    forall i | 0 <= i < |part| ensures 0 <= part[i].addr < s.Size() {
      LastNone(part, part[i].addr);
    }
    forall p, j | s.Padded(p, j)
      ensures Last(tr + part, Pos(s, p, j))
              == if lo <= j < jc || (jc <= j < jc + PaddedCols(nc0, s.blk) && p < pc + s.blk.KC)
                 then Some(B.At(s, p, j)) else None
    {
      LastConcat(tr, part, Pos(s, p, j));
      BlockMembership(s, jc, nc0, pc, p, j);
      if pc <= p < pc + BlockRows(s, pc) && jc <= j < jc + PaddedCols(nc0, s.blk) {
        MidPanelStart(s, jc, nc0, pc, p - pc, j - jc);
        BlockValue(s, B, jc, nc0, pc, p - pc, j - jc);
        assert Last(part, off + job.Pos(p - pc, j - jc)) == Some(job.Value(p - pc, j - jc));
      }
    }
  }

  /** Consecutive non-empty ranges that cover [lo, hi). */
  predicate Tiles(ranges: seq<(int, int)>, lo: int, hi: int) {
    if ranges == [] then lo == hi
    else
      var (a, b) := ranges[|ranges| - 1];
      a < b && b == hi && Tiles(ranges[..|ranges| - 1], lo, a)
  }

  /** The JC and PC loops of one thread, packing the columns [lo, hi). Although jc is moved back to the start
      of its panel before NC is added, the clipped ranges tile the slice. */
  method ReorderThread<T>(buf: array<T>, s: Shape, B: Matrix<T>, lo: int, hi: int)
    returns (ghost tr: seq<Write<T>>, ghost ranges: seq<(int, int)>)
    requires s.Valid() && B.Holds(s.k, s.n) && Slice(lo, hi, s.n, s.blk.NR) && s.Size() <= buf.Length
    modifies buf
    ensures InBounds(tr, buf.Length) && buf[..] == Apply(old(buf[..]), tr)
    ensures PackedCols(tr, s, B, lo, hi)
    ensures Tiles(ranges, lo, hi)
  {
    hide Floor, RoundUp, PackedCols, PackedPart, ThreadBlock, BlockRows, PanelWidth;
    var blk := s.blk;
    tr, ranges := [], [];
    NothingPacked(s, B, lo);
    var jc := lo;
    while jc < hi
      invariant lo <= jc && (jc == lo || jc % blk.NC == 0)
      invariant InBounds(tr, buf.Length) && buf[..] == Apply(old(buf[..]), tr)
      invariant PackedCols(tr, s, B, lo, Min(jc, hi)) && Tiles(ranges, lo, Min(jc, hi))
      decreases hi - jc
    {
      var (start, rem, nc0) := PanelClip(jc, blk.NC, Min(hi - jc, blk.NC));
      ClipIsBlock(s, lo, hi, jc, 0);
      tr := ReorderColumns(buf, s, B, lo, jc, nc0, tr, old(buf[..]));
      ranges := ranges + [(jc, jc + nc0)];
      assert ranges[..|ranges| - 1] + [(jc, jc + nc0)] == ranges;
      ColumnsDone(tr, s, B, lo, jc, nc0);
      jc := start;
      jc := jc + blk.NC;
    }
  }

  /** The PC loop over the nc0 columns that start at jc. */
  method ReorderColumns<T>(buf: array<T>, s: Shape, B: Matrix<T>, ghost lo: int, jc: int, nc0: int,
                           ghost before: seq<Write<T>>, ghost mem: seq<T>)
    returns (ghost tr: seq<Write<T>>)
    requires s.Valid() && B.Holds(s.k, s.n) && s.Size() <= buf.Length && |mem| == buf.Length
    requires ThreadBlock(s, jc, nc0, 0) && 0 <= lo <= jc
    requires InBounds(before, buf.Length) && buf[..] == Apply(mem, before)
    requires PackedCols(before, s, B, lo, jc)
    modifies buf
    ensures InBounds(tr, buf.Length) && buf[..] == Apply(mem, tr)
    ensures PackedPart(tr, s, B, lo, jc, nc0, s.KPad())
  {
    hide Floor, RoundUp, PackedCols, PackedPart, Packed, BlockRows, PanelWidth, Pos, PanelPos;
    var blk := s.blk;
    var start := Floor(jc, blk.NC);
    var width := PanelWidth(jc, s.n, blk.NC, blk.minNR);
    tr := before;
    ColumnsStart(tr, s, B, lo, jc, nc0);
    var pc := 0;
    while pc < s.k
      invariant 0 <= pc && pc % blk.KC == 0
      invariant InBounds(tr, buf.Length) && buf[..] == Apply(mem, tr)
      invariant PackedPart(tr, s, B, lo, jc, nc0, pc)
      decreases s.k - pc
    {
      BlockJobValid(s, B, jc, nc0, pc);
      BlockInBounds(s, jc, nc0, pc);
      var job := BlockJob(s, B, jc, nc0, pc);
      var off := start * s.KPad() + width * pc + (jc - start) * job.H();
      ghost var here := buf[..];
      ghost var part := PackPanel(buf, off, job);
      BlockDone(tr, part, s, B, lo, jc, nc0, pc);
      ApplyConcat(mem, tr, part);
      tr := tr + part;
      MulMod(1, blk.KC);
      MultAdd(pc, blk.KC, blk.KC);
      pc := pc + blk.KC;
    }
    AllRows(tr, s, B, lo, jc, nc0, pc);
  }

  lemma NothingPacked<T>(s: Shape, B: Matrix<T>, lo: int)
    requires s.Valid() && B.Holds(s.k, s.n)
    ensures PackedCols([], s, B, lo, lo)
  {
  }

  lemma ColumnsStart<T>(tr: seq<Write<T>>, s: Shape, B: Matrix<T>, lo: int, jc: int, nc0: int)
    requires s.Valid() && B.Holds(s.k, s.n) && lo <= jc < s.n && PackedCols(tr, s, B, lo, jc)
    ensures PackedPart(tr, s, B, lo, jc, nc0, 0)
  {
    hide Floor, RoundUp, Pos;
  }

  lemma AllRows<T>(tr: seq<Write<T>>, s: Shape, B: Matrix<T>, lo: int, jc: int, nc0: int, pc: int)
    requires s.Valid() && B.Holds(s.k, s.n) && s.k <= pc && pc % s.blk.KC == 0
    requires PackedPart(tr, s, B, lo, jc, nc0, pc)
    ensures PackedPart(tr, s, B, lo, jc, nc0, s.KPad())
  {
    hide Floor, RoundUp, Pos;
    MultTrans(pc, s.blk.KC, s.blk.kf);
    RoundUpLeast(s.k, s.blk.kf, pc);
  }

  lemma ColumnsDone<T>(tr: seq<Write<T>>, s: Shape, B: Matrix<T>, lo: int, jc: int, nc0: int)
    requires B.Holds(s.k, s.n) && ThreadBlock(s, jc, nc0, 0) && 0 <= lo <= jc
    requires PackedPart(tr, s, B, lo, jc, nc0, s.KPad())
    ensures PackedCols(tr, s, B, lo, jc + nc0)
  {
    hide Floor, RoundUp, Pos;
    PaddingAtEnd(s, jc, nc0);
  }

  /** The padded columns of a block: none unless it ends the matrix, and then up to the padded width. */
  lemma PaddingAtEnd(s: Shape, jc: int, nc0: int)
    requires ThreadBlock(s, jc, nc0, 0)
    ensures if jc + nc0 == s.n then jc + PaddedCols(nc0, s.blk) == s.NPad() else PaddedCols(nc0, s.blk) == nc0
  {
    hide Floor, RoundUp;
    MultTrans(jc, s.blk.NR, s.blk.minNR);
    RoundUpShift(nc0, s.blk.minNR, jc);
    if jc + nc0 != s.n {
      MultTrans(nc0, s.blk.NR, s.blk.minNR);
      RoundUpUnique(nc0, s.blk.minNR, nc0);
    }
  }
}
