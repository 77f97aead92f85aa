/** The whole reordered buffer: KC x NC panels stored down k first, then across n. */
module BlockedLayout {
  import opened Arith
  import opened PanelLayout

  /** A k x n matrix and the blocking it is reordered under. */
  datatype Shape = Shape(k: int, n: int, blk: Blocking) {
    predicate Valid() { k > 0 && n > 0 && blk.Legal() }

    function KPad(): int { RoundUp(k, blk.kf) }

    function NPad(): int { RoundUp(n, blk.minNR) }

    /** Elements the size query allocates. */
    function Size(): int { NPad() * KPad() }

    /** A cell of the matrix, padding rows and columns included. */
    predicate Padded(p: int, j: int) { 0 <= p < KPad() && 0 <= j < NPad() }

    predicate Live(p: int, j: int) { 0 <= p < k && 0 <= j < n }
  }

  /** `dlp_gemm_get_Bpanel_width_for_kmd_traversal`. */
  function PanelWidth(jc: int, n: int, NC: int, NR: int): int
    requires NC > 0 && NR > 0
  {
    if n % NC != 0 && jc >= (n / NC) * NC then
      n - (n / NC) * NC + (if n % NR != 0 then NR - n % NR else 0)
    else NC
  }

  /** Live columns of the panel that starts at column jcl. */
  function PanelCols(s: Shape, jcl: int): int {
    Min(s.blk.NC, s.n - jcl)
  }

  /** Padded rows of the K block that starts at row pc. */
  function BlockRows(s: Shape, pc: int): int {
    RoundUp(Min(s.k - pc, s.blk.KC), s.blk.kf)
  }

  /** Where a single-threaded traversal stores cell (p, j). */
  function Pos(s: Shape, p: int, j: int): int
    requires s.Valid()
  {
    var jcl, pc := Floor(j, s.blk.NC), Floor(p, s.blk.KC);
    jcl * s.KPad() + PanelWidth(jcl, s.n, s.blk.NC, s.blk.minNR) * pc
    + PanelPos(PanelCols(s, jcl), BlockRows(s, pc), s.blk, p - pc, j - jcl)
  }

  /** First column of the panel, first row of the K block, and offset in that block of a position. */
  function Split(s: Shape, x: int): (int, int, int)
    requires s.Valid() && 0 <= x < s.Size()
  {
    assert s.KPad() > 0 by { RoundUpFacts(s.k, s.blk.kf); }
    var jcl := Floor(x / s.KPad(), s.blk.NC);
    var width := PanelWidth(jcl, s.n, s.blk.NC, s.blk.minNR);
    assert width > 0 by { DivBetween(x, s.KPad(), 0, s.NPad()); PanelFacts(s, x / s.KPad()); }
    var y := x - jcl * s.KPad();
    var pc := Floor(y / width, s.blk.KC);
    (jcl, pc, y - width * pc)
  }

  /** The cell stored at a position. */
  function Cell(s: Shape, x: int): (int, int)
    requires s.Valid() && 0 <= x < s.Size()
  {
    var (jcl, pc, z) := Split(s, x);
    assert PanelCols(s, jcl) > 0 && BlockRows(s, pc) > 0
           && 0 <= z < PaddedCols(PanelCols(s, jcl), s.blk) * BlockRows(s, pc) by { SplitFacts(s, x); }
    var (kr, c) := PanelCell(PanelCols(s, jcl), BlockRows(s, pc), s.blk, z);
    (pc + kr, jcl + c)
  }

  /** The panel that holds a padded column, and what the width helper answers for it. */
  lemma PanelFacts(s: Shape, j: int)
    requires s.Valid() && 0 <= j < s.NPad()
    ensures var jcl := Floor(j, s.blk.NC); var w := PanelWidth(jcl, s.n, s.blk.NC, s.blk.minNR);
      && 0 <= jcl <= j < jcl + w && jcl < s.n && jcl % s.blk.NC == 0 && jcl % s.blk.NR == 0
      && w == PaddedCols(PanelCols(s, jcl), s.blk) && 0 < w <= s.blk.NC && jcl + w <= s.NPad()
      && PanelCols(s, jcl) > 0
  {
    hide Floor, RoundUp, PanelWidth;
    var blk := s.blk;
    var jcl := Floor(j, blk.NC);
    FloorFacts(j, blk.NC);
    MultTrans(blk.NC, blk.NR, blk.minNR);
    MultTrans(jcl, blk.NC, blk.NR);
    MultTrans(jcl, blk.NC, blk.minNR);
    RoundUpFacts(s.n, blk.minNR);
    if s.n <= jcl { RoundUpLeast(s.n, blk.minNR, jcl); }
    PanelWidthIs(s, jcl);
    RoundUpShift(s.n - jcl, blk.minNR, jcl);
    RoundUpFacts(s.n - jcl, blk.minNR);
    MultAdd(jcl, blk.NC, blk.minNR);
    if s.n >= jcl + blk.NC { RoundUpUnique(blk.NC, blk.minNR, blk.NC); }
    else { RoundUpLeast(s.n - jcl, blk.minNR, blk.NC); }
  }

  /** `n_sub_updated` is the padded width of the panel. */
  lemma PanelWidthIs(s: Shape, jcl: int)
    requires s.Valid() && 0 <= jcl < s.n && jcl % s.blk.NC == 0
    ensures PanelWidth(jcl, s.n, s.blk.NC, s.blk.minNR) == PaddedCols(PanelCols(s, jcl), s.blk)
  {
    hide RoundUp;
    var n, NC, m := s.n, s.blk.NC, s.blk.minNR;
    var last := (n / NC) * NC;
    FloorFacts(n, NC);
    MultTrans(NC, s.blk.NR, m);
    MultTrans(last, NC, m);
    RoundUpUnique(NC, m, NC);
    if n % NC != 0 && jcl >= last {
      if last < jcl { MultLess(last, jcl, NC); }
      PadIs(n, m);
      RoundUpShift(n - last, m, last);
    } else {
      if n % NC == 0 { MultLess(jcl, n, NC); } else { MultLess(jcl, last, NC); }
    }
  }

  lemma PadIs(n: int, m: int)
    requires m > 0
    ensures RoundUp(n, m) == n + (if n % m != 0 then m - n % m else 0)
  {
    hide RoundUp;
    FloorFacts(n, m);
    MulMod(1, m);
    MultAdd((n / m) * m, m, m);
    RoundUpUnique(n, m, if n % m != 0 then (n / m) * m + m else n);
  }

  /** The K block that holds a padded row. */
  lemma RowFacts(s: Shape, p: int)
    requires s.Valid() && 0 <= p < s.KPad()
    ensures var pc := Floor(p, s.blk.KC); var h := BlockRows(s, pc);
      && 0 <= pc <= p < pc + h <= s.KPad() && pc < s.k && pc % s.blk.KC == 0
      && 0 < h <= s.blk.KC && h % s.blk.kf == 0
  {
    hide Floor, RoundUp;
    var blk := s.blk;
    var pc := Floor(p, blk.KC);
    FloorFacts(p, blk.KC);
    MultTrans(pc, blk.KC, blk.kf);
    RoundUpFacts(s.k, blk.kf);
    if s.k <= pc { RoundUpLeast(s.k, blk.kf, pc); }
    RoundUpShift(s.k - pc, blk.kf, pc);
    RoundUpFacts(s.k - pc, blk.kf);
    MultAdd(pc, blk.KC, blk.kf);
    if s.k - pc >= blk.KC {
      RoundUpUnique(blk.KC, blk.kf, blk.KC);
      RoundUpLeast(s.k - pc, blk.kf, s.KPad() - pc);
      BlockFits(s, pc);
    }
    else { RoundUpLeast(s.k - pc, blk.kf, blk.KC); }
  }

  lemma BlockFits(s: Shape, pc: int)
    requires s.Valid() && s.k - pc >= s.blk.KC
    ensures pc + s.blk.KC <= s.KPad()
  {
    RoundUpFacts(s.k, s.blk.kf);
  }

  /** Panel and block starts of any position, and the room left in its block. */
  lemma SplitFacts(s: Shape, x: int)
    requires s.Valid() && 0 <= x < s.Size()
    ensures var (jcl, pc, z) := Split(s, x); var w := PanelWidth(jcl, s.n, s.blk.NC, s.blk.minNR);
      && 0 <= jcl < s.n && jcl % s.blk.NC == 0 && 0 <= pc < s.k && pc % s.blk.KC == 0
      && PanelDims(PanelCols(s, jcl), BlockRows(s, pc), s.blk)
      && w == PaddedCols(PanelCols(s, jcl), s.blk) && 0 <= z < w * BlockRows(s, pc)
      && jcl + w <= s.NPad() && pc + BlockRows(s, pc) <= s.KPad()
      && w <= s.blk.NC && BlockRows(s, pc) <= s.blk.KC
      && x == jcl * s.KPad() + w * pc + z
  {
    hide Floor, RoundUp, PanelWidth;
    SplitPanel(s, x);
    var jcl := Floor(x / s.KPad(), s.blk.NC);
    var w := PanelWidth(jcl, s.n, s.blk.NC, s.blk.minNR);
    var y := x - jcl * s.KPad();
    Within(y, w, 0, s.KPad());
    RowFacts(s, y / w);
    var pc := Floor(y / w, s.blk.KC);
    Within(y, w, pc, BlockRows(s, pc));
  }

  lemma SplitPanel(s: Shape, x: int)
    requires s.Valid() && 0 <= x < s.Size()
    ensures s.KPad() > 0
    ensures var jcl := Floor(x / s.KPad(), s.blk.NC); var w := PanelWidth(jcl, s.n, s.blk.NC, s.blk.minNR);
      && 0 <= jcl < s.n && jcl % s.blk.NC == 0 && PanelCols(s, jcl) > 0
      && w == PaddedCols(PanelCols(s, jcl), s.blk) && 0 < w <= s.blk.NC && jcl + w <= s.NPad()
      && 0 <= x - jcl * s.KPad() < w * s.KPad()
  {
    hide Floor, RoundUp, PanelWidth;
    RoundUpFacts(s.k, s.blk.kf);
    DivBetween(x, s.KPad(), 0, s.NPad());
    PanelFacts(s, x / s.KPad());
    var jcl := Floor(x / s.KPad(), s.blk.NC);
    Within(x, s.KPad(), jcl, PanelWidth(jcl, s.n, s.blk.NC, s.blk.minNR));
  }

  /** The quotient lies in [lo, lo + len) exactly when the remainder beyond lo is below len * d. */
  lemma Within(x: int, d: int, lo: int, len: int)
    requires d > 0
    ensures lo <= x / d < lo + len <==> 0 <= x - lo * d < len * d
  {
    DivBetween(x, d, lo, lo + len);
    Distribute(lo, len, d);
  }

  /** A position inside a K block of a panel splits into that panel and block. */
  lemma SplitOf(s: Shape, p: int, j: int, z: int)
    requires s.Valid() && s.Padded(p, j)
    requires var jcl, pc := Floor(j, s.blk.NC), Floor(p, s.blk.KC);
      0 <= z < PanelWidth(jcl, s.n, s.blk.NC, s.blk.minNR) * BlockRows(s, pc)
    ensures var jcl, pc := Floor(j, s.blk.NC), Floor(p, s.blk.KC);
      var x := jcl * s.KPad() + PanelWidth(jcl, s.n, s.blk.NC, s.blk.minNR) * pc + z;
      0 <= x < s.Size() && Split(s, x) == (jcl, pc, z)
  {
    hide Floor, RoundUp, PanelWidth;
    var jcl, pc := Floor(j, s.blk.NC), Floor(p, s.blk.KC);
    PanelFacts(s, j);
    RowFacts(s, p);
    var K, h := s.KPad(), BlockRows(s, pc);
    var w := PanelWidth(jcl, s.n, s.blk.NC, s.blk.minNR);
    var y := w * pc + z;
    Distribute(pc, h, w);
    DivBetween(y, w, pc, pc + h);
    FloorUnique(y / w, s.blk.KC, pc);
    MulLe(0, pc, w);
    MulLe(pc + h, K, w);
    var x := jcl * K + y;
    Distribute(jcl, w, K);
    DivBetween(x, K, jcl, jcl + w);
    FloorUnique(x / K, s.blk.NC, jcl);
    MulLe(0, jcl, K);
    MulLe(jcl + w, s.NPad(), K);
  }

  /** The layout is injective: reading the position of a cell back gives that cell. */
  lemma CellOfPos(s: Shape, p: int, j: int)
    requires s.Valid() && s.Padded(p, j)
    ensures 0 <= Pos(s, p, j) < s.Size() && Cell(s, Pos(s, p, j)) == (p, j)
  {
    hide Floor, RoundUp, PanelWidth, PanelPos, PanelCell, Split;
    var jcl, pc := Floor(j, s.blk.NC), Floor(p, s.blk.KC);
    PanelFacts(s, j);
    RowFacts(s, p);
    PanelCellOfPos(PanelCols(s, jcl), BlockRows(s, pc), s.blk, p - pc, j - jcl);
    SplitOf(s, p, j, PanelPos(PanelCols(s, jcl), BlockRows(s, pc), s.blk, p - pc, j - jcl));
  }

  /** ... and surjective: with padding, the layout is a bijection onto [0, Size). */
  lemma PosOfCell(s: Shape, x: int)
    requires s.Valid() && 0 <= x < s.Size()
    ensures var (p, j) := Cell(s, x); s.Padded(p, j) && Pos(s, p, j) == x
  {
    hide Floor, RoundUp, PanelWidth, PanelPos, PanelCell, Split;
    var (jcl, pc, z) := Split(s, x);
    SplitFacts(s, x);
    PosOfPanelCell(PanelCols(s, jcl), BlockRows(s, pc), s.blk, z);
    var (kr, c) := PanelCell(PanelCols(s, jcl), BlockRows(s, pc), s.blk, z);
    FloorUnique(pc + kr, s.blk.KC, pc);
    FloorUnique(jcl + c, s.blk.NC, jcl);
  }

  /** What one pass of the pc loop may be handed: nc0 columns from jc on, all in one panel, cut short only
      by the end of that panel, by an NR boundary or by the end of the matrix. */
  predicate ThreadBlock(s: Shape, jc: int, nc0: int, pc: int) {
    && s.Valid() && 0 <= jc < s.n && jc % s.blk.NR == 0
    && 0 < nc0 && jc + nc0 <= s.n && jc + nc0 <= Floor(jc, s.blk.NC) + s.blk.NC
    && (jc + nc0 == s.n || nc0 % s.blk.NR == 0)
    && 0 <= pc < s.k && pc % s.blk.KC == 0
  }

  /** The offset the reorder computes for a block: whole panels, then K blocks, then the columns of this K
      block that precede the thread's first column. */
  function BlockOffset(s: Shape, jc: int, pc: int): int
    requires s.Valid()
  {
    Floor(jc, s.blk.NC) * s.KPad() + PanelWidth(jc, s.n, s.blk.NC, s.blk.minNR) * pc
    + (jc - Floor(jc, s.blk.NC)) * BlockRows(s, pc)
  }

  /** The width helper answers the same for every column of a panel. */
  lemma PanelWidthOfColumn(jc: int, n: int, NC: int, NR: int)
    requires NC > 0 && NR > 0 && 0 <= jc < n
    ensures PanelWidth(jc, n, NC, NR) == PanelWidth(Floor(jc, NC), n, NC, NR)
  {
    var last, jcl := (n / NC) * NC, Floor(jc, NC);
    FloorFacts(n, NC);
    FloorFacts(jc, NC);
    if jcl < last <= jc { MultLess(jcl, last, NC); }
  }

  /** A thread that starts in the middle of a panel writes each cell exactly where the single-threaded
      traversal stores it. */
  lemma MidPanelStart(s: Shape, jc: int, nc0: int, pc: int, kr: int, c: int)
    requires ThreadBlock(s, jc, nc0, pc)
    requires 0 <= kr < BlockRows(s, pc) && 0 <= c < PaddedCols(nc0, s.blk)
    ensures s.Padded(pc + kr, jc + c)
    ensures Pos(s, pc + kr, jc + c) == BlockOffset(s, jc, pc) + PanelPos(nc0, BlockRows(s, pc), s.blk, kr, c)
  {
    hide Floor, RoundUp, PanelWidth, PanelPos;
    var blk, jcl, h := s.blk, Floor(jc, s.blk.NC), BlockRows(s, pc);
    PadReaches(s, jc);
    PanelFacts(s, jc);
    PanelWidthOfColumn(jc, s.n, blk.NC, blk.minNR);
    RowsOfBlock(s, pc);
    MultAdd(jc, jcl, blk.NR);
    SubPanel(PanelCols(s, jcl), h, blk, jc - jcl, nc0, kr, c);
    FloorUnique(pc + kr, blk.KC, pc);
    FloorUnique(jc + c, blk.NC, jcl);
  }

  lemma PadReaches(s: Shape, j: int)
    requires s.Valid() && 0 <= j < s.n
    ensures j < s.NPad()
  {
    RoundUpFacts(s.n, s.blk.minNR);
  }

  lemma RowsOfBlock(s: Shape, pc: int)
    requires s.Valid() && 0 <= pc < s.k && pc % s.blk.KC == 0
    ensures 0 < BlockRows(s, pc) <= s.blk.KC && BlockRows(s, pc) % s.blk.kf == 0
    ensures pc + BlockRows(s, pc) <= s.KPad() && Min(s.k - pc, s.blk.KC) <= BlockRows(s, pc)
    ensures pc + s.blk.KC < s.k ==> BlockRows(s, pc) == s.blk.KC
    ensures pc + s.blk.KC >= s.k ==> pc + BlockRows(s, pc) == s.KPad()
  {
    hide Floor, RoundUp;
    RoundUpFacts(s.k, s.blk.kf);
    FloorUnique(pc, s.blk.KC, pc);
    RowFacts(s, pc);
    RoundUpFacts(Min(s.k - pc, s.blk.KC), s.blk.kf);
    RoundUpUnique(s.blk.KC, s.blk.kf, s.blk.KC);
    MultTrans(pc, s.blk.KC, s.blk.kf);
    RoundUpShift(s.k - pc, s.blk.kf, pc);
  }

  /** Every position of the region a block call fills is the position of one of its cells. */
  lemma BlockCell(s: Shape, jc: int, nc0: int, pc: int, z: int) returns (p: int, j: int)
    requires ThreadBlock(s, jc, nc0, pc) && 0 <= z < PaddedCols(nc0, s.blk) * BlockRows(s, pc)
    ensures s.Padded(p, j) && Pos(s, p, j) == BlockOffset(s, jc, pc) + z
    ensures pc <= p < pc + BlockRows(s, pc) && jc <= j < jc + PaddedCols(nc0, s.blk)
    ensures 0 <= BlockOffset(s, jc, pc) + z < s.Size()
  {
    hide Floor, RoundUp, PanelPos, PanelCell, Pos, Cell, BlockOffset;
    RowsOfBlock(s, pc);
    var (kr, c) := PanelCell(nc0, BlockRows(s, pc), s.blk, z);
    PosOfPanelCell(nc0, BlockRows(s, pc), s.blk, z);
    MidPanelStart(s, jc, nc0, pc, kr, c);
    p, j := pc + kr, jc + c;
    CellOfPos(s, p, j);
  }

  /** That region holds the block's own cells and no others. */
  lemma BlockMembership(s: Shape, jc: int, nc0: int, pc: int, p: int, j: int)
    requires ThreadBlock(s, jc, nc0, pc) && s.Padded(p, j)
    ensures BlockOffset(s, jc, pc) <= Pos(s, p, j)
                                   < BlockOffset(s, jc, pc) + PaddedCols(nc0, s.blk) * BlockRows(s, pc)
            <==> pc <= p < pc + BlockRows(s, pc) && jc <= j < jc + PaddedCols(nc0, s.blk)
  {
    hide Floor, RoundUp, PanelPos, Pos, Cell, BlockOffset;
    var off, h := BlockOffset(s, jc, pc), BlockRows(s, pc);
    RowsOfBlock(s, pc);
    if off <= Pos(s, p, j) < off + PaddedCols(nc0, s.blk) * h {
      var p', j' := BlockCell(s, jc, nc0, pc, Pos(s, p, j) - off);
      CellOfPos(s, p, j);
      CellOfPos(s, p', j');
    }
    if pc <= p < pc + h && jc <= j < jc + PaddedCols(nc0, s.blk) {
      MidPanelStart(s, jc, nc0, pc, p - pc, j - jc);
      PanelPosBounds(nc0, h, s.blk, p - pc, j - jc);
    }
  }

  /** Every block region lies inside the buffer the size query asks for. */
  lemma BlockInBounds(s: Shape, jc: int, nc0: int, pc: int)
    requires ThreadBlock(s, jc, nc0, pc)
    ensures 0 <= BlockOffset(s, jc, pc)
    ensures BlockOffset(s, jc, pc) + PaddedCols(nc0, s.blk) * BlockRows(s, pc) <= s.Size()
    ensures 0 < BlockRows(s, pc) && 0 < PaddedCols(nc0, s.blk) * BlockRows(s, pc)
  {
    hide Floor, RoundUp, BlockOffset, BlockRows;
    RowsOfBlock(s, pc);
    RoundUpFacts(nc0, s.blk.minNR);
    MulLe(1, PaddedCols(nc0, s.blk), BlockRows(s, pc));
    var p, j := BlockCell(s, jc, nc0, pc, 0);
    p, j := BlockCell(s, jc, nc0, pc, PaddedCols(nc0, s.blk) * BlockRows(s, pc) - 1);
  }
}
