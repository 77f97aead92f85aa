/** Where an element of one KC x NC panel lands once packed: the panel is cut along n into full NR-wide
    chunks, then a fringe of whole minNR columns, then a tail in one minNR-wide slot; inside a chunk rows
    are grouped kf at a time. */
module PanelLayout {
  import opened Arith

  /** The values a reorder resolves from its context. `dlp_reorder_ref_blocks_legal` checks NR, minNR, KC
      and kf; NC being a whole number of NR is what `dlp_gemm_validate_metadata_with_lcntx` checks. */
  datatype Blocking = Blocking(NR: int, minNR: int, NC: int, KC: int, kf: int) {
    predicate Legal() {
      && NR > 0 && KC > 0 && minNR > 0 && kf > 0 && NC > 0
      && NR % minNR == 0 && KC % kf == 0 && NC % NR == 0
    }
  }

  /** First column of the chunk that holds column c of an n-wide panel. */
  function ChunkStart(n: int, blk: Blocking, c: int): int
    requires blk.Legal()
  {
    var full := Floor(c, blk.NR);
    if full + blk.NR <= n then full
    else
      var fringe := full + Floor(n - full, blk.minNR);
      if c < fringe then full else fringe
  }

  /** Width, padding included, of the chunk that holds column c. */
  function ChunkSlot(n: int, blk: Blocking, c: int): int
    requires blk.Legal()
  {
    var full := Floor(c, blk.NR);
    if full + blk.NR <= n then blk.NR
    else
      var fringe := full + Floor(n - full, blk.minNR);
      if c < fringe then fringe - full else blk.minNR
  }

  /** `dlp_reorder_elem_offset`. */
  function ElemOffset(kr: int, i: int, slot: int, kf: int): int
    requires kf > 0
  {
    (kr / kf) * (kf * slot) + i * kf + kr % kf
  }

  /** Position of (row kr, column c) in a packed panel of n columns and h padded rows. */
  function PanelPos(n: int, h: int, blk: Blocking, kr: int, c: int): int
    requires blk.Legal()
  {
    var start := ChunkStart(n, blk, c);
    start * h + ElemOffset(kr, c - start, ChunkSlot(n, blk, c), blk.kf)
  }

  /** Columns a panel of n live columns occupies once padded. */
  function PaddedCols(n: int, blk: Blocking): int {
    RoundUp(n, blk.minNR)
  }

  /** Reads a position back as (row, column). */
  function PanelCell(n: int, h: int, blk: Blocking, x: int): (int, int)
    requires blk.Legal() && h > 0 && n > 0 && 0 <= x < PaddedCols(n, blk) * h
  {
    var start := ChunkStart(n, blk, x / h);
    var slot := ChunkSlot(n, blk, x / h);
    var e := x - start * h;
    assert slot > 0 by { DivBetween(x, h, 0, PaddedCols(n, blk)); ChunkFacts(n, blk, x / h); }
    assert blk.kf * slot > 0 by { MulLe(1, slot, blk.kf); }
    ((e / (blk.kf * slot)) * blk.kf + e % blk.kf, start + (e % (blk.kf * slot)) / blk.kf)
  }

  /** The cut of the last, partial NR block: whole minNR columns, then one minNR-wide slot. */
  lemma LastBlockCut(full: int, n: int, m: int)
    requires m > 0 && full % m == 0 && full < n
    ensures var fringe := full + Floor(n - full, m);
      && full <= fringe <= n < fringe + m && fringe % m == 0
      && RoundUp(n, m) == if fringe == n then n else fringe + m
  {
    hide Floor, RoundUp;
    FloorFacts(n - full, m);
    var w := Floor(n - full, m);
    MultAdd(full, w, m);
    MulMod(1, m);
    MultAdd(full + w, m, m);
    RoundUpUnique(n, m, if full + w == n then n else full + w + m);
  }

  /** An NR block that holds padded columns holds live ones too. */
  lemma BlockIsLive(n: int, blk: Blocking, c: int)
    requires blk.Legal() && 0 <= c < PaddedCols(n, blk)
    ensures var full := Floor(c, blk.NR);
      && 0 <= full <= c < full + blk.NR && full < n && full % blk.NR == 0 && full % blk.minNR == 0
  {
    var full := Floor(c, blk.NR);
    FloorFacts(c, blk.NR);
    MultTrans(full, blk.NR, blk.minNR);
    if n <= full {
      RoundUpLeast(n, blk.minNR, full);
    }
  }

  /** The chunks are disjoint intervals that tile the padded width. */
  lemma ChunkFacts(n: int, blk: Blocking, c: int)
    requires blk.Legal() && 0 <= c < PaddedCols(n, blk)
    ensures var start, slot := ChunkStart(n, blk, c), ChunkSlot(n, blk, c);
      && 0 <= start <= c < start + slot <= PaddedCols(n, blk)
      && start % blk.minNR == 0 && start < n && (start + slot <= n || slot == blk.minNR)
  {
    hide Floor, RoundUp;
    var full := Floor(c, blk.NR);
    BlockIsLive(n, blk, c);
    RoundUpFacts(n, blk.minNR);
    if full + blk.NR > n { LastBlockCut(full, n, blk.minNR); }
  }

  /** Every column of a chunk names the same chunk. */
  lemma ChunkSame(n: int, blk: Blocking, c: int, c': int)
    requires blk.Legal() && 0 <= c < PaddedCols(n, blk)
    requires ChunkStart(n, blk, c) <= c' < ChunkStart(n, blk, c) + ChunkSlot(n, blk, c)
    ensures ChunkStart(n, blk, c') == ChunkStart(n, blk, c) && ChunkSlot(n, blk, c') == ChunkSlot(n, blk, c)
  {
    hide Floor, RoundUp;
    var full := Floor(c, blk.NR);
    BlockIsLive(n, blk, c);
    if full + blk.NR > n {
      LastBlockCut(full, n, blk.minNR);
      var fringe := full + Floor(n - full, blk.minNR);
      MulMod(1, blk.NR);
      MultAdd(full, blk.NR, blk.minNR);
      MultLess(fringe, full + blk.NR, blk.minNR);
    }
    FloorUnique(c', blk.NR, full);
  }

  lemma ElemBounds(kr: int, i: int, slot: int, h: int, kf: int)
    requires kf > 0 && h % kf == 0 && 0 <= kr < h && 0 <= i < slot
    ensures 0 <= ElemOffset(kr, i, slot, kf) < slot * h
  {
    var H := h / kf;
    assert slot * h == H * (kf * slot) by { assert h == H * kf; MulAssoc(H, kf, slot); }
    DivBetween(kr, kf, 0, H);
    TwoDigits(i, slot, kf, kr % kf);
    TwoDigits(kr / kf, H, kf * slot, i * kf + kr % kf);
  }

  lemma ElemInverse(kr: int, i: int, slot: int, kf: int)
    requires kf > 0 && 0 <= kr && 0 <= i < slot && kf * slot > 0
    ensures var e := ElemOffset(kr, i, slot, kf);
      (e / (kf * slot)) * kf + e % kf == kr && (e % (kf * slot)) / kf == i
  {
    var q, r := kr / kf, kr % kf;
    var e := ElemOffset(kr, i, slot, kf);
    TwoDigits(i, slot, kf, r);
    DivModUnique(e, kf * slot, q, i * kf + r);
    DivModUnique(i * kf + r, kf, i, r);
    SplitElem(q, i, slot, kf);
    DivModUnique(e, kf, q * slot + i, r);
  }

  /** Columns and row groups together count whole groups of kf. */
  lemma SplitElem(q: int, i: int, slot: int, kf: int)
    ensures q * (kf * slot) + i * kf == (q * slot + i) * kf
  {
    MulAssoc(q, slot, kf);
  }

  lemma ElemDigits(e: int, g: int, slot: int, H: int, kf: int)
    requires kf > 0 && g > 0 && g == kf * slot && 0 <= e < H * g
    ensures 0 <= e / g < H && 0 <= (e % g) / kf < slot
    ensures e % kf == (e % g) % kf && e == (e / g) * g + ((e % g) / kf) * kf + e % kf
  {
    DivBetween(e, g, 0, H);
    var q, rest := e / g, e % g;
    DivBetween(rest, kf, 0, slot);
    SplitElem(q, rest / kf, slot, kf);
    DivModUnique(e, kf, q * slot + rest / kf, rest % kf);
  }

  /** Reading an offset back inside a chunk, and writing it again, is the identity. */
  lemma ElemForward(e: int, slot: int, h: int, kf: int)
    requires kf > 0 && h > 0 && h % kf == 0 && slot > 0 && 0 <= e < slot * h && kf * slot > 0
    ensures var kr, i := (e / (kf * slot)) * kf + e % kf, (e % (kf * slot)) / kf;
      0 <= kr < h && 0 <= i < slot && ElemOffset(kr, i, slot, kf) == e
  {
    var H := h / kf;
    assert slot * h == H * (kf * slot) by { assert h == H * kf; MulAssoc(H, kf, slot); }
    ElemDigits(e, kf * slot, slot, H, kf);
    var q := e / (kf * slot);
    TwoDigits(q, H, kf, e % kf);
    DivModUnique(q * kf + e % kf, kf, q, e % kf);
  }

  predicate PanelDims(n: int, h: int, blk: Blocking) {
    blk.Legal() && n > 0 && h > 0 && h % blk.kf == 0
  }

  /** A packed position stays inside its chunk, hence inside the panel. */
  lemma PanelPosBounds(n: int, h: int, blk: Blocking, kr: int, c: int)
    requires PanelDims(n, h, blk) && 0 <= kr < h && 0 <= c < PaddedCols(n, blk)
    ensures var start := ChunkStart(n, blk, c);
      start * h <= PanelPos(n, h, blk, kr, c) < (start + ChunkSlot(n, blk, c)) * h
    ensures 0 <= PanelPos(n, h, blk, kr, c) < PaddedCols(n, blk) * h
  {
    hide ChunkStart, ChunkSlot, RoundUp, ElemOffset;
    var start, slot := ChunkStart(n, blk, c), ChunkSlot(n, blk, c);
    ChunkFacts(n, blk, c);
    ElemBounds(kr, c - start, slot, h, blk.kf);
    Distribute(start, slot, h);
    MulLe(start + slot, PaddedCols(n, blk), h);
    MulLe(0, start, h);
  }

  /** The panel layout is injective: the cell can be read back from the position. */
  lemma PanelCellOfPos(n: int, h: int, blk: Blocking, kr: int, c: int)
    requires PanelDims(n, h, blk) && 0 <= kr < h && 0 <= c < PaddedCols(n, blk)
    ensures 0 <= PanelPos(n, h, blk, kr, c) < PaddedCols(n, blk) * h
    ensures PanelCell(n, h, blk, PanelPos(n, h, blk, kr, c)) == (kr, c)
  {
    hide ChunkStart, ChunkSlot, RoundUp, ElemOffset;
    var x := PanelPos(n, h, blk, kr, c);
    var start, slot := ChunkStart(n, blk, c), ChunkSlot(n, blk, c);
    ChunkFacts(n, blk, c);
    PanelPosBounds(n, h, blk, kr, c);
    DivBetween(x, h, start, start + slot);
    ChunkSame(n, blk, c, x / h);
    MulLe(1, slot, blk.kf);
    ElemInverse(kr, c - start, slot, blk.kf);
  }

  /** ... and surjective: every position of the padded panel is the position of its cell. */
  lemma PosOfPanelCell(n: int, h: int, blk: Blocking, x: int)
    requires PanelDims(n, h, blk) && 0 <= x < PaddedCols(n, blk) * h
    ensures var (kr, c) := PanelCell(n, h, blk, x);
      0 <= kr < h && 0 <= c < PaddedCols(n, blk) && PanelPos(n, h, blk, kr, c) == x
  {
    hide ChunkStart, ChunkSlot, RoundUp, ElemOffset;
    DivBetween(x, h, 0, PaddedCols(n, blk));
    var d := x / h;
    var start, slot := ChunkStart(n, blk, d), ChunkSlot(n, blk, d);
    ChunkFacts(n, blk, d);
    DivBetween(x, h, start, start + slot);
    Distribute(start, slot, h);
    MulLe(1, slot, blk.kf);
    ElemForward(x - start * h, slot, h, blk.kf);
    ChunkSame(n, blk, d, PanelCell(n, h, blk, x).1);
  }

  /** A thread that starts `rem` columns into an n-wide panel and packs `w` of them cuts the same chunks
      there as a traversal of the whole panel: its packed cells sit `rem * h` further on. */
  lemma SubPanel(n: int, h: int, blk: Blocking, rem: int, w: int, kr: int, c: int)
    requires PanelDims(n, h, blk) && 0 <= rem && rem % blk.NR == 0 && 0 < w && rem + w <= n
    requires rem + w == n || w % blk.NR == 0
    requires 0 <= kr < h && 0 <= c < PaddedCols(w, blk)
    ensures rem + c < PaddedCols(n, blk)
    ensures PanelPos(n, h, blk, kr, rem + c) == rem * h + PanelPos(w, h, blk, kr, c)
  {
    hide ChunkStart, ChunkSlot, RoundUp, ElemOffset;
    SubPanelChunk(n, blk, rem, w, c);
    var s := ChunkStart(w, blk, c);
    Distribute(rem, s, h);
  }

  lemma SubPanelChunk(n: int, blk: Blocking, rem: int, w: int, c: int)
    requires blk.Legal() && 0 <= rem && rem % blk.NR == 0 && 0 < w && rem + w <= n
    requires rem + w == n || w % blk.NR == 0
    requires 0 <= c < PaddedCols(w, blk)
    ensures rem + c < PaddedCols(n, blk)
    ensures ChunkStart(n, blk, rem + c) == rem + ChunkStart(w, blk, c)
    ensures ChunkSlot(n, blk, rem + c) == ChunkSlot(w, blk, c)
  {
    FloorShift(c, blk.NR, rem);
    MultTrans(rem, blk.NR, blk.minNR);
    RoundUpShift(w, blk.minNR, rem);
    RoundUpFacts(n, blk.minNR);
    if rem + w < n {
      MultTrans(w, blk.NR, blk.minNR);
      RoundUpUnique(w, blk.minNR, w);
      FloorFacts(c, blk.NR);
      MultLess(Floor(c, blk.NR), w, blk.NR);
    }
  }
}
