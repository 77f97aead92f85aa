/** Packing and unpacking one KC x NC panel, chunk by chunk. */
module PanelPack {
  import opened Arith
  import opened PanelLayout
  import opened Traces

  /** Index of element (p, j) in a strided matrix. */
  function Addr(p: int, j: int, rs: int, cs: int): int {
    p * rs + j * cs
  }

  /** `dlp_reorder_chunk_t`. */
  datatype Chunk = Chunk(colStart: int, cols: int, slot: int, offset: int)

  /** `dlp_reorder_chunk_next`: the advanced chunk, and whether the panel still had columns for it. */
  function ChunkNext(ch: Chunk, nc0: int, NR: int, minNR: int, h: int): (bool, Chunk) {
    var next := ch.colStart + ch.cols;
    var moved := ch.(offset := ch.offset + ch.slot * h, colStart := next);
    var remaining := nc0 - next;
    if remaining <= 0 then (false, moved)
    else if NR <= 0 || minNR <= 0 then (false, moved)
    else if remaining >= NR then (true, moved.(cols := NR, slot := NR))
    else
      var whole := (remaining / minNR) * minNR;
      if whole > 0 then (true, moved.(cols := whole, slot := whole))
      else (true, moved.(cols := remaining, slot := minNR))
  }

  /** One of the chunks the layout cuts an nc0-wide panel into. */
  predicate IsChunk(ch: Chunk, nc0: int, blk: Blocking, h: int)
    requires blk.Legal()
  {
    && 0 <= ch.colStart < nc0 && ch.colStart < PaddedCols(nc0, blk)
    && ChunkStart(nc0, blk, ch.colStart) == ch.colStart && ch.slot == ChunkSlot(nc0, blk, ch.colStart)
    && ch.cols == Min(ch.slot, nc0 - ch.colStart) && ch.offset == ch.colStart * h
  }

  lemma FirstChunk(nc0: int, blk: Blocking, h: int)
    requires PanelDims(nc0, h, blk)
    ensures var (more, ch) := ChunkNext(Chunk(0, 0, 0, 0), nc0, blk.NR, blk.minNR, h);
      more && ch.colStart == 0 && IsChunk(ch, nc0, blk, h)
  {
    FloorUnique(0, blk.NR, 0);
    RoundUpFacts(nc0, blk.minNR);
    FloorFacts(nc0, blk.minNR);
  }

  /** The walk visits the layout's chunks in order and stops at the end of the panel. */
  lemma NextChunk(ch: Chunk, nc0: int, blk: Blocking, h: int)
    requires PanelDims(nc0, h, blk) && IsChunk(ch, nc0, blk, h)
    ensures var (more, next) := ChunkNext(ch, nc0, blk.NR, blk.minNR, h);
      if more then IsChunk(next, nc0, blk, h) && next.colStart == ch.colStart + ch.cols
      else ch.colStart + ch.cols == nc0
  {
    hide RoundUp;
    var c, c' := ch.colStart, ch.colStart + ch.slot;
    ChunkFacts(nc0, blk, c);
    RoundUpFacts(nc0, blk.minNR);
    BlockIsLive(nc0, blk, c);
    Distribute(c, ch.slot, h);
    if c' < nc0 {
      var full := Floor(c, blk.NR);
      if full + blk.NR <= nc0 {
        MulMod(1, blk.NR);
        MultAdd(full, blk.NR, blk.NR);
        FloorUnique(c', blk.NR, c');
        FloorFacts(nc0 - c', blk.minNR);
      } else {
        LastBlockCut(full, nc0, blk.minNR);
        FloorUnique(c', blk.NR, full);
        DivModUnique(nc0 - c', blk.minNR, 0, nc0 - c');
      }
    }
  }

  /** One call of the packer: what it reads and what it lays out. */
  datatype Job<T> = Job(b: seq<T>, base: int, zero: T, nc0: int, kc0: int, blk: Blocking, rs: int, cs: int) {
    function H(): int { RoundUp(kc0, blk.kf) }

    predicate Valid() {
      && PanelDims(nc0, H(), blk) && 0 < kc0 <= H()
      && forall kr, c :: 0 <= kr < kc0 && 0 <= c < nc0 ==> 0 <= base + Addr(kr, c, rs, cs) < |b|
    }

    function Size(): int { PaddedCols(nc0, blk) * H() }

    predicate Padded(kr: int, c: int) { 0 <= kr < H() && 0 <= c < PaddedCols(nc0, blk) }

    function Pos(kr: int, c: int): int
      requires blk.Legal()
    {
      PanelPos(nc0, H(), blk, kr, c)
    }

    function Value(kr: int, c: int): T
      requires Valid()
    {
      if 0 <= kr < kc0 && 0 <= c < nc0 then b[base + Addr(kr, c, rs, cs)] else zero
    }
  }

  /** What the copy loops have reached: whole chunks before column col, then rows before `row` of the
      current chunk, then i columns of that row. */
  predicate Copied(kr: int, c: int, col: int, cols: int, row: int, i: int) {
    c < col || (c < col + cols && (kr < row || (kr == row && c < col + i)))
  }

  ghost predicate Packing<T>(tr: seq<Write<T>>, off: int, job: Job<T>, col: int, cols: int, row: int, i: int)
    requires job.Valid()
  {
    && (forall x :: Last(tr, x).Some? <==> off <= x < off + job.Size())
    && forall kr, c {:trigger job.Pos(kr, c)} :: job.Padded(kr, c) ==>
        Last(tr, off + job.Pos(kr, c))
        == Some(if Copied(kr, c, col, cols, row, i) then job.Value(kr, c) else job.zero)
  }

  /** A finished call: each cell of the panel, padding included, was last written with its own value. */
  ghost predicate Packed<T>(tr: seq<Write<T>>, off: int, job: Job<T>)
    requires job.Valid()
  {
    && (forall x :: Last(tr, x).Some? <==> off <= x < off + job.Size())
    && forall kr, c {:trigger job.Pos(kr, c)} :: job.Padded(kr, c) ==>
        Last(tr, off + job.Pos(kr, c)) == Some(job.Value(kr, c))
  }

  lemma PackStart<T>(tr: seq<Write<T>>, off: int, job: Job<T>)
    requires job.Valid()
    requires forall x :: Last(tr, x) == if off <= x < off + job.Size() then Some(job.zero) else None
    ensures Packing(tr, off, job, 0, 0, 0, 0)
  {
    hide PanelPos, RoundUp;
    forall kr, c | job.Padded(kr, c)
      ensures Last(tr, off + job.Pos(kr, c)) == Some(job.zero)
    {
      PanelPosBounds(job.nc0, job.H(), job.blk, kr, c);
    }
  }

  lemma PackStep<T>(tr: seq<Write<T>>, off: int, job: Job<T>, col: int, cols: int, row: int, i: int)
    requires job.Valid() && Packing(tr, off, job, col, cols, row, i)
    requires 0 <= row < job.kc0 && 0 <= i < cols && 0 <= col && col + cols <= job.nc0
    ensures Packing(tr + [Write(off + job.Pos(row, col + i), job.Value(row, col + i))], off, job,
                    col, cols, row, i + 1)
    ensures 0 <= job.Pos(row, col + i) < job.Size()
  {
    hide PanelPos, RoundUp, PanelCell;
    var w := Write(off + job.Pos(row, col + i), job.Value(row, col + i));
    RoundUpFacts(job.nc0, job.blk.minNR);
    PanelCellOfPos(job.nc0, job.H(), job.blk, row, col + i);
    forall x ensures Last(tr + [w], x).Some? <==> off <= x < off + job.Size() {
      LastSnoc(tr, w, x);
    }
    forall kr, c | job.Padded(kr, c)
      ensures Last(tr + [w], off + job.Pos(kr, c))
              == Some(if Copied(kr, c, col, cols, row, i + 1) then job.Value(kr, c) else job.zero)
    {
      PanelCellOfPos(job.nc0, job.H(), job.blk, kr, c);
      LastSnoc(tr, w, off + job.Pos(kr, c));
    }
  }

  /** The next row, or the next chunk, starts with the same cells copied. */
  lemma PackAdvance<T>(tr: seq<Write<T>>, off: int, job: Job<T>,
                       col: int, cols: int, row: int, i: int, col': int, cols': int, row': int)
    requires job.Valid() && Packing(tr, off, job, col, cols, row, i)
    requires forall kr, c :: job.Padded(kr, c) && kr < job.kc0 && c < job.nc0 ==>
        (Copied(kr, c, col, cols, row, i) <==> Copied(kr, c, col', cols', row', 0))
    ensures Packing(tr, off, job, col', cols', row', 0)
  {
    hide PanelPos, RoundUp;
  }

  lemma PackEnd<T>(tr: seq<Write<T>>, off: int, job: Job<T>)
    requires job.Valid() && Packing(tr, off, job, job.nc0, 0, 0, 0)
    ensures Packed(tr, off, job)
  {
    hide PanelPos, RoundUp;
  }

  /** `dlp_reorder_ref_packb`: clears the panel, then copies it chunk by chunk. */
  method PackPanel<T>(buf: array<T>, off: int, job: Job<T>) returns (ghost tr: seq<Write<T>>)
    requires job.Valid() && 0 <= off && off + job.Size() <= buf.Length
    modifies buf
    ensures InBounds(tr, buf.Length) && buf[..] == Apply(old(buf[..]), tr)
    ensures Packed(tr, off, job)
  {
    hide PanelPos, RoundUp, ChunkStart, ChunkSlot, Packing, Packed, IsChunk, ChunkNext;
    var blk, h := job.blk, job.H();
    tr := Clear(buf, off, job);
    PackStart(tr, off, job);

    var (more, ch) := ChunkNext(Chunk(0, 0, 0, 0), job.nc0, blk.NR, blk.minNR, h);
    FirstChunk(job.nc0, blk, h);
    while more
      invariant more ==> IsChunk(ch, job.nc0, blk, h)
      invariant InBounds(tr, buf.Length) && buf[..] == Apply(old(buf[..]), tr)
      invariant Packing(tr, off, job, if more then ch.colStart else job.nc0, 0, 0, 0)
      decreases if more then job.nc0 - ch.colStart else -1
    {
      tr := PackChunk(buf, off, job, ch, tr, old(buf[..]));
      ChunkIsNonEmpty(ch, job.nc0, blk, h);
      NextChunk(ch, job.nc0, blk, h);
      var step := ChunkNext(ch, job.nc0, blk.NR, blk.minNR, h);
      more, ch := step.0, step.1;
    }
    PackEnd(tr, off, job);
  }

  /** The `memset` that defines the padding. */
  method Clear<T>(buf: array<T>, off: int, job: Job<T>) returns (ghost tr: seq<Write<T>>)
    requires job.Valid() && 0 <= off && off + job.Size() <= buf.Length
    modifies buf
    ensures InBounds(tr, buf.Length) && buf[..] == Apply(old(buf[..]), tr)
    ensures forall y :: Last(tr, y) == if off <= y < off + job.Size() then Some(job.zero) else None
  {
    PanelSizePositive(job);
    tr := [];
    var size := job.Size();
    var x := off;
    while x < off + size
      invariant off <= x <= off + size
      invariant InBounds(tr, buf.Length) && buf[..] == Apply(old(buf[..]), tr)
      invariant forall y :: Last(tr, y) == if off <= y < x then Some(job.zero) else None
    {
      buf[x] := job.zero;
      tr := Store(old(buf[..]), tr, Write(x, job.zero));
      x := x + 1;
    }
  }

  ghost function Store<T>(mem: seq<T>, tr: seq<Write<T>>, w: Write<T>): (r: seq<Write<T>>)
    requires InBounds(tr, |mem|) && 0 <= w.addr < |mem|
    ensures r == tr + [w] && InBounds(r, |mem|) && Apply(mem, r) == Apply(mem, tr)[w.addr := w.val]
    ensures forall y :: Last(r, y) == if w.addr == y then Some(w.val) else Last(tr, y)
  {
    ApplySnoc(mem, tr, w);
    assert forall y :: Last(tr + [w], y) == if w.addr == y then Some(w.val) else Last(tr, y) by {
      forall y ensures Last(tr + [w], y) == if w.addr == y then Some(w.val) else Last(tr, y) { LastSnoc(tr, w, y); }
    }
    tr + [w]
  }

  /** The two copy loops over one chunk, extending the trace of the call so far. */
  method PackChunk<T>(buf: array<T>, off: int, job: Job<T>, ch: Chunk,
                      ghost before: seq<Write<T>>, ghost mem: seq<T>) returns (ghost tr: seq<Write<T>>)
    requires job.Valid() && 0 <= off && off + job.Size() <= buf.Length && |mem| == buf.Length
    requires IsChunk(ch, job.nc0, job.blk, job.H())
    requires InBounds(before, buf.Length) && buf[..] == Apply(mem, before)
    requires Packing(before, off, job, ch.colStart, 0, 0, 0)
    modifies buf
    ensures InBounds(tr, buf.Length) && buf[..] == Apply(mem, tr)
    ensures Packing(tr, off, job, ch.colStart + ch.cols, 0, 0, 0)
  {
    hide PanelPos, RoundUp, ChunkStart, ChunkSlot, ElemOffset, Packing;
    tr := before;
    ChunkIsNonEmpty(ch, job.nc0, job.blk, job.H());
    PackAdvance(tr, off, job, ch.colStart, 0, 0, 0, ch.colStart, ch.cols, 0);
    var kr := 0;
    while kr < job.kc0
      invariant 0 <= kr <= job.kc0
      invariant InBounds(tr, buf.Length) && buf[..] == Apply(mem, tr)
      invariant Packing(tr, off, job, ch.colStart, ch.cols, kr, 0)
    {
      var i := 0;
      while i < ch.cols
        invariant 0 <= i <= ch.cols
        invariant InBounds(tr, buf.Length) && buf[..] == Apply(mem, tr)
        invariant Packing(tr, off, job, ch.colStart, ch.cols, kr, i)
      {
        var src := kr * job.rs + (ch.colStart + i) * job.cs;
        var dst := ch.offset + ElemOffset(kr, i, ch.slot, job.blk.kf);
        DstIsPos(job, ch, kr, i);
        assert job.base + Addr(kr, ch.colStart + i, job.rs, job.cs) == job.base + src;
        PackStep(tr, off, job, ch.colStart, ch.cols, kr, i);
        buf[off + dst] := job.b[job.base + src];
        tr := Store(mem, tr, Write(off + dst, job.b[job.base + src]));
        i := i + 1;
      }
      PackAdvance(tr, off, job, ch.colStart, ch.cols, kr, i, ch.colStart, ch.cols, kr + 1);
      kr := kr + 1;
    }
    PackAdvance(tr, off, job, ch.colStart, ch.cols, job.kc0, 0, ch.colStart + ch.cols, 0, 0);
  }

  lemma ChunkIsNonEmpty(ch: Chunk, nc0: int, blk: Blocking, h: int)
    requires blk.Legal() && IsChunk(ch, nc0, blk, h)
    ensures 0 <= ch.colStart && 0 < ch.cols <= ch.slot && ch.colStart + ch.cols <= nc0
  {
    ChunkFacts(nc0, blk, ch.colStart);
  }

  /** The destination the loops compute is the layout's position. */
  lemma DstIsPos<T>(job: Job<T>, ch: Chunk, kr: int, i: int)
    requires job.Valid() && IsChunk(ch, job.nc0, job.blk, job.H()) && 0 <= i < ch.cols
    ensures ch.offset + ElemOffset(kr, i, ch.slot, job.blk.kf) == job.Pos(kr, ch.colStart + i)
    ensures ch.colStart + i < job.nc0 && 0 <= ch.colStart
  {
    hide RoundUp, ChunkStart, ChunkSlot, ElemOffset;
    ChunkSame(job.nc0, job.blk, ch.colStart, ch.colStart + i);
  }

  lemma PanelSizePositive<T>(job: Job<T>)
    requires job.Valid()
    ensures 0 < job.Size()
  {
    RoundUpFacts(job.nc0, job.blk.minNR);
    MulLe(1, PaddedCols(job.nc0, job.blk), job.H());
  }

  /** Strides under which the elements of a k x n window are distinct: what the leading-dimension checks of
      AOCL_DLP_UNREORDER_CHECK leave. */
  predicate Strides(rs: int, cs: int, k: int, n: int) {
    (cs == 1 && rs >= n) || (rs == 1 && cs >= k)
  }

  lemma AddrInjective(rs: int, cs: int, k: int, n: int, p: int, j: int, p': int, j': int)
    requires Strides(rs, cs, k, n) && 0 <= p < k && 0 <= p' < k && 0 <= j < n && 0 <= j' < n
    requires Addr(p, j, rs, cs) == Addr(p', j', rs, cs)
    ensures p == p' && j == j'
  {
    if cs == 1 && rs >= n {
      DivModUnique(p * rs + j, rs, p, j);
      DivModUnique(p * rs + j, rs, p', j');
    } else {
      DivModUnique(j * cs + p, cs, j, p);
      DivModUnique(j * cs + p, cs, j', p');
    }
  }

  /** One call of the unpacker. */
  datatype UnJob<T> = UnJob(packed: seq<T>, off: int, base: int, nc0: int, kc0: int, blk: Blocking, rs: int, cs: int) {
    function H(): int { RoundUp(kc0, blk.kf) }

    function Size(): int { PaddedCols(nc0, blk) * H() }

    predicate Valid() {
      && PanelDims(nc0, H(), blk) && 0 < kc0 <= H() && Strides(rs, cs, kc0, nc0)
      && 0 <= off && off + Size() <= |packed|
    }

    predicate Live(kr: int, c: int) { 0 <= kr < kc0 && 0 <= c < nc0 }

    function Target(kr: int, c: int): int { base + Addr(kr, c, rs, cs) }

    function Value(kr: int, c: int): T
      requires Valid() && Live(kr, c)
    {
      LiveInPanel(this, kr, c);
      packed[off + PanelPos(nc0, H(), blk, kr, c)]
    }

    ghost predicate Targets(x: int) { exists kr, c :: Live(kr, c) && x == Target(kr, c) }
  }

  lemma LiveInPanel<T>(job: UnJob<T>, kr: int, c: int)
    requires job.Valid() && job.Live(kr, c)
    ensures 0 <= PanelPos(job.nc0, job.H(), job.blk, kr, c) < job.Size()
  {
    RoundUpFacts(job.nc0, job.blk.minNR);
    PanelPosBounds(job.nc0, job.H(), job.blk, kr, c);
  }

  ghost predicate Unpacking<T>(tr: seq<Write<T>>, job: UnJob<T>, col: int, cols: int, row: int, i: int)
    requires job.Valid()
  {
    && (forall x :: Last(tr, x).Some? ==> job.Targets(x))
    && forall kr, c {:trigger job.Target(kr, c)} :: job.Live(kr, c) ==>
        Last(tr, job.Target(kr, c)) == if Copied(kr, c, col, cols, row, i) then Some(job.Value(kr, c)) else None
  }

  lemma UnpackStep<T>(tr: seq<Write<T>>, job: UnJob<T>, col: int, cols: int, row: int, i: int)
    requires job.Valid() && Unpacking(tr, job, col, cols, row, i)
    requires 0 <= row < job.kc0 && 0 <= i < cols && 0 <= col && col + cols <= job.nc0
    ensures Unpacking(tr + [Write(job.Target(row, col + i), job.Value(row, col + i))], job, col, cols, row, i + 1)
  {
    hide PanelPos, RoundUp;
    var w := Write(job.Target(row, col + i), job.Value(row, col + i));
    forall x | Last(tr + [w], x).Some? ensures job.Targets(x) {
      LastSnoc(tr, w, x);
      assert job.Live(row, col + i);
    }
    forall kr, c | job.Live(kr, c)
      ensures Last(tr + [w], job.Target(kr, c))
              == if Copied(kr, c, col, cols, row, i + 1) then Some(job.Value(kr, c)) else None
    {
      LastSnoc(tr, w, job.Target(kr, c));
      if job.Target(kr, c) == w.addr {
        AddrInjective(job.rs, job.cs, job.kc0, job.nc0, kr, c, row, col + i);
      }
    }
  }

  lemma UnpackAdvance<T>(tr: seq<Write<T>>, job: UnJob<T>,
                         col: int, cols: int, row: int, i: int, col': int, cols': int, row': int)
    requires job.Valid() && Unpacking(tr, job, col, cols, row, i)
    requires forall kr, c :: job.Live(kr, c) ==>
        (Copied(kr, c, col, cols, row, i) <==> Copied(kr, c, col', cols', row', 0))
    ensures Unpacking(tr, job, col', cols', row', 0)
  {
  }

  /** `dlp_reorder_ref_unpackb`: the same walk with source and destination exchanged; padding is not read. */
  method UnpackPanel<T>(out: array<T>, job: UnJob<T>) returns (ghost tr: seq<Write<T>>)
    requires job.Valid()
    requires forall kr, c :: job.Live(kr, c) ==> 0 <= job.Target(kr, c) < out.Length
    modifies out
    ensures InBounds(tr, out.Length) && out[..] == Apply(old(out[..]), tr)
    ensures Unpacking(tr, job, job.nc0, 0, 0, 0)
  {
    hide PanelPos, RoundUp, ChunkStart, ChunkSlot, Unpacking, IsChunk, ChunkNext;
    var blk, h := job.blk, job.H();
    tr := [];
    UnpackStart(job);
    var (more, ch) := ChunkNext(Chunk(0, 0, 0, 0), job.nc0, blk.NR, blk.minNR, h);
    FirstChunk(job.nc0, blk, h);
    while more
      invariant more ==> IsChunk(ch, job.nc0, blk, h)
      invariant InBounds(tr, out.Length) && out[..] == Apply(old(out[..]), tr)
      invariant Unpacking(tr, job, if more then ch.colStart else job.nc0, 0, 0, 0)
      decreases if more then job.nc0 - ch.colStart else -1
    {
      tr := UnpackChunk(out, job, ch, tr, old(out[..]));
      ChunkIsNonEmpty(ch, job.nc0, blk, h);
      NextChunk(ch, job.nc0, blk, h);
      var step := ChunkNext(ch, job.nc0, blk.NR, blk.minNR, h);
      more, ch := step.0, step.1;
    }
  }

  lemma UnpackStart<T>(job: UnJob<T>)
    requires job.Valid()
    ensures Unpacking([], job, 0, 0, 0, 0)
  {
  }

  method UnpackChunk<T>(out: array<T>, job: UnJob<T>, ch: Chunk,
                        ghost before: seq<Write<T>>, ghost mem: seq<T>) returns (ghost tr: seq<Write<T>>)
    requires job.Valid() && IsChunk(ch, job.nc0, job.blk, job.H()) && |mem| == out.Length
    requires forall kr, c :: job.Live(kr, c) ==> 0 <= job.Target(kr, c) < out.Length
    requires InBounds(before, out.Length) && out[..] == Apply(mem, before)
    requires Unpacking(before, job, ch.colStart, 0, 0, 0)
    modifies out
    ensures InBounds(tr, out.Length) && out[..] == Apply(mem, tr)
    ensures Unpacking(tr, job, ch.colStart + ch.cols, 0, 0, 0)
  {
    hide PanelPos, RoundUp, ChunkStart, ChunkSlot, ElemOffset, Unpacking, IsChunk;
    tr := before;
    ChunkIsNonEmpty(ch, job.nc0, job.blk, job.H());
    UnpackAdvance(tr, job, ch.colStart, 0, 0, 0, ch.colStart, ch.cols, 0);
    var kr := 0;
    while kr < job.kc0
      invariant 0 <= kr <= job.kc0
      invariant InBounds(tr, out.Length) && out[..] == Apply(mem, tr)
      invariant Unpacking(tr, job, ch.colStart, ch.cols, kr, 0)
    {
      var i := 0;
      while i < ch.cols
        invariant 0 <= i <= ch.cols
        invariant InBounds(tr, out.Length) && out[..] == Apply(mem, tr)
        invariant Unpacking(tr, job, ch.colStart, ch.cols, kr, i)
      {
        var dst := kr * job.rs + (ch.colStart + i) * job.cs;
        var src := ch.offset + ElemOffset(kr, i, ch.slot, job.blk.kf);
        SrcIsPos(job, ch, kr, i);
        assert job.Live(kr, ch.colStart + i) && job.base + dst == job.Target(kr, ch.colStart + i);
        UnpackStep(tr, job, ch.colStart, ch.cols, kr, i);
        out[job.base + dst] := job.packed[job.off + src];
        tr := Store(mem, tr, Write(job.base + dst, job.packed[job.off + src]));
        i := i + 1;
      }
      UnpackAdvance(tr, job, ch.colStart, ch.cols, kr, i, ch.colStart, ch.cols, kr + 1);
      kr := kr + 1;
    }
    UnpackAdvance(tr, job, ch.colStart, ch.cols, job.kc0, 0, ch.colStart + ch.cols, 0, 0);
  }

  lemma SrcIsPos<T>(job: UnJob<T>, ch: Chunk, kr: int, i: int)
    requires job.Valid() && IsChunk(ch, job.nc0, job.blk, job.H()) && 0 <= i < ch.cols && 0 <= kr < job.kc0
    ensures job.Live(kr, ch.colStart + i)
    ensures 0 <= ch.offset + ElemOffset(kr, i, ch.slot, job.blk.kf) < job.Size()
    ensures job.packed[job.off + ch.offset + ElemOffset(kr, i, ch.slot, job.blk.kf)] == job.Value(kr, ch.colStart + i)
  {
    hide RoundUp, ChunkStart, ChunkSlot, ElemOffset;
    ChunkIsNonEmpty(ch, job.nc0, job.blk, job.H());
    ChunkSame(job.nc0, job.blk, ch.colStart, ch.colStart + i);
    LiveInPanel(job, kr, ch.colStart + i);
  }
}
