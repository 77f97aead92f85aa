/** The same walk in the other direction: reading the reordered buffer back into a strided matrix. */
module UnreorderWalk {
  import opened Arith
  import opened PanelLayout
  import opened BlockedLayout
  import opened Traces
  import opened ThreadRange
  import opened PanelPack
  import opened ReorderWalk

  /** A k x n window of the caller's output, inside `len` elements of memory. */
  ghost predicate Window(s: Shape, rs: int, cs: int, len: int) {
    && Strides(rs, cs, s.k, s.n)
    && forall p, j :: s.Live(p, j) ==> 0 <= Addr(p, j, rs, cs) < len
  }

  lemma LiveHasPos(s: Shape, p: int, j: int)
    requires s.Valid() && s.Live(p, j)
    ensures s.Padded(p, j) && 0 <= Pos(s, p, j) < s.Size()
  {
    hide Pos, RoundUp;
    RoundUpFacts(s.k, s.blk.kf);
    RoundUpFacts(s.n, s.blk.minNR);
    CellOfPos(s, p, j);
  }

  /** The element the reordered buffer holds for (p, j). */
  function Stored<T>(s: Shape, packed: seq<T>, p: int, j: int): T
    requires s.Valid() && s.Live(p, j) && s.Size() <= |packed|
  {
    LiveHasPos(s, p, j);
    packed[Pos(s, p, j)]
  }

  /** The trace writes only addresses of the window, and of the block of nc0 columns from jc on the rows
      before pc; every column in [lo, jc) is done. */
  ghost predicate UnpackedPart<T>(tr: seq<Write<T>>, s: Shape, packed: seq<T>, rs: int, cs: int,
                                  lo: int, jc: int, nc0: int, pc: int)
    requires s.Valid() && s.Size() <= |packed|
  {
    && (forall x :: Last(tr, x).Some? ==> exists p, j :: s.Live(p, j) && x == Addr(p, j, rs, cs))
    && forall p, j {:trigger Addr(p, j, rs, cs)} :: s.Live(p, j) ==>
        Last(tr, Addr(p, j, rs, cs))
        == if lo <= j < jc || (jc <= j < jc + nc0 && p < pc) then Some(Stored(s, packed, p, j)) else None
  }

  function BlockUnJob<T>(s: Shape, packed: seq<T>, rs: int, cs: int, jc: int, nc0: int, pc: int): UnJob<T>
    requires s.Valid()
  {
    UnJob(packed, BlockOffset(s, jc, pc), rs * pc + cs * jc, nc0, Min(s.k - pc, s.blk.KC), s.blk, rs, cs)
  }

  lemma BlockUnJobValid<T>(s: Shape, packed: seq<T>, rs: int, cs: int, len: int, jc: int, nc0: int, pc: int)
    requires ThreadBlock(s, jc, nc0, pc) && Window(s, rs, cs, len) && s.Size() <= |packed|
    ensures var job := BlockUnJob(s, packed, rs, cs, jc, nc0, pc);
      && job.Valid() && job.H() == BlockRows(s, pc)
      && forall kr, c :: job.Live(kr, c) ==> 0 <= job.Target(kr, c) < len
  {
    hide Floor, RoundUp, Addr, BlockOffset;
    RowsOfBlock(s, pc);
    BlockInBounds(s, jc, nc0, pc);
    var job := BlockUnJob(s, packed, rs, cs, jc, nc0, pc);
    forall kr, c | job.Live(kr, c) ensures 0 <= job.Target(kr, c) < len {
      AddrShift(pc + kr, jc + c, pc, jc, rs, cs);
    }
  }

  /** A block cell's target and value are those of the matrix cell. */
  lemma UnBlockCell<T>(s: Shape, packed: seq<T>, rs: int, cs: int, len: int,
                       jc: int, nc0: int, pc: int, kr: int, c: int)
    requires ThreadBlock(s, jc, nc0, pc) && Window(s, rs, cs, len) && s.Size() <= |packed|
    requires BlockUnJob(s, packed, rs, cs, jc, nc0, pc).Valid()
    requires BlockUnJob(s, packed, rs, cs, jc, nc0, pc).Live(kr, c)
    ensures s.Live(pc + kr, jc + c)
    ensures BlockUnJob(s, packed, rs, cs, jc, nc0, pc).Target(kr, c) == Addr(pc + kr, jc + c, rs, cs)
    ensures BlockUnJob(s, packed, rs, cs, jc, nc0, pc).Value(kr, c) == Stored(s, packed, pc + kr, jc + c)
  {
    hide Floor, RoundUp, Addr, BlockOffset, Pos, PanelPos;
    RowsOfBlock(s, pc);
    RoundUpFacts(nc0, s.blk.minNR);
    AddrShift(pc + kr, jc + c, pc, jc, rs, cs);
    MidPanelStart(s, jc, nc0, pc, kr, c);
  }

  lemma UnBlockDone<T>(tr: seq<Write<T>>, part: seq<Write<T>>, s: Shape, packed: seq<T>, rs: int, cs: int,
                       len: int, lo: int, jc: int, nc0: int, pc: int)
    requires ThreadBlock(s, jc, nc0, pc) && lo <= jc && Window(s, rs, cs, len) && s.Size() <= |packed|
    requires UnpackedPart(tr, s, packed, rs, cs, lo, jc, nc0, pc)
    requires BlockUnJob(s, packed, rs, cs, jc, nc0, pc).Valid()
    requires Unpacking(part, BlockUnJob(s, packed, rs, cs, jc, nc0, pc), nc0, 0, 0, 0)
    ensures UnpackedPart(tr + part, s, packed, rs, cs, lo, jc, nc0, pc + s.blk.KC)
  {
    hide Floor, RoundUp, Addr, BlockOffset, Pos, PanelPos;
    var job := BlockUnJob(s, packed, rs, cs, jc, nc0, pc);
    RowsOfBlock(s, pc);
    forall x | Last(tr + part, x).Some? ensures exists p, j :: s.Live(p, j) && x == Addr(p, j, rs, cs) {
      LastConcat(tr, part, x);
      if Last(part, x).Some? {
        var kr, c :| job.Live(kr, c) && x == job.Target(kr, c);
        UnBlockCell(s, packed, rs, cs, len, jc, nc0, pc, kr, c);
      }
    }
    forall p, j | s.Live(p, j)
      ensures Last(tr + part, Addr(p, j, rs, cs))
              == if lo <= j < jc || (jc <= j < jc + nc0 && p < pc + s.blk.KC)
                 then Some(Stored(s, packed, p, j)) else None
    {
      var x := Addr(p, j, rs, cs);
      LastConcat(tr, part, x);
      if pc <= p < pc + s.blk.KC && jc <= j < jc + nc0 {
        UnBlockCell(s, packed, rs, cs, len, jc, nc0, pc, p - pc, j - jc);
        assert Last(part, job.Target(p - pc, j - jc)) == Some(job.Value(p - pc, j - jc));
      } else if Last(part, x).Some? {
        var kr, c :| job.Live(kr, c) && x == job.Target(kr, c);
        UnBlockCell(s, packed, rs, cs, len, jc, nc0, pc, kr, c);
        AddrInjective(rs, cs, s.k, s.n, p, j, pc + kr, jc + c);
        assert false;
      }
    }
  }

  /** The JC and PC loops of one thread of an un-reorder, over the columns [lo, hi). */
  method UnreorderThread<T>(out: array<T>, s: Shape, packed: seq<T>, rs: int, cs: int, lo: int, hi: int)
    returns (ghost tr: seq<Write<T>>)
    requires s.Valid() && Window(s, rs, cs, out.Length) && s.Size() <= |packed|
    requires Slice(lo, hi, s.n, s.blk.NR)
    modifies out
    ensures InBounds(tr, out.Length) && out[..] == Apply(old(out[..]), tr)
    ensures UnpackedPart(tr, s, packed, rs, cs, lo, hi, 0, 0)
  {
    hide Floor, RoundUp, UnpackedPart, ThreadBlock, BlockRows, PanelWidth, Window;
    var blk := s.blk;
    tr := [];
    NothingUnpacked(s, packed, rs, cs, lo);
    var jc := lo;
    while jc < hi
      invariant lo <= jc && (jc == lo || jc % blk.NC == 0)
      invariant InBounds(tr, out.Length) && out[..] == Apply(old(out[..]), tr)
      invariant UnpackedPart(tr, s, packed, rs, cs, lo, Min(jc, hi), 0, 0)
      decreases hi - jc
    {
      var (start, rem, nc0) := PanelClip(jc, blk.NC, Min(hi - jc, blk.NC));
      ClipIsBlock(s, lo, hi, jc, 0);
      tr := UnreorderColumns(out, s, packed, rs, cs, lo, jc, nc0, tr, old(out[..]));
      jc := start;
      jc := jc + blk.NC;
    }
  }

  method UnreorderColumns<T>(out: array<T>, s: Shape, packed: seq<T>, rs: int, cs: int, ghost lo: int,
                             jc: int, nc0: int, ghost before: seq<Write<T>>, ghost mem: seq<T>)
    returns (ghost tr: seq<Write<T>>)
    requires s.Valid() && Window(s, rs, cs, out.Length) && s.Size() <= |packed| && |mem| == out.Length
    requires ThreadBlock(s, jc, nc0, 0) && 0 <= lo <= jc
    requires InBounds(before, out.Length) && out[..] == Apply(mem, before)
    requires UnpackedPart(before, s, packed, rs, cs, lo, jc, 0, 0)
    modifies out
    ensures InBounds(tr, out.Length) && out[..] == Apply(mem, tr)
    ensures UnpackedPart(tr, s, packed, rs, cs, lo, jc + nc0, 0, 0)
  {
    hide Floor, RoundUp, UnpackedPart, Unpacking, BlockRows, PanelWidth, Window;
    var blk := s.blk;
    var start := Floor(jc, blk.NC);
    var width := PanelWidth(jc, s.n, blk.NC, blk.minNR);
    tr := before;
    UnpackedRelabel(tr, s, packed, rs, cs, lo, jc, 0, 0, jc, nc0, 0);
    var pc := 0;
    while pc < s.k
      invariant 0 <= pc && pc % blk.KC == 0
      invariant InBounds(tr, out.Length) && out[..] == Apply(mem, tr)
      invariant UnpackedPart(tr, s, packed, rs, cs, lo, jc, nc0, pc)
      decreases s.k - pc
    {
      BlockUnJobValid(s, packed, rs, cs, out.Length, jc, nc0, pc);
      var kc0 := Min(s.k - pc, blk.KC);
      var off := start * s.KPad() + width * pc + (jc - start) * RoundUp(kc0, blk.kf);
      var job := UnJob(packed, off, rs * pc + cs * jc, nc0, kc0, blk, rs, cs);
      assert job == BlockUnJob(s, packed, rs, cs, jc, nc0, pc) by { OffsetIs(s, jc, pc); }
      ghost var part := UnpackPanel(out, job);
      UnBlockDone(tr, part, s, packed, rs, cs, out.Length, lo, jc, nc0, pc);
      ApplyConcat(mem, tr, part);
      tr := tr + part;
      MulMod(1, blk.KC);
      MultAdd(pc, blk.KC, blk.KC);
      pc := pc + blk.KC;
    }
    UnpackedRelabel(tr, s, packed, rs, cs, lo, jc, nc0, pc, jc + nc0, 0, 0);
  }

  lemma OffsetIs(s: Shape, jc: int, pc: int)
    requires s.Valid()
    ensures BlockOffset(s, jc, pc)
            == Floor(jc, s.blk.NC) * s.KPad() + PanelWidth(jc, s.n, s.blk.NC, s.blk.minNR) * pc
               + (jc - Floor(jc, s.blk.NC)) * RoundUp(Min(s.k - pc, s.blk.KC), s.blk.kf)
  {
    hide Floor, RoundUp, PanelWidth;
  }

  lemma NothingUnpacked<T>(s: Shape, packed: seq<T>, rs: int, cs: int, lo: int)
    requires s.Valid() && s.Size() <= |packed|
    ensures UnpackedPart([], s, packed, rs, cs, lo, lo, 0, 0)
  {
  }

  lemma UnpackedRelabel<T>(tr: seq<Write<T>>, s: Shape, packed: seq<T>, rs: int, cs: int, lo: int,
                           jc: int, nc0: int, pc: int, jc': int, nc0': int, pc': int)
    requires s.Valid() && s.Size() <= |packed| && UnpackedPart(tr, s, packed, rs, cs, lo, jc, nc0, pc)
    requires forall p, j :: s.Live(p, j) ==>
        ((lo <= j < jc || (jc <= j < jc + nc0 && p < pc))
         <==> (lo <= j < jc' || (jc' <= j < jc' + nc0' && p < pc')))
    ensures UnpackedPart(tr, s, packed, rs, cs, lo, jc', nc0', pc')
  {
    hide Pos;
  }
}
