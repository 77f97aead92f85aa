/** Packing a K panel of a grouped int8 B group by group, with the column sums the quantised kernels compensate by. */
module GroupedPack {
  import opened Arith
  import opened Traces
  import opened PanelLayout
  import opened PanelPack
  import opened ReorderWalk
  import opened Words
  import opened ColumnWords
  import opened GroupedSums
  import opened GroupedTraces

  /** Rows [r, r + h) of columns [j0, j0 + w), as one call of the packing kernel. */
  function SubJob(B: Matrix<Byte>, blk: Blocking, r: int, h: int, j0: int, w: int): Job<Byte> {
    Job(B.mem, B.rs * r + B.cs * j0, B.zero, w, h, blk, B.rs, B.cs)
  }

  /** The buffer in two parts: weights below size, written by a trace, and the table of sums behind them. */
  ghost predicate InParts(buf: seq<Byte>, mem: seq<Byte>, size: int, tr: seq<Write<Byte>>, vals: seq<int>) {
    && 0 <= size <= |mem| == |buf| && InBounds(tr, size)
    && buf[..size] == Apply(mem[..size], tr) && Tabled(buf[size..], mem[size..], 0, vals)
  }

  /** A weight call: the trace grows, the table stays. */
  lemma WeightsWritten(buf: seq<Byte>, here: seq<Byte>, mem: seq<Byte>, size: int, tr: seq<Write<Byte>>,
                       part: seq<Write<Byte>>, vals: seq<int>, off: int, job: Job<Byte>)
    requires InParts(here, mem, size, tr, vals) && job.Valid() && Packed(part, off, job)
    requires 0 <= off && off + job.Size() <= size && InBounds(part, |here|) && buf == Apply(here, part)
    ensures InParts(buf, mem, size, tr + part, vals) && InBounds(part, size)
  {
    hide Packed, Tabled;
    PackedInBounds(part, off, job, size);
    ApplyPrefix(here, part, size);
    ApplyConcat(mem[..size], tr, part);
  }

  lemma PackedInBounds(part: seq<Write<Byte>>, off: int, job: Job<Byte>, size: int)
    requires job.Valid() && Packed(part, off, job) && 0 <= off && off + job.Size() <= size
    ensures InBounds(part, size)
  {
    forall i | 0 <= i < |part| ensures 0 <= part[i].addr < size {
      LastNone(part, part[i].addr);
    }
  }

  lemma SumHeld(here: seq<Byte>, mem: seq<Byte>, size: int, tr: seq<Write<Byte>>, vals: seq<int>, i: int)
    requires InParts(here, mem, size, tr, vals) && 0 <= i < |vals|
    ensures 0 <= size + 4 * i && size + 4 * i + 4 <= |here| && Load32(here, size + 4 * i) == Wrap32(vals[i])
  {
    hide WordByte, Wrap32;
    EntryAt(here[size..], mem[size..], 0, vals, i);
  }

  /** A word of the table rewritten: the weights stay. */
  lemma SumWritten(here: seq<Byte>, mem: seq<Byte>, size: int, tr: seq<Write<Byte>>, vals: seq<int>, i: int, v: int,
                   w: int)
    requires InParts(here, mem, size, tr, vals) && 0 <= i < |vals| && SameWord(v, w)
    ensures size + 4 * i + 4 <= |here|
    ensures InParts(PutWord(here, size + 4 * i, v), mem, size, tr, vals[i := w])
  {
    hide WordByte, SameWord, Wrap32;
    var there := PutWord(here, size + 4 * i, v);
    assert there[..size] == here[..size];
    assert there[size..] == PutWord(here[size..], 4 * i, v);
    PutEntry(here[size..], mem[size..], 0, vals, i, v);
    SameEntry(there[size..], mem[size..], 0, vals[i := v], i, w);
    assert vals[i := v][i := w] == vals[i := w];
  }

  /** The packing kernel: lays its block out, zero-padded, and adds 128 times the sum of each column to that
      column's slot. */
  method PackKernel(buf: array<Byte>, off: int, size: int, at: int, B: Matrix<Byte>, blk: Blocking, r: int, h: int,
                    j0: int, w: int, ghost N: int, ghost mem: seq<Byte>, ghost before: seq<Write<Byte>>,
                    ghost vals: seq<int>) returns (ghost part: seq<Write<Byte>>, ghost all: seq<Write<Byte>>)
    requires SubJob(B, blk, r, h, j0, w).Valid() && 0 <= off && off + SubJob(B, blk, r, h, j0, w).Size() <= size
    requires InParts(buf[..], mem, size, before, vals) && 0 <= at && at + w <= |vals| && N > 0 && at % N + w <= N
    modifies buf
    ensures InParts(buf[..], mem, size, before + part, Added(vals, B, at, j0, w, r, h))
    ensures Packed(part, off, SubJob(B, blk, r, h, j0, w))
    ensures Did(all, buf[..], old(buf[..]), part, Table(size, N, |vals|), at % N, at % N + w)
  {
    hide InParts, Packed, RowSum, Addr, RoundUp, Added, Did;
    var job := SubJob(B, blk, r, h, j0, w);
    PartsShape(buf[..], mem, size, before, vals);
    ghost var here := buf[..];
    part := PackPanel(buf, off, job);
    WeightsWritten(buf[..], here, mem, size, before, part, vals, off, job);
    DidPack(buf[..], here, part, off, job, Table(size, N, |vals|), at % N, at % N + w);
    ghost var packed := buf[..];
    ghost var added := AddSums(buf, size, at, B, blk, r, h, j0, w, N, mem, before + part, vals);
    all := part + added;
    DidMore(part, added, buf[..], packed, here, part, [], Table(size, N, |vals|), at % N, at % N, at % N + w,
            at % N + w);
    assert part + [] == part;
  }

  /** What a packing kernel adds to the table: for each of its columns, 128 times the sum over its rows. */
  method AddSums(buf: array<Byte>, size: int, at: int, B: Matrix<Byte>, blk: Blocking, r: int, h: int, j0: int, w: int,
                 ghost N: int, ghost mem: seq<Byte>, ghost tr: seq<Write<Byte>>, ghost vals: seq<int>)
    returns (ghost all: seq<Write<Byte>>)
    requires SubJob(B, blk, r, h, j0, w).Valid() && N > 0 && at % N + w <= N
    requires InParts(buf[..], mem, size, tr, vals) && 0 <= at && at + w <= |vals|
    modifies buf
    ensures InParts(buf[..], mem, size, tr, Added(vals, B, at, j0, w, r, h))
    ensures Did(all, buf[..], old(buf[..]), [], Table(size, N, |vals|), at % N, at % N + w)
  {
    hide InParts, RowSum, Addr, Wrap32, SameWord, RoundUp, Did;
    PartsShape(buf[..], mem, size, tr, vals);
    ghost var now := vals;
    all := [];
    DidNothing(buf[..], Table(size, N, |vals|), at % N, at % N + w);
    assert now == Added(vals, B, at, j0, 0, r, h);
    var c := 0;
    while c < w
      invariant 0 <= c <= w && buf.Length == |mem|
      invariant now == Added(vals, B, at, j0, c, r, h) && InParts(buf[..], mem, size, tr, now)
      invariant Did(all, buf[..], old(buf[..]), [], Table(size, N, |vals|), at % N, at % N + w)
    {
      var acc := SumRows(B, blk, r, h, j0, w, c);
      SlotColumn(at, c, w, N);
      ghost var here, more := buf[..], [];
      now, more := AddToSlot(buf, size, at + c, acc, N, mem, tr, now, RowSum(B, j0 + c, r, r + h));
      DidMore(all, more, buf[..], here, old(buf[..]), [], [], Table(size, N, |vals|), at % N, at % N + c,
              at % N + c + 1, at % N + w);
      all := all + more;
      NoWeights();
      c := c + 1;
      assert now == Added(vals, B, at, j0, c, r, h);
    }
  }

  lemma NoWeights()
    ensures var none: seq<Write<Byte>> := []; none + none == none
  {
  }

  /** The update of one slot. */
  method AddToSlot(buf: array<Byte>, size: int, i: int, acc: int, ghost N: int, ghost mem: seq<Byte>,
                   ghost tr: seq<Write<Byte>>, ghost vals: seq<int>, ghost sum: int)
    returns (ghost now: seq<int>, ghost all: seq<Write<Byte>>)
    requires InParts(buf[..], mem, size, tr, vals) && 0 <= i < |vals| && acc == Wrap32(sum) && N > 0
    modifies buf
    ensures now == vals[i := vals[i] + 128 * sum] && InParts(buf[..], mem, size, tr, now)
    ensures Did(all, buf[..], old(buf[..]), [], Table(size, N, |vals|), i % N, i % N + 1)
  {
    hide InParts, Wrap32, SameWord, PutWord, Load32, Did;
    PartsShape(buf[..], mem, size, tr, vals);
    SumHeld(buf[..], mem, size, tr, vals, i);
    var word := Load32(buf[..], size + 4 * i);
    WordSum(word, vals[i], acc, sum);
    SumWritten(buf[..], mem, size, tr, vals, i, Wrap32(word + 128 * acc), vals[i] + 128 * sum);
    DidStore(buf[..], Table(size, N, |vals|), i, Wrap32(word + 128 * acc));
    all := WordWrites(size + 4 * i, Wrap32(word + 128 * acc));
    Store32(buf, size + 4 * i, Wrap32(word + 128 * acc));
    now := vals[i := vals[i] + 128 * sum];
  }

  lemma PartsShape(buf: seq<Byte>, mem: seq<Byte>, size: int, tr: seq<Write<Byte>>, vals: seq<int>)
    requires InParts(buf, mem, size, tr, vals)
    ensures 0 <= size && size + 4 * |vals| <= |mem| == |buf| && InBounds(tr, size)
  {
  }

  /** Wrapping the parts of a sum first does not change the stored word. */
  lemma WordSum(word: int, was: int, acc: int, sum: int)
    requires word == Wrap32(was) && acc == Wrap32(sum)
    ensures SameWord(Wrap32(word + 128 * acc), was + 128 * sum)
  {
    hide Wrap32, SameWord;
    WrapIsSame(was);
    WrapIsSame(sum);
    ScaleSame(acc, sum);
    SumSame(word, was, 128 * acc, 128 * sum);
    WrapIsSame(word + 128 * acc);
    SameTrans(Wrap32(word + 128 * acc), word + 128 * acc, was + 128 * sum);
  }

  /** One column's int32 sum over the rows of a kernel call. */
  method SumRows(B: Matrix<Byte>, blk: Blocking, r: int, h: int, j0: int, w: int, c: int) returns (acc: int)
    requires SubJob(B, blk, r, h, j0, w).Valid() && 0 <= c < w
    ensures acc == Wrap32(RowSum(B, j0 + c, r, r + h))
  {
    hide Addr, RowSum, Wrap32, SameWord;
    acc := 0;
    NoRows(B, j0 + c, r);
    var kr := 0;
    while kr < h
      invariant 0 <= kr <= h && acc == Wrap32(RowSum(B, j0 + c, r, r + kr))
    {
      OneRow(B, blk, r, h, j0, w, c, kr);
      acc := Wrap32(acc + FromByte(B.mem[B.rs * r + B.cs * j0 + (kr * B.rs + c * B.cs)]));
      kr := kr + 1;
    }
  }

  lemma NoRows(B: Matrix<Byte>, j: int, r: int)
    ensures Wrap32(RowSum(B, j, r, r)) == 0
  {
  }

  lemma OneRow(B: Matrix<Byte>, blk: Blocking, r: int, h: int, j0: int, w: int, c: int, kr: int)
    requires SubJob(B, blk, r, h, j0, w).Valid() && 0 <= c < w && 0 <= kr < h
    ensures 0 <= B.rs * r + B.cs * j0 + (kr * B.rs + c * B.cs) < |B.mem|
    ensures Wrap32(Wrap32(RowSum(B, j0 + c, r, r + kr)) +
                   FromByte(B.mem[B.rs * r + B.cs * j0 + (kr * B.rs + c * B.cs)]))
            == Wrap32(RowSum(B, j0 + c, r, r + kr + 1))
  {
    hide Wrap32, SameWord, Addr;
    var sum := RowSum(B, j0 + c, r, r + kr);
    PlainAddr(kr, c, B.rs, B.cs);
    AddrShift(r + kr, j0 + c, r, j0, B.rs, B.cs);
    WrapIsSame(sum);
    AddSame(Wrap32(sum), sum, Elem(B, r + kr, j0 + c));
    SameBytes(Wrap32(sum) + Elem(B, r + kr, j0 + c), RowSum(B, j0 + c, r, r + kr + 1));
  }
}
