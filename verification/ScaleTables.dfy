/** Transposing a table of scale factors held as raw bytes. */
module ScaleTables {
  import opened Arith

  /** Bytes of a rows x cols table of es-byte elements. */
  function Bytes(rows: int, cols: int, es: int): int {
    rows * cols * es
  }

  /** Byte t of element (r, c) in a table of cols columns. */
  function ByteAt(r: int, c: int, t: int, cols: int, es: int): int {
    (r * cols + c) * es + t
  }

  /** Row, column and byte of an offset into a table of cols columns. */
  function CellOf(x: int, cols: int, es: int): (int, int, int)
    requires cols > 0 && es > 0
  {
    ((x / es) / cols, (x / es) % cols, x % es)
  }

  predicate Dims(rows: int, cols: int, es: int) { rows > 0 && cols > 0 && es > 0 }

  lemma BytesFacts(rows: int, cols: int, es: int)
    requires Dims(rows, cols, es)
    ensures Bytes(rows, cols, es) == Bytes(cols, rows, es) > 0
  {
    MulLe(1, rows, cols);
    MulLe(1, rows * cols, es);
  }

  lemma CellOfByte(rows: int, cols: int, es: int, r: int, c: int, t: int)
    requires Dims(rows, cols, es) && 0 <= r < rows && 0 <= c < cols && 0 <= t < es
    ensures 0 <= ByteAt(r, c, t, cols, es) < Bytes(rows, cols, es)
    ensures CellOf(ByteAt(r, c, t, cols, es), cols, es) == (r, c, t)
  {
    TwoDigits(r, rows, cols, c);
    TwoDigits(r * cols + c, rows * cols, es, t);
    DivModUnique(ByteAt(r, c, t, cols, es), es, r * cols + c, t);
    DivModUnique(r * cols + c, cols, r, c);
  }

  lemma ByteOfCell(rows: int, cols: int, es: int, x: int)
    requires Dims(rows, cols, es) && 0 <= x < Bytes(rows, cols, es)
    ensures var (r, c, t) := CellOf(x, cols, es);
      0 <= r < rows && 0 <= c < cols && 0 <= t < es && ByteAt(r, c, t, cols, es) == x
  {
    DivBetween(x, es, 0, rows * cols);
    DivBetween(x / es, cols, 0, rows);
  }

  /** Where byte x of the transpose comes from: x lies in a table of cols rows and rows columns. */
  function SourceByte(x: int, rows: int, cols: int, es: int): (y: int)
    requires Dims(rows, cols, es) && 0 <= x < Bytes(rows, cols, es)
    ensures 0 <= y < Bytes(rows, cols, es)
  {
    var (c, r, t) := CellOf(x, rows, es);
    BytesFacts(rows, cols, es);
    ByteOfCell(cols, rows, es, x);
    CellOfByte(rows, cols, es, r, c, t);
    ByteAt(r, c, t, cols, es)
  }

  /** The transposed table. */
  function Transposed<T>(src: seq<T>, rows: int, cols: int, es: int): (dst: seq<T>)
    requires Dims(rows, cols, es) && |src| >= Bytes(rows, cols, es)
    ensures |dst| == Bytes(rows, cols, es)
  {
    BytesFacts(rows, cols, es);
    seq(Bytes(rows, cols, es), x requires 0 <= x < Bytes(rows, cols, es) => src[SourceByte(x, rows, cols, es)])
  }

  /** Element (c, r) of the transpose is element (r, c) of the source, byte for byte, for any element size. */
  lemma TransposedAt<T>(src: seq<T>, rows: int, cols: int, es: int, r: int, c: int, t: int)
    requires Dims(rows, cols, es) && |src| >= Bytes(rows, cols, es)
    requires 0 <= r < rows && 0 <= c < cols && 0 <= t < es
    ensures 0 <= ByteAt(r, c, t, cols, es) < |src| && 0 <= ByteAt(c, r, t, rows, es) < Bytes(rows, cols, es)
    ensures Transposed(src, rows, cols, es)[ByteAt(c, r, t, rows, es)] == src[ByteAt(r, c, t, cols, es)]
  {
    hide ByteAt, Bytes, CellOf;
    BytesFacts(rows, cols, es);
    CellOfByte(rows, cols, es, r, c, t);
    CellOfByte(cols, rows, es, c, r, t);
  }

  /** Every byte the transposition moves lies in a source of len bytes. */
  ghost predicate MovesWithin(len: int, rows: int, cols: int, es: int) {
    forall r, c, t {:trigger ByteAt(r, c, t, cols, es)} ::
      0 <= r < rows && 0 <= c < cols && 0 <= t < es ==> 0 <= ByteAt(r, c, t, cols, es) < len
  }

  lemma MovesWithinIff(len: int, rows: int, cols: int, es: int)
    requires Dims(rows, cols, es)
    ensures MovesWithin(len, rows, cols, es) <==> len >= Bytes(rows, cols, es)
  {
    hide ByteAt, Bytes, CellOf;
    BytesFacts(rows, cols, es);
    var last := Bytes(rows, cols, es) - 1;
    ByteOfCell(rows, cols, es, last);
    var (r, c, t) := CellOf(last, cols, es);
    assert ByteAt(r, c, t, cols, es) == last;
    forall r, c, t | 0 <= r < rows && 0 <= c < cols && 0 <= t < es
      ensures 0 <= ByteAt(r, c, t, cols, es) < Bytes(rows, cols, es)
    {
      CellOfByte(rows, cols, es, r, c, t);
    }
  }

  /** Transposing back with the dimensions exchanged is the identity. */
  lemma TransposeTwice<T>(src: seq<T>, rows: int, cols: int, es: int)
    requires Dims(rows, cols, es) && |src| == Bytes(rows, cols, es)
    ensures |Transposed(src, rows, cols, es)| == Bytes(cols, rows, es)
    ensures Transposed(Transposed(src, rows, cols, es), cols, rows, es) == src
  {
    hide ByteAt, Bytes, CellOf, SourceByte;
    BytesFacts(rows, cols, es);
    var there := Transposed(src, rows, cols, es);
    forall x | 0 <= x < |src| ensures Transposed(there, cols, rows, es)[x] == src[x] {
      ByteOfCell(rows, cols, es, x);
      var (r, c, t) := CellOf(x, cols, es);
      TransposedAt(src, rows, cols, es, r, c, t);
      TransposedAt(there, cols, rows, es, c, r, t);
    }
  }

  /** Row-by-row progress: the elements of rows before r, and of row r before column c, have been moved. */
  predicate Reached(x: int, rows: int, cols: int, es: int, r: int, c: int)
    requires Dims(rows, cols, es)
  {
    var (c', r', t) := CellOf(x, rows, es);
    r' < r || (r' == r && c' < c)
  }

  ghost predicate Moved<T>(dst: seq<T>, writes: seq<nat>, src: seq<T>, rows: int, cols: int, es: int, r: int, c: int)
    requires Dims(rows, cols, es) && |src| >= Bytes(rows, cols, es)
  {
    && |writes| == |dst| && |dst| >= Bytes(rows, cols, es)
    && forall x {:trigger writes[x]} :: 0 <= x < |dst| ==>
        if x < Bytes(rows, cols, es) && Reached(x, rows, cols, es, r, c) then
          writes[x] == 1 && dst[x] == Transposed(src, rows, cols, es)[x]
        else writes[x] == 0
  }

  /** `dlp_transpose_scale_2d`. Each byte of the destination table is written exactly once, and no other. */
  method TransposeScale<T>(dst: array<T>, src: seq<T>, rows: int, cols: int, es: int) returns (ghost writes: seq<nat>)
    requires Dims(rows, cols, es)
    requires |src| >= Bytes(rows, cols, es) && dst.Length >= Bytes(rows, cols, es)
    modifies dst
    ensures Bytes(rows, cols, es) > 0 && dst[..Bytes(rows, cols, es)] == Transposed(src, rows, cols, es)
    ensures |writes| == dst.Length
    ensures forall x :: 0 <= x < dst.Length ==> writes[x] == if x < Bytes(rows, cols, es) then 1 else 0
  {
    hide ByteAt, Bytes, Moved;
    writes := seq(dst.Length, x => 0);
    NothingMoved(dst[..], writes, src, rows, cols, es);
    var r := 0;
    while r < rows
      invariant 0 <= r <= rows
      invariant Moved(dst[..], writes, src, rows, cols, es, r, 0)
    {
      var c := 0;
      while c < cols
        invariant 0 <= c <= cols
        invariant Moved(dst[..], writes, src, rows, cols, es, r, c)
      {
        writes := CopyElement(dst, src, rows, cols, es, r, c, writes);
        c := c + 1;
      }
      RowDone(dst[..], writes, src, rows, cols, es, r);
      r := r + 1;
    }
    AllMoved(dst[..], writes, src, rows, cols, es);
  }

  lemma NothingMoved<T>(dst: seq<T>, writes: seq<nat>, src: seq<T>, rows: int, cols: int, es: int)
    requires Dims(rows, cols, es) && |src| >= Bytes(rows, cols, es) && |dst| >= Bytes(rows, cols, es)
    requires |writes| == |dst| && forall x :: 0 <= x < |dst| ==> writes[x] == 0
    ensures Moved(dst, writes, src, rows, cols, es, 0, 0)
  {
    hide ByteAt, Bytes, CellOf, Transposed;
    forall x | 0 <= x < Bytes(rows, cols, es) ensures !Reached(x, rows, cols, es, 0, 0) {
      BytesFacts(rows, cols, es);
      ByteOfCell(cols, rows, es, x);
    }
  }

  lemma RowDone<T>(dst: seq<T>, writes: seq<nat>, src: seq<T>, rows: int, cols: int, es: int, r: int)
    requires Dims(rows, cols, es) && |src| >= Bytes(rows, cols, es)
    requires Moved(dst, writes, src, rows, cols, es, r, cols)
    ensures Moved(dst, writes, src, rows, cols, es, r + 1, 0)
  {
    forall x {:trigger writes[x]} | 0 <= x < |dst|
      ensures if x < Bytes(rows, cols, es) && Reached(x, rows, cols, es, r + 1, 0) then
                writes[x] == 1 && dst[x] == Transposed(src, rows, cols, es)[x]
              else writes[x] == 0
    {
      if x < Bytes(rows, cols, es) {
        BytesFacts(rows, cols, es);
        ByteOfCell(cols, rows, es, x);
        assert Reached(x, rows, cols, es, r, cols) == Reached(x, rows, cols, es, r + 1, 0);
      }
      assert writes[x] == 0 || writes[x] == 1;
    }
  }

  lemma AllMoved<T>(dst: seq<T>, writes: seq<nat>, src: seq<T>, rows: int, cols: int, es: int)
    requires Dims(rows, cols, es) && |src| >= Bytes(rows, cols, es)
    requires Moved(dst, writes, src, rows, cols, es, rows, 0)
    ensures Bytes(rows, cols, es) > 0 && dst[..Bytes(rows, cols, es)] == Transposed(src, rows, cols, es)
    ensures |writes| == |dst| && forall x :: 0 <= x < |dst| ==> writes[x] == if x < Bytes(rows, cols, es) then 1 else 0
  {
    hide ByteAt, Bytes, CellOf, Transposed;
    BytesFacts(rows, cols, es);
    forall x | 0 <= x < Bytes(rows, cols, es)
      ensures writes[x] == 1 && dst[x] == Transposed(src, rows, cols, es)[x]
    {
      ByteOfCell(cols, rows, es, x);
    }
  }

  /** The `memcpy` of one element. */
  method CopyElement<T>(dst: array<T>, src: seq<T>, rows: int, cols: int, es: int, r: int, c: int,
                        ghost before: seq<nat>)
    returns (ghost writes: seq<nat>)
    requires Dims(rows, cols, es) && 0 <= r < rows && 0 <= c < cols
    requires |src| >= Bytes(rows, cols, es) && Moved(dst[..], before, src, rows, cols, es, r, c)
    modifies dst
    ensures Moved(dst[..], writes, src, rows, cols, es, r, c + 1)
  {
    hide Bytes, Reached, Transposed, CellOf;
    var to, from := (c * rows + r) * es, (r * cols + c) * es;
    BytesFacts(rows, cols, es);
    CellOfByte(rows, cols, es, r, c, 0);
    CellOfByte(rows, cols, es, r, c, es - 1);
    CellOfByte(cols, rows, es, c, r, 0);
    CellOfByte(cols, rows, es, c, r, es - 1);
    forall t | 0 <= t < es { dst[to + t] := src[from + t]; }
    writes := seq(|before|, x requires 0 <= x < |before| => if to <= x < to + es then before[x] + 1 else before[x]);
    forall x | 0 <= x < Bytes(rows, cols, es)
      ensures if Reached(x, rows, cols, es, r, c + 1) then
                writes[x] == 1 && dst[x] == Transposed(src, rows, cols, es)[x]
              else writes[x] == 0
    {
      ReachedStep(x, rows, cols, es, r, c);
      assert before[x] == if Reached(x, rows, cols, es, r, c) then 1 else 0;
      if to <= x < to + es {
        TransposedAt(src, rows, cols, es, r, c, x - to);
      }
    }
  }

  /** Copying element (r, c) reaches its es destination bytes and no others. */
  lemma ReachedStep(x: int, rows: int, cols: int, es: int, r: int, c: int)
    requires Dims(rows, cols, es) && 0 <= x < Bytes(rows, cols, es) && 0 <= r < rows && 0 <= c < cols
    ensures var to := (c * rows + r) * es;
      if to <= x < to + es then !Reached(x, rows, cols, es, r, c) && Reached(x, rows, cols, es, r, c + 1)
      else Reached(x, rows, cols, es, r, c + 1) == Reached(x, rows, cols, es, r, c)
  {
    hide Bytes, CellOf;
    BytesFacts(rows, cols, es);
    ByteOfCell(cols, rows, es, x);
    if (c * rows + r) * es <= x < (c * rows + r) * es + es {
      CellOfByte(cols, rows, es, c, r, x - (c * rows + r) * es);
    }
  }
}
