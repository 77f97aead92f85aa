/** Column sums behind a panelled int8 B: one int32 for every padded column. */
module ColumnWords {
  import opened Arith
  import opened PanelPack
  import opened Words
  import opened ColumnSums

  /** An int32 table of `vals` at offset `at`, and nothing else changed. */
  ghost predicate Tabled(now: seq<Byte>, was: seq<Byte>, at: int, vals: seq<int>) {
    && |now| == |was| && 0 <= at && at + 4 * |vals| <= |was|
    && forall x {:trigger now[x]} :: 0 <= x < |was| ==>
         now[x] == if at <= x < at + 4 * |vals| then WordByte(vals[(x - at) / 4], (x - at) % 4) else was[x]
  }

  lemma PutEntry(now: seq<Byte>, was: seq<Byte>, at: int, vals: seq<int>, i: int, v: int)
    requires Tabled(now, was, at, vals) && 0 <= i < |vals|
    ensures Tabled(PutWord(now, at + 4 * i, v), was, at, vals[i := v])
  {
    hide WordByte;
  }

  /** Only the low 32 bits of an entry are stored. */
  lemma SameEntry(now: seq<Byte>, was: seq<Byte>, at: int, vals: seq<int>, i: int, v: int)
    requires Tabled(now, was, at, vals) && 0 <= i < |vals| && SameWord(vals[i], v)
    ensures Tabled(now, was, at, vals[i := v])
  {
    hide WordByte;
    SameBytes(vals[i], v);
  }

  lemma AddEntry(now: seq<Byte>, was: seq<Byte>, at: int, vals: seq<int>, v: int)
    requires Tabled(now, was, at, vals) && at + 4 * |vals| + 4 <= |was|
    ensures Tabled(PutWord(now, at + 4 * |vals|, v), was, at, vals + [v])
  {
    hide WordByte;
  }

  /** Entries read back as int32. */
  lemma EntryAt(now: seq<Byte>, was: seq<Byte>, at: int, vals: seq<int>, i: int)
    requires Tabled(now, was, at, vals) && 0 <= i < |vals|
    ensures Load32(now, at + 4 * i) == Wrap32(vals[i])
  {
    hide WordByte;
    forall t | 0 <= t < 4 ensures now[at + 4 * i + t] == WordByte(vals[i], t) {
      assert (4 * i + t) / 4 == i && (4 * i + t) % 4 == t;
    }
    LoadStored(now, at + 4 * i, vals[i]);
  }

  ghost predicate InputHolds(len: int, k: int, n: int, rs: int, cs: int) {
    forall p, j {:trigger Addr(p, j, rs, cs)} :: 0 <= p < k && 0 <= j < n ==> 0 <= Addr(p, j, rs, cs) < len
  }

  /** Column j of the stored matrix. */
  ghost function ColumnOf(input: seq<Int8>, k: int, n: int, rs: int, cs: int, j: int): (col: Column)
    requires k >= 0 && 0 <= j < n && InputHolds(|input|, k, n, rs, cs)
    ensures |col| == k
  {
    seq(k, p requires 0 <= p < k => input[Addr(p, j, rs, cs)])
  }

  /** The entries of the table once the first `done` columns have been summed. */
  ghost function Entries(input: seq<Int8>, k: int, n: int, rs: int, cs: int, nPad: int, done: int): (vals: seq<int>)
    requires k >= 0 && 0 <= done <= n <= nPad && InputHolds(|input|, k, n, rs, cs)
    ensures |vals| == nPad
  {
    seq(nPad, j requires 0 <= j < nPad =>
      if j < done then Wrap32(128 * Wrap32(Total(ColumnOf(input, k, n, rs, cs, j), 0, k))) else 0)
  }

  /** `dlp_reorder_s8_write_col_sums`. */
  method WriteColumnSums(buf: array<Byte>, input: seq<Int8>, k: int, n: int, rs: int, cs: int)
    requires k >= 0 && n >= 0 && InputHolds(|input|, k, n, rs, cs)
    requires var at := RoundUp(n, 16) * RoundUp(k, 4); 0 <= at && at + 4 * RoundUp(n, 16) <= buf.Length
    modifies buf
    ensures RoundUp(n, 16) >= n
    ensures Tabled(buf[..], old(buf[..]), RoundUp(n, 16) * RoundUp(k, 4),
                   Entries(input, k, n, rs, cs, RoundUp(n, 16), n))
  {
    hide Tabled, Addr, Total, Wrap32, PutWord;
    var nUpdated := RoundUp(n, 16);
    RoundUpFacts(n, 16);
    var at := nUpdated * RoundUp(k, 4);
    ghost var was := buf[..];
    NoEntries(was, at);
    ghost var vals: seq<int> := [];
    var idx := 0;
    while idx < nUpdated
      invariant 0 <= idx <= nUpdated && buf.Length == |was|
      invariant |vals| == idx && Tabled(buf[..], was, at, vals) && forall i :: 0 <= i < idx ==> vals[i] == 0
    {
      AddEntry(buf[..], was, at, vals, 0);
      Store32(buf, at + 4 * idx, 0);
      vals := vals + [0];
      idx := idx + 1;
    }
    assert vals == Entries(input, k, n, rs, cs, nUpdated, 0);
    var j := 0;
    while j < n
      invariant 0 <= j <= n && buf.Length == |was|
      invariant Tabled(buf[..], was, at, Entries(input, k, n, rs, cs, nUpdated, j))
    {
      var acc := SumColumn(input, k, n, rs, cs, j);
      ghost var before := Entries(input, k, n, rs, cs, nUpdated, j);
      PutEntry(buf[..], was, at, before, j, Wrap32(128 * acc));
      assert before[j := Wrap32(128 * acc)] == Entries(input, k, n, rs, cs, nUpdated, j + 1);
      Store32(buf, at + 4 * j, Wrap32(128 * acc));
      j := j + 1;
    }
  }

  lemma NoEntries(was: seq<Byte>, at: int)
    requires 0 <= at <= |was|
    ensures Tabled(was, was, at, [])
  {
  }

  /** The inner loop: one column's int32 sum. */
  method SumColumn(input: seq<Int8>, k: int, n: int, rs: int, cs: int, j: int) returns (acc: int)
    requires k >= 0 && 0 <= j < n && InputHolds(|input|, k, n, rs, cs)
    ensures acc == Wrap32(Total(ColumnOf(input, k, n, rs, cs, j), 0, k))
  {
    hide Total, Addr, Wrap32;
    ghost var col := ColumnOf(input, k, n, rs, cs, j);
    acc := 0;
    NothingSummed(col);
    var i := 0;
    while i < k
      invariant 0 <= i <= k && acc == Wrap32(Total(col, 0, i))
    {
      PlainAddr(i, j, rs, cs);
      AddWrapped(col, 0, i);
      acc := Wrap32(acc + input[i * rs + j * cs]);
      i := i + 1;
    }
  }

  lemma PlainAddr(i: int, j: int, rs: int, cs: int)
    ensures Addr(i, j, rs, cs) == i * rs + j * cs
  {
  }

  lemma NothingSummed(col: Column)
    ensures Wrap32(Total(col, 0, 0)) == 0
  {
  }

  /** Every live column's slot holds 128 times its sum, and every padding column's slot holds 0. */
  lemma SumsRead(now: seq<Byte>, was: seq<Byte>, input: seq<Int8>, k: int, n: int, rs: int, cs: int, at: int,
                 nPad: int, j: int)
    requires k >= 0 && 0 <= n <= nPad && 0 <= j < nPad && InputHolds(|input|, k, n, rs, cs)
    requires Tabled(now, was, at, Entries(input, k, n, rs, cs, nPad, n))
    ensures Load32(now, at + 4 * j)
            == if j < n then Wrap32(128 * Total(ColumnOf(input, k, n, rs, cs, j), 0, k)) else 0
  {
    hide Load32, Total, SameWord;
    EntryAt(now, was, at, Entries(input, k, n, rs, cs, nPad, n), j);
    if j < n {
      var sum := Total(ColumnOf(input, k, n, rs, cs, j), 0, k);
      WrapIsSame(sum);
      ScaleSame(Wrap32(sum), sum);
      SameBytes(128 * Wrap32(sum), 128 * sum);
    }
  }
}
