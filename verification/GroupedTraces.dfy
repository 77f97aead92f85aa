/** The writes behind a grouped worker's progress: weights below, slots of sums above, each thread's in its own
    columns. */
module GroupedTraces {
  import opened Arith
  import opened Traces
  import opened PanelPack
  import opened Words

  /** A table of int32 slots: its address, its width in columns, and how many slots it has. */
  datatype Table = Table(at: int, width: int, slots: int)

  /** Address x belongs to a slot of one of the columns [a, b). */
  predicate SlotByte(x: int, t: Table, a: int, b: int)
    requires t.width > 0
  {
    t.at <= x < t.at + 4 * t.slots && a <= ((x - t.at) / 4) % t.width < b
  }

  /** All that was written between two states: below the table as `part` says, otherwise only slots of columns
      [a, b). */
  ghost predicate Did(all: seq<Write<Byte>>, now: seq<Byte>, was: seq<Byte>, part: seq<Write<Byte>>, t: Table,
                      a: int, b: int)
  {
    && t.width > 0 && InBounds(all, |was|) && now == Apply(was, all)
    && (forall x {:trigger Last(all, x)} :: x < t.at ==> Last(all, x) == Last(part, x))
    && (forall x {:trigger Last(all, x)} :: t.at <= x && Last(all, x).Some? ==> SlotByte(x, t, a, b))
  }

  lemma DidNothing(was: seq<Byte>, t: Table, a: int, b: int)
    requires t.width > 0
    ensures Did([], was, was, [], t, a, b)
  {
  }

  lemma DidMore(all: seq<Write<Byte>>, more: seq<Write<Byte>>, now: seq<Byte>, mid: seq<Byte>, was: seq<Byte>,
                part: seq<Write<Byte>>, next: seq<Write<Byte>>, t: Table, a: int, c: int, d: int, b: int)
    requires Did(all, mid, was, part, t, a, b) && Did(more, now, mid, next, t, c, d) && a <= c && d <= b
    ensures Did(all + more, now, was, part + next, t, a, b)
  {
    ApplyConcat(was, all, more);
    forall x ensures Last(all + more, x) == if Last(more, x).Some? then Last(more, x) else Last(all, x) {
      LastConcat(all, more, x);
    }
    forall x ensures Last(part + next, x) == if Last(next, x).Some? then Last(next, x) else Last(part, x) {
      LastConcat(part, next, x);
    }
  }

  lemma DidApply(all: seq<Write<Byte>>, now: seq<Byte>, was: seq<Byte>, part: seq<Write<Byte>>, t: Table, a: int,
                 b: int)
    requires Did(all, now, was, part, t, a, b)
    ensures InBounds(all, |was|) && now == Apply(was, all)
  {
  }

  /** A packed panel: weights and nothing else. */
  lemma DidPack(now: seq<Byte>, was: seq<Byte>, part: seq<Write<Byte>>, off: int, job: Job<Byte>, t: Table, a: int,
                b: int)
    requires job.Valid() && Packed(part, off, job) && off + job.Size() <= t.at && t.width > 0
    requires InBounds(part, |was|) && now == Apply(was, part)
    ensures Did(part, now, was, part, t, a, b)
  {
  }

  /** The four byte writes of a stored word. */
  function WordWrites(at: int, v: int): seq<Write<Byte>> {
    [Write(at, WordByte(v, 0)), Write(at + 1, WordByte(v, 1)),
     Write(at + 2, WordByte(v, 2)), Write(at + 3, WordByte(v, 3))]
  }

  lemma WordLast(at: int, v: int, x: int)
    ensures Last(WordWrites(at, v), x) == if at <= x < at + 4 then Some(WordByte(v, x - at)) else None
  {
    hide WordByte;
    var w := WordWrites(at, v);
    LastSnoc([], w[0], x);
    LastSnoc([w[0]], w[1], x);
    LastSnoc([w[0], w[1]], w[2], x);
    LastSnoc([w[0], w[1], w[2]], w[3], x);
    assert [] + [w[0]] == [w[0]] && [w[0]] + [w[1]] == [w[0], w[1]];
    assert [w[0], w[1]] + [w[2]] == [w[0], w[1], w[2]] && [w[0], w[1], w[2]] + [w[3]] == w;
  }

  /** A stored word: one slot. */
  lemma DidStore(was: seq<Byte>, t: Table, i: int, v: int)
    requires 0 <= t.at && 0 <= i < t.slots && t.at + 4 * i + 4 <= |was| && t.width > 0
    ensures Did(WordWrites(t.at + 4 * i, v), PutWord(was, t.at + 4 * i, v), was, [], t, i % t.width, i % t.width + 1)
  {
    hide WordByte, PutWord;
    var at, w := t.at + 4 * i, WordWrites(t.at + 4 * i, v);
    forall x ensures Last(w, x) == if at <= x < at + 4 then Some(WordByte(v, x - at)) else None
             ensures at <= x < at + 4 ==> SlotByte(x, t, i % t.width, i % t.width + 1)
    {
      WordLast(at, v, x);
      if at <= x < at + 4 { DivModUnique(x - t.at, 4, i, x - at); }
    }
    forall x | 0 <= x < |was| ensures Apply(was, w)[x] == PutWord(was, at, v)[x] { ApplyAt(was, w, x); }
  }

  lemma SlotColumn(at: int, c: int, w: int, N: int)
    requires N > 0 && 0 <= at && 0 <= c < w && at % N + w <= N
    ensures (at + c) % N == at % N + c
  {
    DivModUnique(at + c, N, at / N, at % N + c);
  }
}
