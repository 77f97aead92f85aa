/** The int8 and int4 reorder entry points: group-size resolution, size queries, and which layout each produces. */
module Int8Reorder {
  import opened Arith
  import opened CallerTerms
  import opened BufferTerms
  import opened Errors
  import opened PanelLayout
  import opened BlockedLayout
  import opened PanelPack
  import opened ReorderWalk
  import opened UnreorderWalk
  import opened Reorder
  import opened ReorderF32
  import opened ColumnCopy
  import opened Words
  import opened ColumnSums
  import opened ColumnReorder
  import opened ColumnWords
  import opened GroupedTerms

  /** The panels of an int8 B: 16 columns at least, four rows at a time. */
  function S8Shape(k: int, n: int, NR: int, NC: int, KC: int): Shape {
    Shape(k, n, Blocking(NR, 16, NC, KC, 4))
  }

  /** `aocl_get_reorder_buf_size_s8s8s32os32`. */
  function S8SizeQuery(order: char, trans: char, matType: char, k: int, n: int, NR: int, KC: int, context: Err)
    : (Err, int)
  {
    var e := SizeCheck(order, trans, matType, k, n);
    if e != Success then (e, 0)
    else if !IsB(matType) then (NotSupported, 0)
    else if context != Success then (context, 0)
    else if !BlocksLegal(NR, 16, KC, 4) then (InvalidBlockParams, 0)
    else if n == 1 then (Success, SumOffset(k) + 4)
    else
      var nReorder, kReorder := RoundUp(n, 16), RoundUp(k, 4);
      var (ok, extra) := if nReorder < 0 then (false, 0) else CheckedMul(nReorder, 4);
      if !ok then (InvalidMatrixDimension, 0)
      else
        var (ok', bytes) := SizeBytes(kReorder, nReorder, 1, extra);
        if ok' then (Success, bytes) else (InvalidMatrixDimension, 0)
  }

  /** A successful query reports the layout exactly: weights and one sum, or panels and one sum per padded column. */
  lemma S8SizeIsLayout(order: char, trans: char, matType: char, k: int, n: int, NR: int, NC: int, KC: int, context: Err)
    requires Resolved(NR, NC) && S8SizeQuery(order, trans, matType, k, n, NR, KC, context).0 == Success
    ensures n == 1 ==> S8SizeQuery(order, trans, matType, k, n, NR, KC, context).1 == ColumnBytes(k, k)
    ensures n != 1 ==>
      var s := S8Shape(k, n, NR, NC, KC);
      s.Valid() && S8SizeQuery(order, trans, matType, k, n, NR, KC, context).1 == s.Size() + 4 * s.NPad()
  {
    hide RoundUp;
    SlotCount(k, k);
    RoundUpFacts(n, 16);
    RoundUpFacts(k, 4);
    if n != 1 {
      CheckedMulIff(RoundUp(n, 16), 4);
      SizeBytesIff(RoundUp(k, 4), RoundUp(n, 16), 1, 4 * RoundUp(n, 16));
    }
  }

  function S8TunedStatus(order: char, trans: char, matType: char, k: int, n: int, ldb: int): Err {
    var e := ReorderCheck(order, trans, matType, k, n, ldb);
    if e != Success then e else if IsA(matType) then NotSupported else Success
  }

  /** The single-column path of `aocl_reorder_s8s8s32os32`. */
  method ReorderS8Column(order: char, trans: char, matType: char, input: seq<Int8>, buf: array<Byte>, k: int, ldb: int)
    returns (err: Err, ghost exact: bool)
    requires S8TunedStatus(order, trans, matType, k, 1, ldb) == Success ==>
      Strided(|input|, k, PlainStrides(order, trans, ldb).0) && ColumnBytes(k, k) <= buf.Length
    modifies buf
    ensures err == S8TunedStatus(order, trans, matType, k, 1, ldb)
    ensures err != Success ==> buf[..] == old(buf[..])
    ensures err == Success ==>
      && Strided(|input|, k, PlainStrides(order, trans, ldb).0)
      && buf[..] == Laid(old(buf[..]), Gathered(input, k, PlainStrides(order, trans, ldb).0), k)
      && (k <= 131072 ==> exact)
    ensures err == Success ==> k > 0 && ColumnLaid(buf[..], old(buf[..]), k, k, Int8s(input, order, trans, ldb))
  {
    hide Addr, Laid, ColumnBytes, ColumnLaid, Int8s;
    exact := true;
    err := ReorderCheck(order, trans, matType, k, 1, ldb);
    if err != Success { return; }
    var (rs, cs) := PlainStrides(order, trans, ldb);
    if IsA(matType) { return NotSupported, true; }
    exact := TunedColumn(input, buf, k, rs);
    TightInTerms(buf[..], old(buf[..]), k, k, input, order, trans, ldb);
  }

  /** The tuned reorder fills bytes for calls that the size query turns away: exactly those of the AWQ matrix
      type, and those whose block sizes the query refuses. */
  lemma TunedNeedsQueryIff(order: char, trans: char, matType: char, k: int, ldb: int, NR: int, KC: int, context: Err)
    requires S8TunedStatus(order, trans, matType, k, 1, ldb) == Success
    ensures S8SizeQuery(order, trans, matType, k, 1, NR, KC, context) == (Success, ColumnBytes(k, k))
            <==> !IsAwq(matType) && context == Success && BlocksLegal(NR, 16, KC, 4)
    ensures IsAwq(matType) ==> S8SizeQuery(order, trans, matType, k, 1, NR, KC, context) == (NotSupported, 0)
  {
    SlotCount(k, k);
  }

  function S8ReferenceStatus(order: char, trans: char, matType: char, k: int, n: int, ldb: int, NR: int, KC: int,
                             context: Err): Err
  {
    var e := ReorderCheck(order, trans, matType, k, n, ldb);
    if e != Success then e
    else if !IsB(matType) then NotSupported
    else if n == 1 then Success
    else if context != Success then context
    else if !BlocksLegal(NR, 16, KC, 4) then InvalidBlockParams
    else Success
  }

  /** When the int8 entry points go ahead. */
  lemma S8StatusesIff(order: char, trans: char, matType: char, k: int, n: int, ldb: int, NR: int, KC: int, context: Err)
    ensures var args := GoodSizeArgs(order, trans, matType, k, n);
      var blocks := context == Success && NR > 0 && NR % 16 == 0 && KC > 0 && KC % 4 == 0;
      && (S8TunedStatus(order, trans, matType, k, n, ldb) == Success <==>
            args && GoodLd(order, trans, ldb, k, n) && matType in {'b', 'B', 'w', 'W'})
      && (S8ReferenceStatus(order, trans, matType, k, n, ldb, NR, KC, context) == Success <==>
            args && GoodLd(order, trans, ldb, k, n) && matType in {'b', 'B'} && (n == 1 || blocks))
      && (S8SizeQuery(order, trans, matType, k, n, NR, KC, context).0 == Success ==>
            args && matType in {'b', 'B'} && blocks)
      && (S8SizeQuery(order, trans, matType, k, n, NR, KC, context).0 != Success ==>
            S8SizeQuery(order, trans, matType, k, n, NR, KC, context).1 == 0)
    ensures var e, e' := ReorderCheck(order, trans, matType, k, n, ldb), SizeCheck(order, trans, matType, k, n);
      var t := S8TunedStatus(order, trans, matType, k, n, ldb);
      var r := S8ReferenceStatus(order, trans, matType, k, n, ldb, NR, KC, context);
      var q := S8SizeQuery(order, trans, matType, k, n, NR, KC, context).0;
      var illegal := NR <= 0 || NR % 16 != 0 || KC <= 0 || KC % 4 != 0;
      && (e != Success ==> t == r == e) && (e' != Success ==> q == e')
      && (e == Success && matType in {'a', 'A'} ==> t == r == NotSupported)
      && (e == Success && matType in {'w', 'W'} ==> r == NotSupported)
      && (e' == Success && matType in {'a', 'A', 'w', 'W'} ==> q == NotSupported)
      && (e' == Success && matType in {'b', 'B'} && context != Success ==> q == context)
      && (e' == context == Success && matType in {'b', 'B'} && illegal ==> q == InvalidBlockParams)
      && (e == Success && matType in {'b', 'B'} && n != 1 && context != Success ==> r == context)
      && (e == context == Success && matType in {'b', 'B'} && n != 1 && illegal ==> r == InvalidBlockParams)
  {
    hide RoundUp, CheckedMul, SizeBytes;
  }

  /** Of good queries with legal blocks none is turned away: no accepted shape needs more than the size type holds. */
  lemma S8SizeFits(order: char, trans: char, matType: char, k: int, n: int, NR: int, KC: int)
    requires GoodSizeArgs(order, trans, matType, k, n) && matType in {'b', 'B'}
    requires NR > 0 && NR % 16 == 0 && KC > 0 && KC % 4 == 0
    ensures S8SizeQuery(order, trans, matType, k, n, NR, KC, Success).0 == Success
  {
    hide RoundUp, CheckedMul, SizeBytes;
    if n != 1 {
      RoundUpFacts(n, 16);
      RoundUpFacts(k, 4);
      CheckedMulIff(RoundUp(n, 16), 4);
      SizeBytesIff(RoundUp(k, 4), RoundUp(n, 16), 1, 4 * RoundUp(n, 16));
      SmallProduct(RoundUp(k, 4), RoundUp(n, 16));
    }
  }

  lemma SmallProduct(a: int, b: int)
    requires 0 <= a <= 0x8000_0010 && 0 <= b <= 0x8000_0010
    ensures a * b <= 0x8000_0010 * 0x8000_0010
  {
    MulLe(a, 0x8000_0010, b);
    MulLe(b, 0x8000_0010, 0x8000_0010);
  }

  /** What a completed int8 reorder leaves. */
  ghost predicate S8Reordered(now: seq<Byte>, was: seq<Byte>, s: Shape, input: seq<Int8>, rs: int, cs: int)
    requires s.k > 0 && s.n > 0 && InputHolds(|input|, s.k, s.n, rs, cs)
  {
    if s.n == 1 then
      Strided(|input|, s.k, rs) && now == Laid(was, Gathered(input, s.k, rs), s.k)
    else
      && s.Valid() && Matrix(AsBytes(input), rs, cs, 0).Holds(s.k, s.n)
      && 0 <= s.Size() <= |was| == |now| && s.n <= s.NPad()
      && Reordered(now[..s.Size()], was[..s.Size()], s, Matrix(AsBytes(input), rs, cs, 0))
      && Tabled(now[s.Size()..], was[s.Size()..], 0, Entries(input, s.k, s.n, rs, cs, s.NPad(), s.n))
  }

  /** That in the caller's terms: the elements of op(B), zero padding, and every column's sum. */
  ghost predicate S8InTerms(now: seq<Byte>, was: seq<Byte>, s: Shape, W: (int, int) -> int)
    requires s.k > 0 && (s.n == 1 || s.Valid())
  {
    if s.n == 1 then ColumnLaid(now, was, s.k, s.k, W) else PanelsLaid(now, was, s, s.k, W)
  }

  /** The one vector of sums. */
  lemma S8Sums(now: seq<Byte>, was: seq<Byte>, s: Shape, input: seq<Int8>, order: char, trans: char, ld: int)
    requires s.Valid() && s.n > 1 && Formed(order, trans)
    requires InputHolds(|input|, s.k, s.n, PlainStrides(order, trans, ld).0, PlainStrides(order, trans, ld).1)
    requires S8Reordered(now, was, s, input, PlainStrides(order, trans, ld).0, PlainStrides(order, trans, ld).1)
    ensures SumsAt(now, s.Size(), s.k, s.n, s.NPad(), s.k, Int8s(input, order, trans, ld))
  {
    hide Held, Addr, Place, RoundUp, Load32, Wrap32, IntSum, S8Reordered, PlainStrides;
    var (rs, cs) := PlainStrides(order, trans, ld);
    var W, k := Int8s(input, order, trans, ld), s.k;
    forall v, j | 0 <= v < (k + k - 1) / k && 0 <= j < s.NPad()
      ensures v == 0 && 0 <= Slot(s.Size(), s.NPad(), v, j) && Slot(s.Size(), s.NPad(), v, j) + 4 <= |now|
      ensures Held(now, Slot(s.Size(), s.NPad(), v, j),
                   if j < s.n then 128 * IntSum(Down(W, j), v * k, if (v + 1) * k < k then (v + 1) * k else k) else 0)
    {
      SlotCount(k, k);
      SizePositive(s);
      S8SumsRead(now, was, s, input, rs, cs, j);
      if j < s.n {
        var col := ColumnOf(input, k, s.n, rs, cs, j);
        forall p | 0 <= p < k ensures Values(col)(p) == Down(W, j)(p) {
          StridesPlace(order, trans, ld, p, j);
          assert col[p] == input[Addr(p, j, rs, cs)];
        }
        IntSumExt(Values(col), Down(W, j), 0, k);
      }
      ZeroWord();
      HeldIs(now, Slot(s.Size(), s.NPad(), v, j),
             if j < s.n then 128 * Total(ColumnOf(input, k, s.n, rs, cs, j), 0, k) else 0);
    }
  }

  /** What the reorder leaves is that. */
  lemma S8ReorderedIs(now: seq<Byte>, was: seq<Byte>, s: Shape, input: seq<Int8>, order: char, trans: char, ld: int)
    requires s.k > 0 && s.n > 0 && Formed(order, trans) && s.blk.minNR == 16 && s.blk.kf == 4
    requires InputHolds(|input|, s.k, s.n, PlainStrides(order, trans, ld).0, PlainStrides(order, trans, ld).1)
    requires S8Reordered(now, was, s, input, PlainStrides(order, trans, ld).0, PlainStrides(order, trans, ld).1)
    requires s.n == 1 ==> ColumnBytes(s.k, s.k) <= |was|
    ensures (s.n == 1 || s.Valid()) && S8InTerms(now, was, s, Int8s(input, order, trans, ld))
  {
    hide Addr, Place, RoundUp, SumsAt, Pos, Int8s, AsBytes, PlainStrides, WordByte, ColumnLaid, Laid, Entries,
         ColumnBytes;
    var B, W := Bytes8(input, order, trans, ld), Int8s(input, order, trans, ld);
    if s.n == 1 {
      TightInTerms(now, was, s.k, s.k, input, order, trans, ld);
    } else {
      Padding(s);
      SlotCount(s.k, s.k);
      S8Sums(now, was, s, input, order, trans, ld);
      forall p, j | 0 <= p < s.KPad() && 0 <= j < s.NPad()
        ensures 0 <= Pos(s, p, j) < s.Size() && now[Pos(s, p, j)] == if p < s.k && j < s.n then W(p, j) % 256 else 0
      {
        CellOfPos(s, p, j);
        assert now[..s.Size()][Pos(s, p, j)] == B.At(s, p, j);
        if p < s.k && j < s.n {
          StridesPlace(order, trans, ld, p, j);
          Int8Is(input, order, trans, ld, p, j);
        }
      }
      TableKept(now, was, s.Size(), Entries(input, s.k, s.n, B.rs, B.cs, s.NPad(), s.n));
    }
  }

  /** `aocl_reorder_s8s8s32os32_reference`. */
  method ReorderS8Reference(order: char, trans: char, matType: char, input: seq<Int8>, buf: array<Byte>, k: int, n: int,
                            ldb: int, NR: int, NC: int, KC: int, nThreads: int, context: Err) returns (err: Err)
    requires Resolved(NR, NC)
    requires S8ReferenceStatus(order, trans, matType, k, n, ldb, NR, KC, context) == Success ==>
      && InputHolds(|input|, k, n, PlainStrides(order, trans, ldb).0, PlainStrides(order, trans, ldb).1)
      && (if n == 1 then ColumnBytes(k, k) else S8Shape(k, n, NR, NC, KC).Size() + 4 * RoundUp(n, 16)) <= buf.Length
    modifies buf
    ensures err == S8ReferenceStatus(order, trans, matType, k, n, ldb, NR, KC, context)
    ensures err != Success ==> buf[..] == old(buf[..])
    ensures err == Success ==>
      S8Reordered(buf[..], old(buf[..]), S8Shape(k, n, NR, NC, KC), input,
                  PlainStrides(order, trans, ldb).0, PlainStrides(order, trans, ldb).1)
    ensures err == Success ==>
      && k > 0 && (n == 1 || Shape(k, n, Blocking(NR, 16, NC, KC, 4)).Valid())
      && S8InTerms(buf[..], old(buf[..]), Shape(k, n, Blocking(NR, 16, NC, KC, 4)), Int8s(input, order, trans, ldb))
  {
    hide Addr, Laid, ColumnBytes, Reordered, Tabled, RoundUp, S8InTerms;
    err := ReorderCheck(order, trans, matType, k, n, ldb);
    if err != Success { return; }
    var (rs, cs) := PlainStrides(order, trans, ldb);
    if !IsB(matType) { return NotSupported; }
    if n == 1 {
      FirstColumn(k, rs, cs);
      ghost var exact := ReferenceColumn(input, buf, k, rs);
      S8ReorderedIs(buf[..], old(buf[..]), S8Shape(k, n, NR, NC, KC), input, order, trans, ldb);
      return;
    }
    if context != Success { return context; }
    if !BlocksLegal(NR, 16, KC, 4) { return InvalidBlockParams; }
    PanelsAndSums(input, buf, k, n, rs, cs, NR, NC, KC, nThreads);
    S8ReorderedIs(buf[..], old(buf[..]), S8Shape(k, n, NR, NC, KC), input, order, trans, ldb);
  }

  /** More than one column: panels, then the table of sums behind them. */
  method PanelsAndSums(input: seq<Int8>, buf: array<Byte>, k: int, n: int, rs: int, cs: int, NR: int, NC: int, KC: int,
                       nThreads: int)
    requires Resolved(NR, NC) && BlocksLegal(NR, 16, KC, 4) && k > 0 && n > 1 && InputHolds(|input|, k, n, rs, cs)
    requires S8Shape(k, n, NR, NC, KC).Size() + 4 * RoundUp(n, 16) <= buf.Length
    modifies buf
    ensures S8Reordered(buf[..], old(buf[..]), S8Shape(k, n, NR, NC, KC), input, rs, cs)
  {
    hide Addr, Reordered, Tabled, RoundUp, Entries;
    var s := S8Shape(k, n, NR, NC, KC);
    RoundUpFacts(n, 16);
    SizePositive(s);
    var B := Matrix(AsBytes(input), rs, cs, 0);
    ReorderB(buf, s, B, nThreads);
    ghost var panels := buf[..];
    WriteColumnSums(buf, input, k, n, rs, cs);
    SplitAtSums(buf[..], panels, old(buf[..]), s, B, Entries(input, k, n, rs, cs, s.NPad(), n));
  }

  lemma SplitAtSums(now: seq<Byte>, panels: seq<Byte>, was: seq<Byte>, s: Shape, B: Matrix<Byte>, vals: seq<int>)
    requires s.Valid() && B.Holds(s.k, s.n) && Reordered(panels, was, s, B) && s.Size() >= 0
    requires Tabled(now, panels, s.Size(), vals)
    ensures |now| == |was| && s.Size() <= |was|
    ensures Reordered(now[..s.Size()], was[..s.Size()], s, B) && Tabled(now[s.Size()..], was[s.Size()..], 0, vals)
  {
    hide Pos, WordByte, RoundUp;
    var size := s.Size();
    assert now[..size] == panels[..size];
    forall x | 0 <= x < |was| - size
      ensures now[size..][x] == if x < 4 * |vals| then WordByte(vals[x / 4], x % 4) else was[size..][x]
    {
      assert now[size + x] == if x < 4 * |vals| then WordByte(vals[x / 4], x % 4) else panels[size + x];
    }
  }

  /** `aocl_unreorder_s8s8s32os32_reference`. */
  method UnreorderS8Reference(order: char, trans: char, matType: char, packed: seq<Byte>, out: array<Byte>,
                              k: int, n: int, ldb: int, NR: int, NC: int, KC: int, nThreads: int, context: Err)
    returns (err: Err)
    requires Resolved(NR, NC)
    requires S8ReferenceStatus(order, trans, matType, k, n, ldb, NR, KC, context) == Success ==>
      && InputHolds(out.Length, k, n, PlainStrides(order, trans, ldb).0, PlainStrides(order, trans, ldb).1)
      && (if n == 1 then k else S8Shape(k, n, NR, NC, KC).Size()) <= |packed|
    modifies out
    ensures err == S8ReferenceStatus(order, trans, matType, k, n, ldb, NR, KC, context)
    ensures err != Success ==> out[..] == old(out[..])
    ensures err == Success ==>
              ReadBack(out[..], old(out[..]), S8Shape(k, n, NR, NC, KC), packed,
                            PlainStrides(order, trans, ldb).0, PlainStrides(order, trans, ldb).1)
    ensures err == Success ==>
      && n > 0 && (n == 1 || Shape(k, n, Blocking(NR, 16, NC, KC, 4)).Valid())
      && Restored(out[..], old(out[..]), Shape(k, n, Blocking(NR, 16, NC, KC, 4)), packed, order, trans, ldb)
  {
    hide Restored;
    err := ReorderCheck(order, trans, matType, k, n, ldb);
    if err != Success { return; }
    var (rs, cs) := PlainStrides(order, trans, ldb);
    CheckedStrides(order, trans, matType, k, n, ldb);
    if !IsB(matType) { return NotSupported; }
    var s := S8Shape(k, n, NR, NC, KC);
    if n == 1 {
      FirstColumn(k, rs, cs);
      ScatterColumn(out, packed, k, rs);
      ColumnWindow(s, rs, cs);
      ReadBackIs(out[..], old(out[..]), s, packed, order, trans, ldb);
      return Success;
    }
    if context != Success { return context; }
    if !BlocksLegal(NR, 16, KC, 4) { return InvalidBlockParams; }
    UnreorderB(out, s, packed, rs, cs, nThreads);
    ReadBackIs(out[..], old(out[..]), s, packed, order, trans, ldb);
  }

  /** Reordering an int8 B and reading it back restores every weight and touches nothing else, for every shape and
      both layouts, whatever the sums stored behind the weights. */
  lemma S8RoundTrip(s: Shape, input: seq<Int8>, irs: int, ics: int, packed: seq<Byte>, before: seq<Byte>,
                    out: seq<Byte>, outBefore: seq<Byte>, rs: int, cs: int)
    requires s.k > 0 && s.n > 0 && InputHolds(|input|, s.k, s.n, irs, ics)
    requires S8Reordered(packed, before, s, input, irs, ics) && |before| >= s.k
    requires ReadBack(out, outBefore, s, packed, rs, cs)
    ensures Window(s, rs, cs, |out|) && |out| == |outBefore|
    ensures forall p, j :: s.Live(p, j) ==> FromByte(out[Addr(p, j, rs, cs)]) == input[Addr(p, j, irs, ics)]
    ensures forall x :: 0 <= x < |out| && (forall p, j :: s.Live(p, j) ==> x != Addr(p, j, rs, cs))
              ==> out[x] == outBefore[x]
  {
    hide Pos, Addr, RoundUp, Tabled, SumByte;
    if s.n == 1 {
      FirstColumn(s.k, irs, ics);
      forall p, j | s.Live(p, j) ensures FromByte(out[Addr(p, j, rs, cs)]) == input[Addr(p, j, irs, ics)] {
        assert j == 0;
      }
    } else {
      var B := Matrix(AsBytes(input), irs, ics, 0);
      RoundTrip(s, B, packed[..s.Size()], before[..s.Size()], out, outBefore, rs, cs) by {
        PrefixRead(s, packed, out, outBefore, rs, cs);
      }
    }
  }

  /** Un-reordering reads the panels and nothing behind them. */
  lemma PrefixRead(s: Shape, packed: seq<Byte>, out: seq<Byte>, outBefore: seq<Byte>, rs: int, cs: int)
    requires s.Valid() && 0 <= s.Size() <= |packed| && Unreordered(out, outBefore, s, packed, rs, cs)
    ensures Unreordered(out, outBefore, s, packed[..s.Size()], rs, cs)
  {
    hide Pos, Addr, RoundUp;
    forall p, j | s.Live(p, j)
      ensures out[Addr(p, j, rs, cs)] == Stored(s, packed[..s.Size()], p, j)
    {
      LiveHasPos(s, p, j);
    }
  }

  /** Every column's slot behind the panels holds 128 times its sum, in int32 arithmetic; padding columns hold 0. */
  lemma S8SumsRead(now: seq<Byte>, was: seq<Byte>, s: Shape, input: seq<Int8>, rs: int, cs: int, j: int)
    requires s.k > 0 && s.n > 1 && InputHolds(|input|, s.k, s.n, rs, cs) && S8Reordered(now, was, s, input, rs, cs)
    requires 0 <= j < s.NPad()
    ensures s.Size() + 4 * j + 4 <= |now|
    ensures Load32(now, s.Size() + 4 * j)
            == if j < s.n then Wrap32(128 * Total(ColumnOf(input, s.k, s.n, rs, cs, j), 0, s.k)) else 0
  {
    hide RoundUp, Reordered, WordByte, Total, Wrap32;
    SumsRead(now[s.Size()..], was[s.Size()..], input, s.k, s.n, rs, cs, 0, s.NPad(), j);
  }
}
