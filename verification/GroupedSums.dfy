/** The table of column sums behind a grouped int8 B: one vector of sums per group, or per K panel when there is a
    single group. */
module GroupedSums {
  import opened Arith
  import opened BlockedLayout
  import opened PanelPack
  import opened ReorderWalk
  import opened Words
  import opened GroupedLayout

  /** Rows whose sum one vector holds. */
  function VectorRows(s: Shape, gs: int): int { if gs == s.k then s.blk.KC else gs }

  /** `dlp_gemm_sym_quant_sum_vectors`. */
  function Vectors(s: Shape, gs: int): int
    requires VectorRows(s, gs) > 0
  {
    NumGroups(s.k, VectorRows(s, gs))
  }

  /** A shape the grouped reorder walks: K panels hold whole groups, or there is one group. */
  predicate Plan(s: Shape, gs: int) {
    s.Valid() && s.blk.minNR == 16 && s.blk.kf == 4 && GroupSize(gs, s.k) && (gs != s.k ==> s.blk.KC % gs == 0)
  }

  function Elem(B: Matrix<Byte>, p: int, j: int): int {
    var x := Addr(p, j, B.rs, B.cs);
    if 0 <= x < |B.mem| then FromByte(B.mem[x]) else 0
  }

  function ColumnValues(B: Matrix<Byte>, j: int): int -> int { p => Elem(B, p, j) }

  /** Sum of column j over the rows lo <= p < hi. */
  function RowSum(B: Matrix<Byte>, j: int, lo: int, hi: int): int { IntSum(ColumnValues(B, j), lo, hi) }

  /** Sums of at most 131072 rows are held exactly, scaled or not. */
  lemma RowSumFits(B: Matrix<Byte>, j: int, lo: int, hi: int)
    requires lo <= hi <= lo + 131072
    ensures -128 * (hi - lo) <= RowSum(B, j, lo, hi) <= 127 * (hi - lo) && Fits32(128 * RowSum(B, j, lo, hi))
  {
    IntSumBound(ColumnValues(B, j), 128, lo, hi);
  }

  /** The entry of vector v for column j once the rows before lim[j] have been added. */
  function EntryOf(s: Shape, B: Matrix<Byte>, gs: int, lim: seq<int>, v: int, j: int): int
    requires |lim| == s.n && 0 <= j
  {
    var R := VectorRows(s, gs);
    if j < s.n then 128 * RowSum(B, j, v * R, Min((v + 1) * R, lim[j])) else 0
  }

  lemma TableSize(s: Shape, gs: int)
    requires Plan(s, gs)
    ensures s.n <= s.NPad() && 0 < Vectors(s, gs) && s.NPad() <= Vectors(s, gs) * s.NPad()
  {
    hide NumGroups, RoundUp;
    RoundUpFacts(s.n, 16);
    SlotCount(s.k, VectorRows(s, gs));
    MulLe(1, Vectors(s, gs), s.NPad());
  }

  /** The whole table. */
  ghost function SumEntries(s: Shape, B: Matrix<Byte>, gs: int, lim: seq<int>): (vals: seq<int>)
    requires Plan(s, gs) && |lim| == s.n
    ensures |vals| == Vectors(s, gs) * s.NPad()
  {
    TableSize(s, gs);
    seq(Vectors(s, gs) * s.NPad(), x requires 0 <= x => EntryOf(s, B, gs, lim, x / s.NPad(), x % s.NPad()))
  }

  function SetLim(lim: seq<int>, a: int, b: int, row: int): (r: seq<int>)
    ensures |r| == |lim|
  {
    seq(|lim|, j requires 0 <= j < |lim| => if a <= j < b then row else lim[j])
  }

  /** Adding 128 times the sums of rows [r, r + h), all of one vector, of w columns whose earlier rows are in. */
  function Added(vals: seq<int>, B: Matrix<Byte>, at: int, j0: int, w: int, r: int, h: int): (u: seq<int>)
    ensures |u| == |vals|
  {
    seq(|vals|, x requires 0 <= x < |vals| =>
      if at <= x < at + w then vals[x] + 128 * RowSum(B, j0 + (x - at), r, r + h) else vals[x])
  }

  lemma SumStep(s: Shape, B: Matrix<Byte>, gs: int, lim: seq<int>, v: int, j0: int, w: int, r: int, h: int)
    requires Plan(s, gs) && |lim| == s.n && 0 <= j0 && 0 < w && j0 + w <= s.n && 0 < h
    requires forall j :: j0 <= j < j0 + w ==> lim[j] == r
    requires 0 <= v * VectorRows(s, gs) <= r && r + h <= (v + 1) * VectorRows(s, gs) && 0 <= v < Vectors(s, gs)
    ensures 0 <= v * s.NPad() + j0 && v * s.NPad() + j0 + w <= Vectors(s, gs) * s.NPad()
    ensures Added(SumEntries(s, B, gs, lim), B, v * s.NPad() + j0, j0, w, r, h)
            == SumEntries(s, B, gs, SetLim(lim, j0, j0 + w, r + h))
  {
    hide RowSum, RoundUp, NumGroups, EntryOf, Plan;
    PlanShape(s, gs);
    TableSize(s, gs);
    var N, at := s.NPad(), v * s.NPad() + j0;
    TwoDigits(v, Vectors(s, gs), N, j0);
    TwoDigits(v, Vectors(s, gs), N, j0 + w - 1);
    var before, after := SumEntries(s, B, gs, lim), SumEntries(s, B, gs, SetLim(lim, j0, j0 + w, r + h));
    forall x | 0 <= x < |before| ensures Added(before, B, at, j0, w, r, h)[x] == after[x] {
      InTable(x, N, v, j0, w);
      EntryStep(s, B, gs, lim, v, j0, w, r, h, x / N, x % N);
    }
  }

  lemma PlanShape(s: Shape, gs: int)
    requires Plan(s, gs)
    ensures s.Valid() && VectorRows(s, gs) > 0
  {
  }

  /** Entry x of a table N wide lies in columns [j0, j0 + w) of row v exactly when x does in the flat range. */
  lemma InTable(x: int, N: int, v: int, j0: int, w: int)
    requires N > 0 && 0 <= x && 0 <= j0 && 0 < w && j0 + w <= N
    ensures v * N + j0 <= x < v * N + j0 + w <==> x / N == v && j0 <= x % N < j0 + w
    ensures x / N == v ==> x - (v * N + j0) == x % N - j0
    ensures 0 <= x % N < N
  {
    if v * N + j0 <= x < v * N + j0 + w { DivModUnique(x, N, v, x - v * N); }
    assert x == (x / N) * N + x % N;
  }

  lemma EntryStep(s: Shape, B: Matrix<Byte>, gs: int, lim: seq<int>, v: int, j0: int, w: int, r: int, h: int, v': int,
                  j: int)
    requires VectorRows(s, gs) > 0 && |lim| == s.n && 0 <= j0 && j0 + w <= s.n && 0 < h && 0 <= j
    requires forall i :: j0 <= i < j0 + w ==> lim[i] == r
    requires v * VectorRows(s, gs) <= r && r + h <= (v + 1) * VectorRows(s, gs)
    ensures EntryOf(s, B, gs, SetLim(lim, j0, j0 + w, r + h), v', j)
            == EntryOf(s, B, gs, lim, v', j)
               + if v' == v && j0 <= j < j0 + w then 128 * RowSum(B, j, r, r + h) else 0
  {
    hide VectorRows;
    if j0 <= j < j0 + w {
      var R := VectorRows(s, gs);
      if v' < v {
        MulLe(v' + 1, v, R);
      } else if v' > v {
        MulLe(v + 1, v', R);
      } else {
        IntSumSplit(ColumnValues(B, j), v * R, r, r + h);
      }
    }
  }
}
