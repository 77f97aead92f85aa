/** The symmetric-quantised GEMM: int8 dot products per group of k, each scaled by an A and a B factor. */
module SymQuant {
  import opened Arith
  import opened CallMetadata
  import opened StridedGemm
  import opened ScaleTables
  import opened Words

  /** Two tables of scale factors and how each varies. */
  datatype Scales = Scales(aTab: seq<Byte>, aDim: Dim, bTab: seq<Byte>, bDim: Dim, stor: Stor, groupSize: int)

  function AGroups(dim: Dim, k: int, groupSize: int): int
    requires groupSize > 0
  {
    if dim == PerToken then 1 else NumGroups(k, groupSize)
  }

  function BGroups(dim: Dim, k: int, groupSize: int): int
    requires groupSize > 0
  {
    if dim == PerChannel then 1 else NumGroups(k, groupSize)
  }

  type Decoder = (Stor, seq<Byte>) -> real

  /** Factor number idx of a table. */
  function Load(tab: seq<Byte>, idx: int, stor: Stor, dec: Decoder): real {
    var w := ElemSize(stor);
    if 0 <= idx && idx * w + w <= |tab| then dec(stor, tab[idx * w..idx * w + w]) else 0.0
  }

  /** The caller's A factor for row i and group g: one per row, or an m x groups table. */
  function ScaleA(s: Scales, dec: Decoder, k: int, i: int, g: int): real
    requires s.groupSize > 0
  {
    if s.aDim == PerToken then Load(s.aTab, i, s.stor, dec)
    else Load(s.aTab, i * NumGroups(k, s.groupSize) + g, s.stor, dec)
  }

  /** The caller's B factor for group g and column j: one per column, or a groups x n table. */
  function ScaleB(s: Scales, dec: Decoder, k: int, n: int, g: int, j: int): real
    requires s.groupSize > 0
  {
    if s.bDim == PerChannel then Load(s.bTab, j, s.stor, dec) else Load(s.bTab, g * n + j, s.stor, dec)
  }

  type IntMatrix = (int, int) -> int

  function Product(x: int, y: int): int { x * y }

  /** The integer dot product of one group, the last group cut short at k. */
  function GroupDot(A: IntMatrix, B: IntMatrix, k: int, groupSize: int, i: int, j: int, g: int): int {
    IntSum(p => Product(A(i, p), B(p, j)), g * groupSize, Min(k, (g + 1) * groupSize))
  }

  /** What the quantised GEMM is to add at (i, j): the groups' dot products, each scaled by an A and a B factor. */
  function QuantDot(s: Scales, dec: Decoder, A: IntMatrix, B: IntMatrix, k: int, n: int, i: int, j: int): real
    requires s.groupSize > 0
  {
    Sum(g => Scaled(ScaleA(s, dec, k, i, g), ScaleB(s, dec, k, n, g, j), GroupDot(A, B, k, s.groupSize, i, j, g)),
        NumGroups(k, s.groupSize))
  }

  function Scaled(a: real, b: real, dot: int): real { a * b * (dot as real) }

  function QuantDots(s: Scales, dec: Decoder, A: IntMatrix, B: IntMatrix, k: int, n: int): (int, int) -> real
    requires s.groupSize > 0
  {
    (i, j) => QuantDot(s, dec, A, B, k, n, i, j)
  }

  /** What the kernel adds: each table is addressed through a leading dimension and a group multiplier, 0 where
      one factor serves every group. */
  function KernelDot(s: Scales, dec: Decoder, A: IntMatrix, B: IntMatrix, k: int, n: int, i: int, j: int): real
    requires s.groupSize > 0
  {
    Sum(g => Scaled(Load(s.aTab, ASlot(s, k, i, g), s.stor, dec), Load(s.bTab, BSlot(s, n, g, j), s.stor, dec),
                    GroupDot(A, B, k, s.groupSize, i, j, g)),
        NumGroups(k, s.groupSize))
  }

  function ASlot(s: Scales, k: int, i: int, g: int): int
    requires s.groupSize > 0
  {
    var aMul := if s.aDim == PerToken then 0 else 1;
    var lda := if s.aDim == PerToken then 1 else NumGroups(k, s.groupSize);
    i * lda + g * aMul
  }

  function BSlot(s: Scales, n: int, g: int, j: int): int {
    var bMul := if s.bDim == PerChannel then 0 else 1;
    g * n * bMul + j
  }

  function KernelDots(s: Scales, dec: Decoder, A: IntMatrix, B: IntMatrix, k: int, n: int): (int, int) -> real
    requires s.groupSize > 0
  {
    (i, j) => KernelDot(s, dec, A, B, k, n, i, j)
  }

  lemma KernelDotIsQuantDot(s: Scales, dec: Decoder, A: IntMatrix, B: IntMatrix, k: int, n: int, i: int, j: int)
    requires s.groupSize > 0
    ensures KernelDot(s, dec, A, B, k, n, i, j) == QuantDot(s, dec, A, B, k, n, i, j)
  {
    hide Load, GroupDot, Scaled;
    var kernel := g => Scaled(Load(s.aTab, ASlot(s, k, i, g), s.stor, dec),
                              Load(s.bTab, BSlot(s, n, g, j), s.stor, dec), GroupDot(A, B, k, s.groupSize, i, j, g));
    var meant := g => Scaled(ScaleA(s, dec, k, i, g), ScaleB(s, dec, k, n, g, j),
                             GroupDot(A, B, k, s.groupSize, i, j, g));
    forall g ensures kernel(g) == meant(g) {
      SlotsAre(s, k, n, i, j, g);
    }
    SumExt(kernel, meant, NumGroups(k, s.groupSize));
  }

  lemma SlotsAre(s: Scales, k: int, n: int, i: int, j: int, g: int)
    requires s.groupSize > 0
    ensures ASlot(s, k, i, g) == if s.aDim == PerToken then i else i * NumGroups(k, s.groupSize) + g
    ensures BSlot(s, n, g, j) == if s.bDim == PerChannel then j else g * n + j
  {
    hide NumGroups;
  }

  /** Tables long enough for an m x k by k x n product. */
  predicate Covers(s: Scales, m: int, n: int, k: int) {
    && m > 0 && n > 0 && k > 0 && 0 < s.groupSize
    && NumGroups(k, s.groupSize) > 0
    && |s.aTab| >= Bytes(m, AGroups(s.aDim, k, s.groupSize), ElemSize(s.stor))
    && |s.bTab| >= Bytes(BGroups(s.bDim, k, s.groupSize), n, ElemSize(s.stor))
  }

  /** The scales once A and B have exchanged roles: tables transposed, a factor per row relabelled a factor per
      column and back. */
  function SwappedScales(s: Scales, m: int, n: int, k: int): Scales
    requires Covers(s, m, n, k)
  {
    Scales(Transposed(s.bTab, BGroups(s.bDim, k, s.groupSize), n, ElemSize(s.stor)),
           if s.bDim == PerChannel then PerToken else PerGroup,
           Transposed(s.aTab, m, AGroups(s.aDim, k, s.groupSize), ElemSize(s.stor)),
           if s.aDim == PerToken then PerChannel else PerGroup,
           s.stor, s.groupSize)
  }

  /** Factor (c, r) of a transposed table is factor (r, c) of the original. */
  lemma LoadTransposed(tab: seq<Byte>, rows: int, cols: int, r: int, c: int, stor: Stor, dec: Decoder)
    requires 0 <= r < rows && 0 <= c < cols && |tab| >= Bytes(rows, cols, ElemSize(stor))
    ensures Load(Transposed(tab, rows, cols, ElemSize(stor)), c * rows + r, stor, dec)
            == Load(tab, r * cols + c, stor, dec)
  {
    hide Transposed, Bytes;
    var w := ElemSize(stor);
    var dst := Transposed(tab, rows, cols, w);
    var x, y := (c * rows + r) * w, (r * cols + c) * w;
    TransposedAt(tab, rows, cols, w, r, c, 0);
    TransposedAt(tab, rows, cols, w, r, c, w - 1);
    MulLe(0, c, rows);
    MulLe(0, r, cols);
    var here, there := dst[x..x + w], tab[y..y + w];
    forall t | 0 <= t < w ensures here[t] == there[t] {
      TransposedAt(tab, rows, cols, w, r, c, t);
    }
    assert here == there;
  }

  lemma SwappedA(s: Scales, dec: Decoder, m: int, n: int, k: int, g: int, j: int)
    requires Covers(s, m, n, k) && 0 <= g < NumGroups(k, s.groupSize) && 0 <= j < n
    ensures ScaleA(SwappedScales(s, m, n, k), dec, k, j, g) == ScaleB(s, dec, k, n, g, j)
  {
    hide Load, Transposed, Bytes, NumGroups;
    var rows := BGroups(s.bDim, k, s.groupSize);
    LoadTransposed(s.bTab, rows, n, if s.bDim == PerChannel then 0 else g, j, s.stor, dec);
  }

  lemma SwappedB(s: Scales, dec: Decoder, m: int, n: int, k: int, g: int, i: int)
    requires Covers(s, m, n, k) && 0 <= g < NumGroups(k, s.groupSize) && 0 <= i < m
    ensures ScaleB(SwappedScales(s, m, n, k), dec, k, m, g, i) == ScaleA(s, dec, k, i, g)
  {
    hide Load, Transposed, Bytes, NumGroups;
    var cols := AGroups(s.aDim, k, s.groupSize);
    LoadTransposed(s.aTab, m, cols, i, if s.aDim == PerToken then 0 else g, s.stor, dec);
  }

  function Flip(M: IntMatrix): IntMatrix {
    (p, i) => M(i, p)
  }

  lemma GroupDotFlip(A: IntMatrix, B: IntMatrix, k: int, groupSize: int, i: int, j: int, g: int)
    ensures GroupDot(Flip(B), Flip(A), k, groupSize, j, i, g) == GroupDot(A, B, k, groupSize, i, j, g)
  {
    var f, h := p => Product(Flip(B)(j, p), Flip(A)(p, i)), p => Product(A(i, p), B(p, j));
    forall p ensures f(p) == h(p) {
      assert Flip(B)(j, p) == B(p, j) && Flip(A)(p, i) == A(i, p);
      Commutes(A(i, p), B(p, j));
    }
    IntSumExt(f, h, g * groupSize, Min(k, (g + 1) * groupSize));
  }

  lemma Commutes(x: int, y: int)
    ensures Product(x, y) == Product(y, x)
  {
  }

  lemma ScaledSwap(a: real, b: real, dot: int)
    ensures Scaled(a, b, dot) == Scaled(b, a, dot)
  {
  }

  /** Exchanging operands, transposed tables and granularity labels together leaves every scaled dot product as
      it was, for every combination of granularities and a last group of any length. */
  lemma SwapKeepsQuantDot(s: Scales, dec: Decoder, A: IntMatrix, B: IntMatrix, m: int, n: int, k: int, i: int, j: int)
    requires Covers(s, m, n, k) && 0 <= i < m && 0 <= j < n
    ensures QuantDot(SwappedScales(s, m, n, k), dec, Flip(B), Flip(A), k, m, j, i) == QuantDot(s, dec, A, B, k, n, i, j)
  {
    hide ScaleA, ScaleB, GroupDot, NumGroups, Transposed, Scaled;
    var t := SwappedScales(s, m, n, k);
    var lhs := g => Scaled(ScaleA(t, dec, k, j, g), ScaleB(t, dec, k, m, g, i),
                           GroupDot(Flip(B), Flip(A), k, s.groupSize, j, i, g));
    var rhs := g => Scaled(ScaleA(s, dec, k, i, g), ScaleB(s, dec, k, n, g, j),
                           GroupDot(A, B, k, s.groupSize, i, j, g));
    forall g | 0 <= g < NumGroups(k, s.groupSize) ensures lhs(g) == rhs(g) {
      SwappedA(s, dec, m, n, k, g, j);
      SwappedB(s, dec, m, n, k, g, i);
      GroupDotFlip(A, B, k, s.groupSize, i, j, g);
      ScaledSwap(ScaleA(s, dec, k, i, g), ScaleB(s, dec, k, n, g, j), GroupDot(A, B, k, s.groupSize, i, j, g));
    }
    SumExt(lhs, rhs, NumGroups(k, s.groupSize));
  }

  /** Only the first k columns of A's row i and rows of B's column j matter. */
  lemma QuantDotExt(s: Scales, dec: Decoder, A: IntMatrix, A': IntMatrix, B: IntMatrix, B': IntMatrix, k: int, n: int,
                    i: int, j: int)
    requires s.groupSize > 0
    requires forall p :: 0 <= p < k ==> A(i, p) == A'(i, p)
    requires forall p :: 0 <= p < k ==> B(p, j) == B'(p, j)
    ensures QuantDot(s, dec, A, B, k, n, i, j) == QuantDot(s, dec, A', B', k, n, i, j)
  {
    hide ScaleA, ScaleB, Scaled, GroupDot, NumGroups;
    var f := g => Scaled(ScaleA(s, dec, k, i, g), ScaleB(s, dec, k, n, g, j), GroupDot(A, B, k, s.groupSize, i, j, g));
    var h := g => Scaled(ScaleA(s, dec, k, i, g), ScaleB(s, dec, k, n, g, j),
                         GroupDot(A', B', k, s.groupSize, i, j, g));
    forall g | 0 <= g < NumGroups(k, s.groupSize) ensures f(g) == h(g) {
      GroupDotExt(A, A', B, B', k, s.groupSize, i, j, g);
    }
    SumExt(f, h, NumGroups(k, s.groupSize));
  }

  lemma GroupDotExt(A: IntMatrix, A': IntMatrix, B: IntMatrix, B': IntMatrix, k: int, groupSize: int, i: int, j: int,
                    g: int)
    requires groupSize > 0 && g >= 0
    requires forall p :: 0 <= p < k ==> A(i, p) == A'(i, p)
    requires forall p :: 0 <= p < k ==> B(p, j) == B'(p, j)
    ensures GroupDot(A, B, k, groupSize, i, j, g) == GroupDot(A', B', k, groupSize, i, j, g)
  {
    MulLe(0, g, groupSize);
    IntSumExt(p => Product(A(i, p), B(p, j)), p => Product(A'(i, p), B'(p, j)), g * groupSize,
              Min(k, (g + 1) * groupSize));
  }

  /** Every factor the kernel addresses for a cell of C lies within its table. */
  lemma FactorsInTables(s: Scales, m: int, n: int, k: int, i: int, j: int, g: int)
    requires Covers(s, m, n, k) && 0 <= i < m && 0 <= j < n && 0 <= g < NumGroups(k, s.groupSize)
    ensures 0 <= ASlot(s, k, i, g) && (ASlot(s, k, i, g) + 1) * ElemSize(s.stor) <= |s.aTab|
    ensures 0 <= BSlot(s, n, g, j) && (BSlot(s, n, g, j) + 1) * ElemSize(s.stor) <= |s.bTab|
  {
    hide NumGroups, ASlot, BSlot;
    SlotsAre(s, k, n, i, j, g);
    var aCols, bRows := AGroups(s.aDim, k, s.groupSize), BGroups(s.bDim, k, s.groupSize);
    TwoDigits(i, m, aCols, if s.aDim == PerToken then 0 else g);
    TwoDigits(if s.bDim == PerChannel then 0 else g, bRows, n, j);
    MulLe(ASlot(s, k, i, g) + 1, m * aCols, ElemSize(s.stor));
    MulLe(BSlot(s, n, g, j) + 1, bRows * n, ElemSize(s.stor));
  }

  /** Every byte of every factor a kernel addresses for a cell of C lies in its table. */
  ghost predicate InTables(s: Scales, m: int, n: int, k: int)
    requires s.groupSize > 0
  {
    && (forall i, g {:trigger ASlot(s, k, i, g)} :: 0 <= i < m && 0 <= g < NumGroups(k, s.groupSize) ==>
          0 <= ASlot(s, k, i, g) && (ASlot(s, k, i, g) + 1) * ElemSize(s.stor) <= |s.aTab|)
    && (forall g, j {:trigger BSlot(s, n, g, j)} :: 0 <= g < NumGroups(k, s.groupSize) && 0 <= j < n ==>
          0 <= BSlot(s, n, g, j) && (BSlot(s, n, g, j) + 1) * ElemSize(s.stor) <= |s.bTab|)
  }

  /** So it is exactly with tables that cover the product, whatever lengths were declared for them. */
  lemma InTablesIff(s: Scales, m: int, n: int, k: int)
    requires m > 0 && n > 0 && k > 0 && s.groupSize > 0 && NumGroups(k, s.groupSize) > 0
    ensures InTables(s, m, n, k) <==> Covers(s, m, n, k)
  {
    hide NumGroups, ASlot, BSlot, ElemSize;
    if InTables(s, m, n, k) {
      var g := NumGroups(k, s.groupSize) - 1;
      SlotsAre(s, k, n, m - 1, n - 1, g);
      LastSlot(m, AGroups(s.aDim, k, s.groupSize));
      LastSlot(BGroups(s.bDim, k, s.groupSize), n);
      assert (ASlot(s, k, m - 1, g) + 1) * ElemSize(s.stor) <= |s.aTab|;
      assert (BSlot(s, n, g, n - 1) + 1) * ElemSize(s.stor) <= |s.bTab|;
    } else if Covers(s, m, n, k) {
      forall i, g | 0 <= i < m && 0 <= g < NumGroups(k, s.groupSize)
        ensures 0 <= ASlot(s, k, i, g) && (ASlot(s, k, i, g) + 1) * ElemSize(s.stor) <= |s.aTab|
      {
        FactorsInTables(s, m, n, k, i, 0, g);
      }
      forall g, j | 0 <= g < NumGroups(k, s.groupSize) && 0 <= j < n
        ensures 0 <= BSlot(s, n, g, j) && (BSlot(s, n, g, j) + 1) * ElemSize(s.stor) <= |s.bTab|
      {
        FactorsInTables(s, m, n, k, 0, j, g);
      }
    }
  }

  lemma LastSlot(rows: int, cols: int)
    ensures (rows - 1) * cols + (cols - 1) + 1 == rows * cols
  {
  }

  /** The exchanged tables cover the transposed product. */
  lemma SwappedCovers(s: Scales, m: int, n: int, k: int)
    requires Covers(s, m, n, k)
    ensures Covers(SwappedScales(s, m, n, k), n, m, k) && SwappedScales(s, m, n, k).groupSize == s.groupSize
  {
    hide NumGroups, Bytes, Transposed;
    BytesFacts(BGroups(s.bDim, k, s.groupSize), n, ElemSize(s.stor));
    BytesFacts(m, AGroups(s.aDim, k, s.groupSize), ElemSize(s.stor));
  }

  /** Factor number idx of a caller's table, by the type declared for it: six types are decoded as themselves, every
      other as the invalid one; two bytes are taken for bf16, four for any other. */
  function Factor(data: seq<Byte>, declared: Stor, idx: int, dec: Decoder): real {
    var w := if declared == StorBF16 then 2 else 4;
    if 0 <= idx && idx * w + w <= |data| then
      dec(if declared in {StorF32, StorBF16, StorF16, StorS8, StorU8, StorS32} then declared else StorInvalid,
          data[idx * w..idx * w + w])
    else 0.0
  }

  /** A caller's tables: the declared type, and per operand the bytes and whether one factor serves a row or column. */
  datatype Declared = Declared(aData: seq<Byte>, perRow: bool, bData: seq<Byte>, perColumn: bool, stor: Stor)

  /** What group g of gs rows adds: A factor times B factor times the integer dot product of its rows. */
  function GroupTerm(d: Declared, dec: Decoder, gs: int, A: IntMatrix, B: IntMatrix, k: int, n: int, i: int, j: int,
                     g: int): real
    requires gs > 0
  {
    Factor(d.aData, d.stor, if d.perRow then i else i * ((k + gs - 1) / gs) + g, dec)
    * Factor(d.bData, d.stor, if d.perColumn then j else g * n + j, dec)
    * (IntSum(p => A(i, p) * B(p, j), g * gs, if (g + 1) * gs < k then (g + 1) * gs else k) as real)
  }

  function GroupedProducts(d: Declared, dec: Decoder, gs: int, A: IntMatrix, B: IntMatrix, k: int, n: int)
    : (int, int) -> real
    requires gs > 0
  {
    (i, j) => Sum(g => GroupTerm(d, dec, gs, A, B, k, n, i, j, g), (k + gs - 1) / gs)
  }

  lemma FactorIs(tab: seq<Byte>, declared: Stor, idx: int, dec: Decoder)
    ensures Load(tab, idx, Recorded(declared), dec) == Factor(tab, declared, idx, dec)
  {
  }

  lemma GroupDotInTerms(A: IntMatrix, B: IntMatrix, k: int, gs: int, i: int, j: int, g: int)
    ensures GroupDot(A, B, k, gs, i, j, g)
            == IntSum(p => A(i, p) * B(p, j), g * gs, if (g + 1) * gs < k then (g + 1) * gs else k)
  {
    var products, plain := p => Product(A(i, p), B(p, j)), p => A(i, p) * B(p, j);
    forall p ensures products(p) == plain(p) { assert Product(A(i, p), B(p, j)) == A(i, p) * B(p, j); }
    IntSumExt(products, plain, g * gs, Min(k, (g + 1) * gs));
  }

  lemma GroupTermIs(d: Declared, s: Scales, dec: Decoder, A: IntMatrix, B: IntMatrix, k: int, n: int, i: int, j: int,
                    g: int)
    requires s.groupSize > 0 && s.aTab == d.aData && s.bTab == d.bData && s.stor == Recorded(d.stor)
    requires (s.aDim == PerToken <==> d.perRow) && (s.bDim == PerChannel <==> d.perColumn)
    ensures Scaled(ScaleA(s, dec, k, i, g), ScaleB(s, dec, k, n, g, j), GroupDot(A, B, k, s.groupSize, i, j, g))
            == GroupTerm(d, dec, s.groupSize, A, B, k, n, i, j, g)
  {
    hide Load, Factor, GroupDot, IntSum, Recorded;
    FactorIs(d.aData, d.stor, if d.perRow then i else i * NumGroups(k, s.groupSize) + g, dec);
    FactorIs(d.bData, d.stor, if d.perColumn then j else g * n + j, dec);
    GroupDotInTerms(A, B, k, s.groupSize, i, j, g);
  }

  /** The scaled sum the model is stated with is the one of the caller's declared tables. */
  lemma QuantDotIs(d: Declared, s: Scales, dec: Decoder, A: IntMatrix, B: IntMatrix, k: int, n: int, i: int, j: int)
    requires s.groupSize > 0 && s.aTab == d.aData && s.bTab == d.bData && s.stor == Recorded(d.stor)
    requires (s.aDim == PerToken <==> d.perRow) && (s.bDim == PerChannel <==> d.perColumn)
    ensures QuantDot(s, dec, A, B, k, n, i, j) == GroupedProducts(d, dec, s.groupSize, A, B, k, n)(i, j)
  {
    hide ScaleA, ScaleB, Scaled, GroupDot, GroupTerm;
    var meant := g => GroupTerm(d, dec, s.groupSize, A, B, k, n, i, j, g);
    var dot := g => Scaled(ScaleA(s, dec, k, i, g), ScaleB(s, dec, k, n, g, j),
                           GroupDot(A, B, k, s.groupSize, i, j, g));
    forall g ensures dot(g) == meant(g) { GroupTermIs(d, s, dec, A, B, k, n, i, j, g); }
    SumExt(dot, meant, NumGroups(k, s.groupSize));
  }
}
