/** The layouts a symmetric-quantised B may be reordered to, and which of them is in use. */
module GroupedLayout {
  import opened Arith
  import opened PanelLayout
  import opened BlockedLayout
  import opened BufferTerms

  /** `dlp_gemm_align_kc_to_group`. */
  function AlignKc(kc: int, groupSize: int): int
    requires groupSize > 0
  {
    if groupSize > kc then groupSize
    else if kc % groupSize != 0 then (kc / groupSize) * groupSize
    else kc
  }

  /** The aligned KC is a whole number of groups: the least that holds one, or else the most that fits. */
  lemma AlignedKc(kc: int, groupSize: int)
    requires kc > 0 && groupSize > 0
    ensures AlignKc(kc, groupSize) > 0 && AlignKc(kc, groupSize) % groupSize == 0
    ensures if groupSize > kc then AlignKc(kc, groupSize) == groupSize
            else AlignKc(kc, groupSize) <= kc < AlignKc(kc, groupSize) + groupSize
  {
    var q := kc / groupSize;
    assert q * groupSize + kc % groupSize == kc;
    MulMod(q, groupSize);
    MulMod(1, groupSize);
  }

  /** The gate of the tight single-column layout, as every entry point writes it. */
  predicate Tight(n: int, k: int, kc: int, groupSize: int)
    requires groupSize > 0
  {
    n == 1 && k % groupSize == 0 && AlignKc(kc, groupSize) % groupSize == 0
  }

  /** The KC half of the gate never decides. */
  lemma TightIff(n: int, k: int, kc: int, groupSize: int)
    requires kc > 0 && groupSize > 0
    ensures Tight(n, k, kc, groupSize) <==> n == 1 && k % groupSize == 0
  {
    AlignedKc(kc, groupSize);
  }

  /** Block sizes of the int8 entries of the block-size table. */
  datatype BlockTable = BlockTable(NR: int, NC: int, KC: int) {
    predicate Legal() {
      NR > 0 && NC > 0 && KC > 0 && NR % 16 == 0 && NC % NR == 0 && KC % 4 == 0
    }
  }

  /** What the group-size checks of reorder and GEMM let through. */
  predicate GroupSize(groupSize: int, k: int) {
    0 < groupSize <= k && (groupSize == k || groupSize % 4 == 0)
  }

  /** Panels of a grouped B: a single group keeps the table's KC, more groups align it. */
  function GroupedShape(k: int, n: int, t: BlockTable, groupSize: int): Shape
    requires groupSize > 0
  {
    Shape(k, n, Blocking(t.NR, 16, t.NC, if groupSize == k then t.KC else AlignKc(t.KC, groupSize), 4))
  }

  /** The panels are well-formed, and no group of several straddles two K blocks. */
  lemma GroupedShapeValid(k: int, n: int, t: BlockTable, groupSize: int)
    requires t.Legal() && GroupSize(groupSize, k) && n > 0
    ensures GroupedShape(k, n, t, groupSize).Valid()
    ensures groupSize != k ==> GroupedShape(k, n, t, groupSize).blk.KC % groupSize == 0
  {
    AlignedKc(t.KC, groupSize);
    if groupSize != k { MultTrans(AlignKc(t.KC, groupSize), groupSize, 4); }
  }

  lemma PanelsAre(k: int, n: int, t: BlockTable, groupSize: int)
    requires t.Legal() && GroupSize(groupSize, k) && n > 0
    ensures GroupedShape(k, n, t, groupSize) == Panels(k, n, t.NR, t.NC, t.KC, groupSize)
    ensures GroupedShape(k, n, t, groupSize).Valid()
  {
    GroupedShapeValid(k, n, t, groupSize);
    assert t.KC % groupSize == 0 ==> t.KC / groupSize * groupSize == t.KC;
  }

  /** How the GEMM reads a reordered B: a plain vector under the gate of the tight layout, panels otherwise. */
  function ReadGrouped<T>(b: int -> T, k: int, n: int, t: BlockTable, groupSize: int, p: int, j: int): T
    requires t.Legal() && GroupSize(groupSize, k) && n > 0
  {
    GroupedShapeValid(k, n, t, groupSize);
    if Tight(n, k, t.KC, groupSize) then b(p) else b(Pos(GroupedShape(k, n, t, groupSize), p, j))
  }
}
