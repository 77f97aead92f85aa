/** The single-column paths: B with n == 1 is kept as a plain contiguous vector. */
module ColumnCopy {
  import opened Arith
  import opened PanelPack

  lemma ColumnAddr(p: int, rs: int)
    ensures Addr(p, 0, rs, 0) == p * rs
  {
  }

  lemma UnitColumn(k: int)
    ensures forall p :: 0 <= p < k ==> Addr(p, 0, 1, 0) == p
  {
  }

  /** Gathers the k elements of a strided column: a plain copy when they are adjacent. */
  method GatherColumn<T>(buf: array<T>, input: seq<T>, k: int, rs: int)
    requires 0 <= k <= buf.Length && forall p :: 0 <= p < k ==> 0 <= Addr(p, 0, rs, 0) < |input|
    modifies buf
    ensures forall p :: 0 <= p < k ==> buf[p] == input[Addr(p, 0, rs, 0)]
    ensures buf[k..] == old(buf[k..])
  {
    hide Addr;
    if rs == 1 {
      UnitColumn(k);
      if k > 0 { ColumnAddr(k - 1, 1); }
      forall p | 0 <= p < k { buf[p] := input[p]; }
    } else {
      var k0 := 0;
      while k0 < k
        invariant 0 <= k0 <= k
        invariant forall p :: 0 <= p < k0 ==> buf[p] == input[Addr(p, 0, rs, 0)]
        invariant buf[k..] == old(buf[k..])
      {
        ColumnAddr(k0, rs);
        buf[k0] := input[k0 * rs];
        k0 := k0 + 1;
      }
    }
  }

  /** An address of the strided column. */
  ghost predicate InColumn(x: int, k: int, rs: int) {
    exists p :: 0 <= p < k && x == Addr(p, 0, rs, 0)
  }

  /** Scatters a contiguous vector back over a strided column. */
  method ScatterColumn<T>(out: array<T>, packed: seq<T>, k: int, rs: int)
    requires rs >= 1 && 0 <= k <= |packed| && forall p :: 0 <= p < k ==> 0 <= Addr(p, 0, rs, 0) < out.Length
    modifies out
    ensures forall p :: 0 <= p < k ==> out[Addr(p, 0, rs, 0)] == packed[p]
    ensures forall x :: 0 <= x < out.Length && !InColumn(x, k, rs) ==> out[x] == old(out[x])
  {
    hide Addr;
    if rs == 1 {
      UnitColumn(k);
      if k > 0 { ColumnAddr(k - 1, 1); }
      forall p | 0 <= p < k { out[p] := packed[p]; }
      assert forall x :: 0 <= x < k ==> InColumn(x, k, rs) by {
        forall x | 0 <= x < k ensures InColumn(x, k, rs) { ColumnAddr(x, 1); }
      }
    } else {
      var k0 := 0;
      while k0 < k
        invariant 0 <= k0 <= k
        invariant forall p :: 0 <= p < k0 ==> out[Addr(p, 0, rs, 0)] == packed[p]
        invariant forall x :: 0 <= x < out.Length && !InColumn(x, k, rs) ==> out[x] == old(out[x])
      {
        ColumnAddr(k0, rs);
        assert InColumn(Addr(k0, 0, rs, 0), k, rs);
        forall p | 0 <= p < k0 ensures Addr(p, 0, rs, 0) < Addr(k0, 0, rs, 0) {
          ColumnAddr(p, rs);
          MulLe(p + 1, k0, rs);
          Distribute(p, 1, rs);
        }
        out[k0 * rs] := packed[k0];
        k0 := k0 + 1;
      }
    }
  }
}
