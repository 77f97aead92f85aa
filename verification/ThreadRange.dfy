/** How a loop range is split among threads. */
module ThreadRange {
  import opened Arith

  /** `dlp_thread_task_range` with the leftover at the high end, as every caller asks: the slice
      [start, end) of [0, n) that work id `id` of `ways` owns, in units of bf. */
  function TaskRange(ways: int, id: int, n: int, bf: int): (int, int)
    requires bf > 0
  {
    if id < 0 || id >= ways then (n, n)
    else if ways == 1 then (0, n)
    else
      var lo := (n / bf) / ways;
      var extra := (n / bf) % ways;
      var sizeLo := (lo + (if extra != 0 then 1 else 0)) * bf;
      var sizeHi := lo * bf;
      var hiStart := extra * sizeLo;
      if id < extra then (id * sizeLo, (id + 1) * sizeLo)
      else (hiStart + (id - extra) * sizeHi,
            hiStart + (id - extra + 1) * sizeHi + (if id == ways - 1 then n % bf else 0))
  }

  /** Whole bf units owned by the work ids below `id`. */
  function UnitsBelow(ways: int, id: int, n: int, bf: int): int
    requires bf > 0 && ways > 0
  {
    id * ((n / bf) / ways) + Min(id, (n / bf) % ways)
  }

  lemma LowIds(id: int, lo: int, bf: int)
    ensures id * ((lo + 1) * bf) == (id * lo + id) * bf
  {
    MulAssoc(id, lo + 1, bf);
  }

  lemma HighIds(id: int, extra: int, lo: int, bf: int)
    ensures extra * ((lo + 1) * bf) + (id - extra) * (lo * bf) == (id * lo + extra) * bf
  {
    LowIds(extra, lo, bf);
    MulAssoc(id - extra, lo, bf);
    Distribute((id - extra) * lo, extra * lo + extra, bf);
  }

  /** Each slice starts where the slices before it end. */
  lemma RangeIs(ways: int, id: int, n: int, bf: int)
    requires bf > 0 && n >= 0 && 0 <= id < ways
    ensures var (start, end) := TaskRange(ways, id, n, bf);
      && start == UnitsBelow(ways, id, n, bf) * bf
      && end == UnitsBelow(ways, id + 1, n, bf) * bf + (if id == ways - 1 then n % bf else 0)
  {
    var units := n / bf;
    var lo, extra := units / ways, units % ways;
    if ways == 1 {
      DivModUnique(units, 1, units, 0);
    } else if id < extra {
      LowIds(id, lo, bf);
      LowIds(id + 1, lo, bf);
    } else {
      HighIds(id, extra, lo, bf);
      HighIds(id + 1, extra, lo, bf);
    }
  }

  lemma UnitsStep(ways: int, a: int, b: int, n: int, bf: int)
    requires bf > 0 && n >= 0 && 0 <= a <= b <= ways && ways > 0
    ensures 0 <= UnitsBelow(ways, a, n, bf) <= UnitsBelow(ways, b, n, bf) <= n / bf
    ensures UnitsBelow(ways, ways, n, bf) == n / bf
  {
    var units := n / bf;
    DivNonneg(n, bf);
    DivNonneg(units, ways);
    StepUnits(units / ways, units % ways, ways, a, b);
  }

  lemma StepUnits(lo: int, extra: int, ways: int, a: int, b: int)
    requires 0 <= lo && 0 <= extra < ways && 0 <= a <= b <= ways
    ensures 0 <= a * lo + Min(a, extra) <= b * lo + Min(b, extra) <= lo * ways + extra
  {
    MulLe(0, a, lo);
    MulLe(a, b, lo);
    MulLe(b, ways, lo);
  }

  /** A range a thread of a team may be handed: a bf-aligned start, and an end that is aligned or is n. */
  predicate Slice(start: int, end: int, n: int, bf: int)
    requires bf > 0
  {
    0 <= start <= end <= n && start % bf == 0 && (end == n || end % bf == 0)
  }

  lemma RangeIsSlice(ways: int, id: int, n: int, bf: int)
    requires bf > 0 && n >= 0 && 0 <= id < ways
    ensures var (start, end) := TaskRange(ways, id, n, bf); Slice(start, end, n, bf)
  {
    hide TaskRange, UnitsBelow;
    var u, v := UnitsBelow(ways, id, n, bf), UnitsBelow(ways, id + 1, n, bf);
    RangeIs(ways, id, n, bf);
    UnitsStep(ways, id, id + 1, n, bf);
    MulMod(u, bf);
    MulMod(v, bf);
    MulLe(0, u, bf);
    MulLe(u, v, bf);
    MulLe(v, n / bf, bf);
  }

  /** The slices of a full team tile [0, n): any two are disjoint, and none leaves a gap. */
  lemma RangesAreOrdered(ways: int, a: int, b: int, n: int, bf: int)
    requires bf > 0 && n >= 0 && 0 <= a < b < ways
    ensures TaskRange(ways, a, n, bf).1 <= TaskRange(ways, b, n, bf).0
    ensures b == a + 1 ==> TaskRange(ways, a, n, bf).1 == TaskRange(ways, b, n, bf).0
    ensures TaskRange(ways, 0, n, bf).0 == 0 && TaskRange(ways, ways - 1, n, bf).1 == n
  {
    hide TaskRange, UnitsBelow;
    RangeIs(ways, a, n, bf);
    RangeIs(ways, b, n, bf);
    UnitsStep(ways, a + 1, b, n, bf);
    MulLe(UnitsBelow(ways, a + 1, n, bf), UnitsBelow(ways, b, n, bf), bf);
    RangeEnds(ways, n, bf);
  }

  lemma RangeEnds(ways: int, n: int, bf: int)
    requires bf > 0 && n >= 0 && ways > 0
    ensures TaskRange(ways, 0, n, bf).0 == 0 && TaskRange(ways, ways - 1, n, bf).1 == n
  {
    hide TaskRange;
    RangeIs(ways, 0, n, bf);
    RangeIs(ways, ways - 1, n, bf);
    UnitsStep(ways, 0, ways, n, bf);
    DivBetween(n, bf, 0, n + 1);
    DivNonneg(n, bf);
  }

  /** Whole units of a slice. */
  function Units(ways: int, id: int, n: int, bf: int): int
    requires bf > 0
  {
    (TaskRange(ways, id, n, bf).1 - TaskRange(ways, id, n, bf).0) / bf
  }

  lemma StepOfUnits(ways: int, id: int, n: int, bf: int)
    requires bf > 0 && n >= 0 && 0 <= id < ways
    ensures UnitsBelow(ways, id + 1, n, bf) - UnitsBelow(ways, id, n, bf)
            == (n / bf) / ways + (if id < (n / bf) % ways then 1 else 0)
  {
    Distribute(id, 1, (n / bf) / ways);
  }

  lemma UnitsAre(ways: int, id: int, n: int, bf: int)
    requires bf > 0 && n >= 0 && 0 <= id < ways
    ensures Units(ways, id, n, bf) == UnitsBelow(ways, id + 1, n, bf) - UnitsBelow(ways, id, n, bf)
  {
    hide TaskRange, UnitsBelow;
    RangeIs(ways, id, n, bf);
    WidthInUnits(UnitsBelow(ways, id, n, bf), UnitsBelow(ways, id + 1, n, bf), if id == ways - 1 then n % bf else 0,
                 bf);
  }

  lemma WidthInUnits(u: int, v: int, rest: int, bf: int)
    requires 0 <= rest < bf
    ensures ((v * bf + rest) - u * bf) / bf == v - u
  {
    Distribute(v, -u, bf);
    DivModUnique((v - u) * bf + rest, bf, v - u, rest);
  }

  /** The load is as even as whole units allow, larger shares first, and ids outside the team have none. */
  lemma RangesAreBalanced(ways: int, a: int, b: int, n: int, bf: int)
    requires bf > 0 && n >= 0
    ensures 0 <= a <= b < ways ==> Units(ways, b, n, bf) <= Units(ways, a, n, bf) <= Units(ways, b, n, bf) + 1
    ensures !(0 <= a < ways) ==> TaskRange(ways, a, n, bf) == (n, n)
  {
    hide Units, UnitsBelow;
    if 0 <= a <= b < ways {
      UnitsAre(ways, a, n, bf);
      UnitsAre(ways, b, n, bf);
      StepOfUnits(ways, a, n, bf);
      StepOfUnits(ways, b, n, bf);
    }
  }

  /** Column j is written by some thread of a team of which only the first `team` ids exist. */
  predicate Covered(j: int, ways: int, team: int, n: int, bf: int)
    requires bf > 0
  {
    exists id :: 0 <= id < team && TaskRange(ways, id, n, bf).0 <= j < TaskRange(ways, id, n, bf).1
  }

  /** A short team covers a prefix: everything below the end of its last slice. */
  lemma {:induction false} CoveredIsPrefix(j: int, ways: int, team: int, n: int, bf: int)
    requires bf > 0 && n >= 0 && 1 <= team <= ways && 0 <= j
    ensures Covered(j, ways, team, n, bf) <==> j < TaskRange(ways, team - 1, n, bf).1
    decreases team
  {
    hide TaskRange;
    RangeEnds(ways, n, bf);
    RangeIsSlice(ways, team - 1, n, bf);
    if team == 1 {
      assert j < TaskRange(ways, 0, n, bf).1 ==> Covered(j, ways, team, n, bf);
    } else {
      CoveredIsPrefix(j, ways, team - 1, n, bf);
      RangesAreOrdered(ways, team - 2, team - 1, n, bf);
      if TaskRange(ways, team - 1, n, bf).0 <= j < TaskRange(ways, team - 1, n, bf).1 {
        assert Covered(j, ways, team, n, bf);
      }
      if Covered(j, ways, team - 1, n, bf) {
        var id :| 0 <= id < team - 1 && TaskRange(ways, id, n, bf).0 <= j < TaskRange(ways, id, n, bf).1;
        assert Covered(j, ways, team, n, bf);
      }
      if Covered(j, ways, team, n, bf) {
        var id :| 0 <= id < team && TaskRange(ways, id, n, bf).0 <= j < TaskRange(ways, id, n, bf).1;
        if id < team - 1 { assert Covered(j, ways, team - 1, n, bf); }
      }
    }
  }

  /** Of `ways` threads asked for, `team` are enough. */
  predicate Suffices(ways: int, team: int, n: int, bf: int)
    requires bf > 0
  {
    team == ways || (n % bf == 0 && n / bf <= team)
  }

  /** A team that splits by the count it asked for covers every column exactly when no requested thread is
      missing, or when the columns are whole units and the missing threads would have had none. */
  lemma TeamCoversIff(ways: int, team: int, n: int, bf: int)
    requires bf > 0 && n > 0 && 1 <= team <= ways
    ensures (forall j :: 0 <= j < n ==> Covered(j, ways, team, n, bf))
            <==> Suffices(ways, team, n, bf)
  {
    hide TaskRange, UnitsBelow;
    var end := TaskRange(ways, team - 1, n, bf).1;
    forall j | 0 <= j < n ensures Covered(j, ways, team, n, bf) <==> j < end {
      CoveredIsPrefix(j, ways, team, n, bf);
    }
    assert (forall j :: 0 <= j < n ==> Covered(j, ways, team, n, bf)) <==> end >= n by {
      if end < n {
        RangeIsSlice(ways, team - 1, n, bf);
        assert !Covered(n - 1, ways, team, n, bf);
      }
    }
    RangeEnds(ways, n, bf);
    if team < ways {
      RangeIs(ways, team - 1, n, bf);
      UnitsStep(ways, team, ways, n, bf);
      MulLe(UnitsBelow(ways, team, n, bf), n / bf, bf);
      UnitsComplete(ways, team, n, bf);
      if UnitsBelow(ways, team, n, bf) < n / bf {
        MulLe(UnitsBelow(ways, team, n, bf) + 1, n / bf, bf);
        Distribute(UnitsBelow(ways, team, n, bf), 1, bf);
      }
    }
  }

  /** The first `team` ids own every unit exactly when there are no more units than ids. */
  lemma UnitsComplete(ways: int, team: int, n: int, bf: int)
    requires bf > 0 && n >= 0 && 1 <= team < ways
    ensures UnitsBelow(ways, team, n, bf) == n / bf <==> n / bf <= team
  {
    var units := n / bf;
    DivNonneg(n, bf);
    DivNonneg(units, ways);
    var lo, extra := units / ways, units % ways;
    if lo == 0 {
    } else {
      MulLe(1, lo, ways - team);
      Distribute(team, ways - team, lo);
      MulLe(1, lo, team);
      assert units == lo * ways + extra;
    }
  }
}
