/** Memory writes of concurrent threads: what memory holds after any interleaving of them. */
module Traces {
  datatype Option<+T> = None | Some(value: T)

  datatype Write<+T> = Write(addr: int, val: T)

  /** The value the last write to x stored, if x was written at all. */
  function Last<T>(t: seq<Write<T>>, x: int): Option<T> {
    if t == [] then None
    else if t[|t| - 1].addr == x then Some(t[|t| - 1].val)
    else Last(t[..|t| - 1], x)
  }

  predicate InBounds<T>(t: seq<Write<T>>, size: int) {
    forall i :: 0 <= i < |t| ==> 0 <= t[i].addr < size
  }

  /** Memory after the writes, in order. */
  function Apply<T>(mem: seq<T>, t: seq<Write<T>>): (r: seq<T>)
    requires InBounds(t, |mem|)
    ensures |r| == |mem|
  {
    if t == [] then mem
    else Apply(mem, t[..|t| - 1])[t[|t| - 1].addr := t[|t| - 1].val]
  }

  lemma {:induction false} ApplyAt<T>(mem: seq<T>, t: seq<Write<T>>, x: int)
    requires InBounds(t, |mem|) && 0 <= x < |mem|
    ensures Apply(mem, t)[x] == if Last(t, x).Some? then Last(t, x).value else mem[x]
  {
    if t != [] {
      ApplyAt(mem, t[..|t| - 1], x);
    }
  }

  /** Writes below `size` leave everything from there on alone. */
  lemma ApplyPrefix<T>(mem: seq<T>, t: seq<Write<T>>, size: int)
    requires InBounds(t, size) && 0 <= size <= |mem|
    ensures InBounds(t, |mem|) && Apply(mem, t)[..size] == Apply(mem[..size], t) && Apply(mem, t)[size..] == mem[size..]
  {
    forall x | 0 <= x < |mem|
      ensures Apply(mem, t)[x] == if x < size then Apply(mem[..size], t)[x] else mem[x]
    {
      ApplyAt(mem, t, x);
      if x < size {
        ApplyAt(mem[..size], t, x);
      } else {
        LastNone(t, x);
      }
    }
  }

  lemma LastSnoc<T>(t: seq<Write<T>>, w: Write<T>, x: int)
    ensures Last(t + [w], x) == if w.addr == x then Some(w.val) else Last(t, x)
  {
    assert (t + [w])[..|t|] == t;
  }

  lemma ApplySnoc<T>(mem: seq<T>, t: seq<Write<T>>, w: Write<T>)
    requires InBounds(t, |mem|) && 0 <= w.addr < |mem|
    ensures InBounds(t + [w], |mem|) && Apply(mem, t + [w]) == Apply(mem, t)[w.addr := w.val]
  {
    assert (t + [w])[..|t|] == t;
  }

  lemma {:induction false} LastConcat<T>(t: seq<Write<T>>, u: seq<Write<T>>, x: int)
    ensures Last(t + u, x) == if Last(u, x).Some? then Last(u, x) else Last(t, x)
  {
    if u == [] {
      assert t + u == t;
    } else {
      LastConcat(t, u[..|u| - 1], x);
      assert t + u == t + u[..|u| - 1] + [u[|u| - 1]];
      LastSnoc(t + u[..|u| - 1], u[|u| - 1], x);
    }
  }

  lemma {:induction false} ApplyConcat<T>(mem: seq<T>, t: seq<Write<T>>, u: seq<Write<T>>)
    requires InBounds(t, |mem|) && InBounds(u, |mem|)
    ensures InBounds(t + u, |mem|) && Apply(mem, t + u) == Apply(Apply(mem, t), u)
  {
    if u == [] {
      assert t + u == t;
    } else {
      ApplyConcat(mem, t, u[..|u| - 1]);
      assert t + u == t + u[..|u| - 1] + [u[|u| - 1]];
      ApplySnoc(mem, t + u[..|u| - 1], u[|u| - 1]);
    }
  }

  lemma {:induction false} LastNone<T>(t: seq<Write<T>>, x: int)
    ensures Last(t, x).None? <==> forall i :: 0 <= i < |t| ==> t[i].addr != x
  {
    if t != [] {
      LastNone(t[..|t| - 1], x);
      assert forall i :: 0 <= i < |t| - 1 ==> t[..|t| - 1][i] == t[i];
    }
  }

  /** The same writes, d addresses further on. */
  function Shifted<T>(t: seq<Write<T>>, d: int): (r: seq<Write<T>>)
    ensures |r| == |t|
  {
    if t == [] then [] else Shifted(t[..|t| - 1], d) + [Write(t[|t| - 1].addr + d, t[|t| - 1].val)]
  }

  lemma {:induction false} LastShifted<T>(t: seq<Write<T>>, d: int, x: int)
    ensures Last(Shifted(t, d), x) == Last(t, x - d)
  {
    if t != [] {
      LastShifted(t[..|t| - 1], d, x);
      LastSnoc(Shifted(t[..|t| - 1], d), Write(t[|t| - 1].addr + d, t[|t| - 1].val), x);
    }
  }

  /** One write of one thread, as it reaches memory. */
  datatype Step<+T> = Step(thread: nat, write: Write<T>)

  function Writes<T>(run: seq<Step<T>>): (r: seq<Write<T>>)
    ensures |r| == |run|
  {
    if run == [] then [] else Writes(run[..|run| - 1]) + [run[|run| - 1].write]
  }

  /** What thread t did, in its own order. */
  function ByThread<T>(run: seq<Step<T>>, t: nat): seq<Write<T>> {
    if run == [] then []
    else ByThread(run[..|run| - 1], t)
         + (if run[|run| - 1].thread == t then [run[|run| - 1].write] else [])
  }

  /** A run interleaves the threads' own traces, in any order at all. */
  predicate Interleaves<T(==)>(run: seq<Step<T>>, traces: seq<seq<Write<T>>>) {
    && (forall i :: 0 <= i < |run| ==> run[i].thread < |traces|)
    && (forall t :: 0 <= t < |traces| ==> ByThread(run, t) == traces[t])
  }

  lemma {:induction false} LastOfOwner<T>(run: seq<Step<T>>, t: nat, x: int)
    requires forall i :: 0 <= i < |run| && run[i].write.addr == x ==> run[i].thread == t
    ensures Last(Writes(run), x) == Last(ByThread(run, t), x)
  {
    if run != [] {
      var front, w := run[..|run| - 1], run[|run| - 1].write;
      LastOfOwner(front, t, x);
      LastSnoc(Writes(front), w, x);
      LastSnoc(ByThread(front, t), w, x);
      assert ByThread(front, t) + [] == ByThread(front, t);
    }
  }

  lemma {:induction false} StepOfThread<T>(run: seq<Step<T>>, i: int)
    requires 0 <= i < |run|
    ensures run[i].write in ByThread(run, run[i].thread)
  {
    if i < |run| - 1 {
      StepOfThread(run[..|run| - 1], i);
    }
  }

  /** An address only one thread writes ends up, after any interleaving, as that thread alone left it. */
  lemma OwnerDecides<T>(run: seq<Step<T>>, traces: seq<seq<Write<T>>>, t: nat, x: int)
    requires Interleaves(run, traces) && t < |traces|
    requires forall u :: 0 <= u < |traces| && u != t ==> Last(traces[u], x).None?
    ensures Last(Writes(run), x) == Last(traces[t], x)
  {
    forall i | 0 <= i < |run| && run[i].write.addr == x ensures run[i].thread == t {
      var u := run[i].thread;
      StepOfThread(run, i);
      LastNone(traces[u], x);
    }
    LastOfOwner(run, t, x);
  }

  lemma {:induction false} WritesAt<T>(run: seq<Step<T>>, i: int)
    requires 0 <= i < |run|
    ensures Writes(run)[i] == run[i].write
  {
    if i < |run| - 1 {
      WritesAt(run[..|run| - 1], i);
    }
  }

  lemma RunInBounds<T>(run: seq<Step<T>>, traces: seq<seq<Write<T>>>, size: int)
    requires Interleaves(run, traces) && forall t :: 0 <= t < |traces| ==> InBounds(traces[t], size)
    ensures InBounds(Writes(run), size)
  {
    forall i | 0 <= i < |run| ensures 0 <= Writes(run)[i].addr < size {
      WritesAt(run, i);
      StepOfThread(run, i);
      var t := run[i].thread;
      assert InBounds(traces[t], size);
    }
  }
}
