/** The free list as a queue: allocations, freed pages and commits interleaved in any order. */
module FreeQueue {
  import opened CowNodes
  import opened MasterCodec
  import opened Database

  datatype Move = Hand | Release(ps: seq<nat>) | Switch

  /** One allocation, one batch of freed pages, or one commit. */
  function Moved(a: Alloc, m: Move): Alloc {
    match m
    case Hand => Take(a)
    case Release(ps) => Free(a, ps)
    case Switch => Commit(a)
  }

  function After(a: Alloc, ms: seq<Move>): Alloc
    decreases |ms|
  {
    if |ms| == 0 then a else After(Moved(a, ms[0]), ms[1..])
  }

  /** The pages the list handed out, in order. */
  function Popped(a: Alloc, ms: seq<Move>): seq<nat>
    decreases |ms|
  {
    if |ms| == 0 then []
    else (if ms[0].Hand? && |a.fl| > 0 then [a.fl[0]] else []) + Popped(Moved(a, ms[0]), ms[1..])
  }

  /** What a move appends to the list: a commit the freed pages, if the list with them ends before the end of the
      4096 bytes of the master page. */
  function Added(a: Alloc, m: Move): seq<nat> {
    if m.Switch? && 8 + 4 * (|a.fl| + |a.pend|) < 4096 then a.pend else []
  }

  /** The pages commits appended to the list, in order. */
  function Published(a: Alloc, ms: seq<Move>): seq<nat>
    decreases |ms|
  {
    if |ms| == 0 then []
    else Added(a, ms[0]) + Published(Moved(a, ms[0]), ms[1..])
  }

  /** The pages handed out from the end of the file, in order. */
  function Bumped(a: Alloc, ms: seq<Move>): seq<nat>
    decreases |ms|
  {
    if |ms| == 0 then []
    else (if ms[0].Hand? && |a.fl| == 0 then [a.cur] else []) + Bumped(Moved(a, ms[0]), ms[1..])
  }

  function Count(lo: nat, hi: nat): seq<nat>
    requires lo <= hi
  {
    seq(hi - lo, i requires i >= 0 => lo + i)
  }

  lemma Unfold(a: Alloc, ms: seq<Move>)
    requires |ms| > 0
    ensures var a', rest := Moved(a, ms[0]), ms[1..];
            && After(a, ms) == After(a', rest)
            && Popped(a, ms) == (if ms[0].Hand? && |a.fl| > 0 then [a.fl[0]] else []) + Popped(a', rest)
            && Published(a, ms) == Added(a, ms[0]) + Published(a', rest)
            && Bumped(a, ms) == (if ms[0].Hand? && |a.fl| == 0 then [a.cur] else []) + Bumped(a', rest)
  {
  }

  lemma MoveKeepsBound(a: Alloc, m: Move)
    requires |a.fl| < MASTER_CAPACITY
    ensures |Moved(a, m).fl| < MASTER_CAPACITY
    ensures Moved(a, m).cur == if m.Hand? && |a.fl| == 0 then a.cur + 1 else a.cur
  {
  }

  lemma OneMove(a: Alloc, m: Move)
    ensures (if m.Hand? && |a.fl| > 0 then [a.fl[0]] else []) + Moved(a, m).fl ==
            a.fl + Added(a, m)
  {
  }

  lemma Splice(pop: seq<nat>, more: seq<nat>, fl: seq<nat>, mid: seq<nat>, end: seq<nat>, pub: seq<nat>,
               later: seq<nat>)
    requires pop + mid == fl + pub && more + end == mid + later
    ensures (pop + more) + end == fl + (pub + later)
  {
    assert (pop + more) + end == pop + (more + end) == (pop + mid) + later;
  }

  lemma CountNone(lo: nat)
    ensures Count(lo, lo) == []
  {
  }

  lemma CountSteps(lo: nat, hi: nat)
    requires lo < hi
    ensures Count(lo, hi) == [lo] + Count(lo + 1, hi)
  {
  }

  /** First in, first out; the list never outgrows the master page; and the end of the file is handed out in order,
      without gaps. */
  lemma {:induction false} QueueIsFifo(a: Alloc, ms: seq<Move>)
    requires |a.fl| < MASTER_CAPACITY
    ensures var b := After(a, ms);
            && Popped(a, ms) + b.fl == a.fl + Published(a, ms)
            && |b.fl| < MASTER_CAPACITY
            && a.cur <= b.cur && Bumped(a, ms) == Count(a.cur, b.cur)
    decreases |ms|
  {
    CountNone(a.cur);
    if |ms| > 0 {
      hide After, Published, Popped, Bumped, Moved, Added, Count, Take, Commit;
      Unfold(a, ms);
      var a', rest := Moved(a, ms[0]), ms[1..];
      MoveKeepsBound(a, ms[0]);
      QueueIsFifo(a', rest);
      var b := After(a, ms);
      var pop := if ms[0].Hand? && |a.fl| > 0 then [a.fl[0]] else [];
      var pub := Added(a, ms[0]);
      OneMove(a, ms[0]);
      Splice(pop, Popped(a', rest), a.fl, a'.fl, b.fl, pub, Published(a', rest));
      if ms[0].Hand? && |a.fl| == 0 {
        CountSteps(a.cur, b.cur);
      }
    }
  }
}
