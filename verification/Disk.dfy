/** The file as a log of page writes and barriers, and the page images a crash can leave behind. */
module Disk {
  import opened Bytes

  /** A page write, a barrier for the whole file, a barrier for the master page only. */
  datatype Event = Wrote(page: nat, image: seq<byte>) | Flush | FlushMaster

  /** What a reader of the running system sees on page p: the last write, or zeros. */
  function Current(log: seq<Event>, p: nat): seq<byte> {
    if |log| == 0 then Zeros(PAGE_SIZE)
    else
      var e := log[|log| - 1];
      if e.Wrote? && e.page == p then e.image else Current(log[..|log| - 1], p)
  }

  /** After a crash at the end of the log, page p can hold x: page writes are atomic, each write since the last
      barrier may or may not have reached the disk, in any combination. */
  ghost predicate Can(log: seq<Event>, p: nat, x: seq<byte>) {
    if |log| == 0 then x == Zeros(PAGE_SIZE)
    else
      var init := log[..|log| - 1];
      match log[|log| - 1]
      case Wrote(q, image) => Can(init, p, x) || (q == p && x == image)
      case Flush => x == Current(init, p)
      case FlushMaster => if p == 0 then x == Current(init, p) else Can(init, p, x)
  }

  /** A whole file image a crash can leave. */
  ghost predicate CrashImage(log: seq<Event>, d: seq<seq<byte>>) {
    forall p | 0 <= p < |d| :: Can(log, p, d[p])
  }

  /** Page p is on disk as the running system sees it. */
  ghost predicate Settled(log: seq<Event>, p: nat) {
    forall x :: Can(log, p, x) ==> x == Current(log, p)
  }

  lemma LogLast(log: seq<Event>, e: Event)
    ensures (log + [e])[..|log|] == log && (log + [e])[|log|] == e
    ensures forall p :: Current(log + [e], p) == if e.Wrote? && e.page == p then e.image else Current(log, p)
  {
    assert (log + [e])[..|log|] == log;
  }

  /** The page as the system sees it is always among the possible outcomes of a crash. */
  lemma {:induction false} CurrentIsPossible(log: seq<Event>, p: nat)
    ensures Can(log, p, Current(log, p))
  {
    if |log| > 0 {
      CurrentIsPossible(log[..|log| - 1], p);
    }
  }

  /** Appending writes to other pages leaves a page and its possible outcomes alone. */
  lemma {:induction false} Untouched(log: seq<Event>, more: seq<Event>, p: nat)
    requires forall i | 0 <= i < |more| :: more[i].Wrote? && more[i].page != p
    ensures Current(log + more, p) == Current(log, p)
    ensures forall x :: Can(log + more, p, x) <==> Can(log, p, x)
    decreases |more|
  {
    if |more| == 0 {
      assert log + more == log;
    } else {
      var n := |more| - 1;
      var init := more[..n];
      assert more == init + [more[n]];
      assert log + more == (log + init) + [more[n]];
      LogLast(log + init, more[n]);
      Untouched(log, init, p);
    }
  }

  /** A barrier settles every page; a barrier for the master page settles page 0 and leaves the outcomes of all others
      as they were. */
  lemma BarrierSettles(log: seq<Event>, p: nat)
    ensures forall x :: Can(log + [Flush], p, x) <==> x == Current(log, p)
    ensures forall x :: Can(log + [FlushMaster], p, x) <==> if p == 0 then x == Current(log, p) else Can(log, p, x)
    ensures Settled(log + [Flush], p) && Current(log + [Flush], p) == Current(log, p)
    ensures p == 0 ==> Settled(log + [FlushMaster], p)
    ensures Settled(log, p) ==> Settled(log + [FlushMaster], p)
    ensures Current(log + [FlushMaster], p) == Current(log, p)
  {
    LogLast(log, Flush);
    LogLast(log, FlushMaster);
  }

  lemma WriteOutcomes(log: seq<Event>, q: nat, image: seq<byte>, p: nat)
    ensures forall x :: Can(log + [Wrote(q, image)], p, x) <==> Can(log, p, x) || (q == p && x == image)
  {
    LogLast(log, Wrote(q, image));
  }
}
