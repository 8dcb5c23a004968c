/** What a crash can leave at each kind of step: a write outside the live pages, a barrier, the root switch. */
module CrashSteps {
  import opened Bytes
  import opened Trees
  import opened Disk
  import opened Store

  /** On this disk, the root field of page 0 leads to t and the pages of t hold t. */
  ghost predicate Durable(d: seq<seq<byte>>, t: Tree, h: nat) {
    |d| > 0 && |d[0]| == PAGE_SIZE && Names(Get32(d[0], 0), t) && Stored(d, t, h, PageSet(t))
  }

  /** Every outcome of a crash for page 0 leads to t. */
  ghost predicate RootSettled(log: seq<Event>, t: Tree) {
    forall x :: Can(log, 0, x) ==> |x| == PAGE_SIZE && Names(Get32(x, 0), t)
  }

  /** Every page in L is on disk as m shows it. */
  ghost predicate PagesSettled(log: seq<Event>, m: seq<seq<byte>>, L: set<nat>) {
    forall p | p in L :: 1 <= p < |m| && Current(log, p) == m[p] && Settled(log, p)
  }

  /** Whatever a crash leaves now, it leaves t. */
  ghost predicate Anchored(log: seq<Event>, m: seq<seq<byte>>, t: Tree, h: nat) {
    Stored(m, t, h, PageSet(t)) && PagesSettled(log, m, PageSet(t)) && RootSettled(log, t)
  }

  lemma PagesOnDisk(log: seq<Event>, m: seq<seq<byte>>, t: Tree, h: nat, d: seq<seq<byte>>)
    requires Stored(m, t, h, PageSet(t)) && PagesSettled(log, m, PageSet(t)) && CrashImage(log, d) && |m| <= |d|
    ensures Stored(d, t, h, PageSet(t))
  {
    hide Stored, PageSet, Current, Can;
    StoredFrame(m, d, t, h, PageSet(t), PageSet(t));
  }

  lemma AnchoredIsDurable(log: seq<Event>, m: seq<seq<byte>>, t: Tree, h: nat, d: seq<seq<byte>>)
    requires Anchored(log, m, t, h) && CrashImage(log, d) && 0 < |m| <= |d|
    ensures Durable(d, t, h)
  {
    hide Stored, PageSet, PagesSettled, Can;
    PagesOnDisk(log, m, t, h, d);
    assert Can(log, 0, d[0]);
  }

  // ---- writes that leave the live pages alone

  lemma HarmlessStep(log: seq<Event>, e: Event, m: seq<seq<byte>>, t: Tree, h: nat, L: set<nat>, r: nat)
    requires Anchored(log, m, t, h) && Harmless(e, L, r) && PageSet(t) <= L && Names(r, t)
    ensures Anchored(log + [e], m, t, h)
  {
    hide Stored, PageSet, Current, Can, Names, Get32;
    LogLast(log, e);
    WriteOutcomes(log, e.page, e.image, 0);
    forall p | p in PageSet(t)
      ensures 1 <= p < |m| && Current(log + [e], p) == m[p] && Settled(log + [e], p)
    {
      WriteOutcomes(log, e.page, e.image, p);
    }
  }

  /** Copy-on-write: at every moment of a transaction before its commit, a crash leaves the old tree. */
  lemma {:induction false} WritesKeepAnchor(log: seq<Event>, log': seq<Event>, n: nat, m: seq<seq<byte>>, t: Tree,
                                            h: nat, L: set<nat>, r: nat)
    requires Anchored(log, m, t, h) && Writes(log, log', L, r) && PageSet(t) <= L && Names(r, t) && |log| <= n <= |log'|
    ensures Anchored(log'[..n], m, t, h)
    decreases n
  {
    hide Anchored, Harmless, PageSet, Names;
    if n == |log| {
      assert log'[..n] == log;
    } else {
      WritesKeepAnchor(log, log', n - 1, m, t, h, L, r);
      assert log'[..n] == log'[..n - 1] + [log'[n - 1]];
      HarmlessStep(log'[..n - 1], log'[n - 1], m, t, h, L, r);
    }
  }

  /** A reader of the running system sees no live page change either. */
  lemma {:induction false} ReadersUndisturbed(log: seq<Event>, log': seq<Event>, n: nat, p: nat, L: set<nat>, r: nat)
    requires Writes(log, log', L, r) && p in L && p != 0 && |log| <= n <= |log'|
    ensures Current(log'[..n], p) == Current(log, p)
    decreases n
  {
    if n == |log| {
      assert log'[..n] == log;
    } else {
      ReadersUndisturbed(log, log', n - 1, p, L, r);
      assert log'[..n] == log'[..n - 1] + [log'[n - 1]];
      assert Harmless(log'[n - 1], L, r);
      LogLast(log'[..n - 1], log'[n - 1]);
    }
  }

  // ---- the commit

  lemma FlushKeepsAnchor(log: seq<Event>, m: seq<seq<byte>>, t: Tree, h: nat)
    requires Anchored(log, m, t, h)
    ensures Anchored(log + [Flush], m, t, h)
  {
    hide Stored, PageSet, Current, Names, Get32;
    LogLast(log, Flush);
    CurrentIsPossible(log, 0);
    BarrierSettles(log, 0);
    forall p | p in PageSet(t)
      ensures 1 <= p < |m| && Current(log + [Flush], p) == m[p] && Settled(log + [Flush], p)
    {
      BarrierSettles(log, p);
    }
  }

  /** The first barrier settles the pages of the new tree. */
  lemma FlushSettlesPages(log: seq<Event>, m: seq<seq<byte>>, L: set<nat>)
    requires forall p | p in L :: 1 <= p < |m| && Current(log, p) == m[p]
    ensures PagesSettled(log + [Flush], m, L)
  {
    hide Current, Can;
    forall p | p in L
      ensures 1 <= p < |m| && Current(log + [Flush], p) == m[p] && Settled(log + [Flush], p)
    {
      BarrierSettles(log, p);
    }
  }

  lemma RootWriteKeepsPages(log: seq<Event>, m: seq<seq<byte>>, L: set<nat>, image: seq<byte>)
    requires PagesSettled(log, m, L)
    ensures PagesSettled(log + [Wrote(0, image)], m, L)
  {
    hide Current, Can;
    LogLast(log, Wrote(0, image));
    forall p | p in L
      ensures 1 <= p < |m| && Current(log + [Wrote(0, image)], p) == m[p] && Settled(log + [Wrote(0, image)], p)
    {
      WriteOutcomes(log, 0, image, p);
    }
  }

  /** Between the root write and the second barrier, a crash leaves one tree or the other. */
  lemma EitherTree(log: seq<Event>, m: seq<seq<byte>>, t: Tree, h: nat, m': seq<seq<byte>>, t': Tree, h': nat,
                   image: seq<byte>, d: seq<seq<byte>>)
    requires Anchored(log, m, t, h)
    requires Stored(m', t', h', PageSet(t')) && PagesSettled(log, m', PageSet(t'))
    requires |image| == PAGE_SIZE && Names(Get32(image, 0), t')
    requires CrashImage(log + [Wrote(0, image)], d) && 0 < |m| <= |d| && |m'| <= |d|
    ensures Durable(d, t, h) || Durable(d, t', h')
  {
    hide Stored, PageSet, Current, Can, Names, Get32, PagesSettled;
    RootWriteKeepsPages(log, m, PageSet(t), image);
    RootWriteKeepsPages(log, m', PageSet(t'), image);
    PagesOnDisk(log + [Wrote(0, image)], m, t, h, d);
    PagesOnDisk(log + [Wrote(0, image)], m', t', h', d);
    WriteOutcomes(log, 0, image, 0);
    assert Can(log + [Wrote(0, image)], 0, d[0]);
  }

  /** The second barrier, of either kind, settles the new root. */
  lemma CommitAnchors(log: seq<Event>, m': seq<seq<byte>>, t': Tree, h': nat, image: seq<byte>, b: Event)
    requires Stored(m', t', h', PageSet(t')) && PagesSettled(log, m', PageSet(t'))
    requires |image| == PAGE_SIZE && Names(Get32(image, 0), t') && b in {Flush, FlushMaster}
    ensures Anchored(log + [Wrote(0, image)] + [b], m', t', h')
  {
    hide Stored, PageSet, Current, Can, Names, Get32;
    var l := log + [Wrote(0, image)];
    RootWriteKeepsPages(log, m', PageSet(t'), image);
    LogLast(log, Wrote(0, image));
    BarrierSettles(l, 0);
    forall p | p in PageSet(t')
      ensures 1 <= p < |m'| && Current(l + [b], p) == m'[p] && Settled(l + [b], p)
    {
      BarrierSettles(l, p);
    }
  }
}
