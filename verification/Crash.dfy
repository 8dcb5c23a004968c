/** Crash safety of the commit protocol: whatever a crash leaves of the writes since the last barrier, the root in
    the master page on disk leads to the tree before the transaction or to the tree after it. */
module Crash {
  import opened Bytes
  import opened Entries
  import opened PageCodec
  import opened PageReads
  import opened Trees
  import opened NodeManager
  import opened CrashSteps
  import opened Disk
  import opened Store
  import opened TreePages

  // ---- a synchronous transaction

  /** The log of a transaction that ends with the two barriers. */
  ghost predicate TwoBarriers(mid: State, s': State, b: Event) {
    |s'.m| > 0 && b in {Flush, FlushMaster} && s'.log == mid.log + [Flush] + [Wrote(0, s'.m[0])] + [b]
  }

  lemma NewTreeSettles(mid: State, base: set<nat>, t': Tree, h': nat)
    requires Mirrors(mid) && Safe(mid.a, base) && Stored(mid.m, t', h', Live(base, mid.a))
    ensures Stored(mid.m, t', h', PageSet(t')) && PagesSettled(mid.log + [Flush], mid.m, PageSet(t'))
  {
    hide Pages, Current, Can, Image, Shape;
    StoredOwn(mid.m, t', h', Live(base, mid.a), PageSet(t'));
    StoredInside(mid.m, t', h', Live(base, mid.a));
    forall p | p in PageSet(t')
      ensures 1 <= p < |mid.m| && Current(mid.log, p) == mid.m[p]
    {
      assert p in Live(base, mid.a);
    }
    FlushSettlesPages(mid.log, mid.m, PageSet(t'));
  }

  /** Crash safety of one transaction, at every moment of it: a crash leaves the old tree or the new one; after it
      the new tree is anchored. */
  lemma TransactionIsAtomic(s: State, m0: seq<seq<byte>>, mid: State, s': State, t: Tree, h: nat, t': Tree, h': nat,
                            b: Event, n: nat, d: seq<seq<byte>>)
    requires Anchored(s.log, m0, t, h) && Names(s.root, t) && |m0| > 0
    requires Transaction(s, mid, s', t, t', h') && TwoBarriers(mid, s', b)
    requires |s.log| <= n <= |s'.log| && CrashImage(s'.log[..n], d)
    requires |m0| <= |d| && (n > |mid.log| ==> |mid.m| <= |d|)
    ensures Durable(d, t, h) || Durable(d, t', h')
    ensures n <= |mid.log| + 1 ==> Durable(d, t, h)
    ensures n == |s'.log| ==> Durable(d, t', h')
    ensures Anchored(s'.log, mid.m, t', h')
  {
    hide Anchored, Durable, Stored, PageSet, Live, Safe, Mirrors, Harmless, CrashImage, Names, Get32, PagesSettled,
         Writes, Agree;
    var image := s'.m[0];
    var base := PageSet(t);
    TransactionParts(s, mid, s', t, t', h');
    var f := mid.log + [Flush];
    NewTreeSettles(mid, base, t', h');
    CommitAnchors(f, mid.m, t', h', image, b);
    WritesKeepAnchor(s.log, mid.log, |mid.log|, m0, t, h, base, s.root);
    assert mid.log[..|mid.log|] == mid.log;
    FlushKeepsAnchor(mid.log, m0, t, h);
    if n <= |mid.log| {
      assert s'.log[..n] == mid.log[..n];
      WritesKeepAnchor(s.log, mid.log, n, m0, t, h, base, s.root);
      AnchoredIsDurable(mid.log[..n], m0, t, h, d);
    } else if n == |f| {
      assert s'.log[..n] == f;
      AnchoredIsDurable(f, m0, t, h, d);
    } else if n == |f| + 1 {
      assert s'.log[..n] == f + [Wrote(0, image)];
      EitherTree(f, m0, t, h, mid.m, t', h', image, d);
    } else {
      assert s'.log[..n] == s'.log;
      PositiveSize(s'.log, mid.m, t', h');
      AnchoredIsDurable(s'.log, mid.m, t', h', d);
    }
  }

  lemma PositiveSize(log: seq<Event>, m: seq<seq<byte>>, t: Tree, h: nat)
    requires Anchored(log, m, t, h)
    ensures |m| > 0
  {
  }

  lemma TransactionParts(s: State, mid: State, s': State, t: Tree, t': Tree, h': nat)
    requires Transaction(s, mid, s', t, t', h') && |s'.m| > 0
    ensures Writes(s.log, mid.log, PageSet(t), s.root) && |s.log| <= |mid.log| && Mirrors(mid)
    ensures Safe(mid.a, PageSet(t))
    ensures Stored(mid.m, t', h', Live(PageSet(t), mid.a))
    ensures |s'.m[0]| == PAGE_SIZE && Names(Get32(s'.m[0], 0), t')
  {
    hide Stored, Safe, Mirrors, Pages, Names;
    StoredHasPage(mid.a, PageSet(t), mid.m, t', h');
  }

  // ---- runs

  /** The system at rest between two operations. */
  datatype Epoch = Epoch(s: State, t: Tree, h: nat)

  /** How it got to the next epoch: through a commit, with the moment before the root switch and the kind of the last
      barrier, or by work that was not committed. */
  datatype Leg = Committed(mid: State, b: Event) | Uncommitted

  ghost predicate Leads(e: Epoch, leg: Leg, f: Epoch) {
    match leg
    case Committed(mid, b) => Transaction(e.s, mid, f.s, e.t, f.t, f.h) && TwoBarriers(mid, f.s, b)
    case Uncommitted => Step(e.s, f.s, PageSet(e.t)) && Mirrors(f.s) && f.t == e.t && f.h == e.h
  }

  ghost predicate Chain(es: seq<Epoch>, legs: seq<Leg>) {
    |es| == |legs| + 1 && forall i | 0 <= i < |legs| :: Leads(es[i], legs[i], es[i + 1])
  }

  /** At rest, and every crash leaves the tree of this epoch. */
  ghost predicate AtRest(e: Epoch) {
    Anchored(e.s.log, e.s.m, e.t, e.h) && Names(e.s.root, e.t) && |e.s.m| > 0
  }

  /** The disk is as long as the file was at moment n of a leg. */
  ghost predicate LongEnough(d: seq<seq<byte>>, e: Epoch, leg: Leg, n: nat) {
    |e.s.m| <= |d| && (leg.Committed? && n > |leg.mid.log| ==> |leg.mid.m| <= |d|)
  }

  lemma CommittedAtRest(e: Epoch, leg: Leg, f: Epoch)
    requires AtRest(e) && leg.Committed? && Leads(e, leg, f)
    ensures AtRest(f) && e.s.log <= f.s.log
  {
    hide Stored, PageSet, Live, Safe, Mirrors, Harmless, Names, Get32, Current, Can, Agree;
    var d := seq(|e.s.m| + |leg.mid.m|, p requires p >= 0 => Current(f.s.log, p));
    forall p | 0 <= p < |d|
      ensures Can(f.s.log, p, d[p])
    {
      CurrentIsPossible(f.s.log, p);
    }
    assert f.s.log[..|f.s.log|] == f.s.log;
    TransactionIsAtomic(e.s, e.s.m, leg.mid, f.s, e.t, e.h, f.t, f.h, leg.b, |f.s.log|, d);
    StoredHasPage(leg.mid.a, PageSet(e.t), leg.mid.m, f.t, f.h);
    StoredFrame(leg.mid.m, f.s.m, f.t, f.h, PageSet(f.t), PageSet(f.t)) by {
      assert Agree(leg.mid.m, f.s.m, PageSet(f.t)) by {
        AgreeAbove(leg.mid.m, f.s.m, PageSet(f.t));
      }
    }
  }

  lemma UncommittedAtRest(e: Epoch, f: Epoch)
    requires AtRest(e) && Leads(e, Uncommitted, f)
    ensures AtRest(f) && e.s.log <= f.s.log
  {
    hide Stored, PageSet, Safe, Mirrors, Harmless, Names, Get32, Current, Can, Agree, PagesSettled, RootSettled, Writes;
    StepParts(e.s, f.s, PageSet(e.t));
    WritesKeepAnchor(e.s.log, f.s.log, |f.s.log|, e.s.m, e.t, e.h, PageSet(e.t), e.s.root);
    assert f.s.log[..|f.s.log|] == f.s.log;
    StoredFrame(e.s.m, f.s.m, e.t, e.h, PageSet(e.t), PageSet(e.t));
    SettledFrame(f.s.log, e.s.m, f.s.m, PageSet(e.t));
    HasPage(e.t);
  }

  lemma StepParts(s: State, s': State, base: set<nat>)
    requires Step(s, s', base)
    ensures Writes(s.log, s'.log, base, s.root) && Agree(s.m, s'.m, base) && s'.root == s.root && s.log <= s'.log
  {
    hide Safe;
    assert base <= Live(base, s.a);
  }

  lemma SettledFrame(log: seq<Event>, m: seq<seq<byte>>, m': seq<seq<byte>>, L: set<nat>)
    requires PagesSettled(log, m, L) && Agree(m, m', L)
    ensures PagesSettled(log, m', L) && (L != {} ==> |m'| > 0)
  {
    hide Can, Current;
    if L != {} {
      var p :| p in L;
      assert p < |m'|;
    }
  }

  lemma HasPage(t: Tree)
    ensures PageSet(t) != {}
  {
    hide KidPages;
    assert t.page in PageSet(t);
  }

  lemma NextAtRest(e: Epoch, leg: Leg, f: Epoch)
    requires AtRest(e) && Leads(e, leg, f)
    ensures AtRest(f) && e.s.log <= f.s.log
  {
    hide AtRest, Leads;
    if leg.Committed? {
      CommittedAtRest(e, leg, f);
    } else {
      UncommittedAtRest(e, f);
    }
  }

  lemma AgreeAbove(m: seq<seq<byte>>, m': seq<seq<byte>>, L: set<nat>)
    requires |m'| == |m| > 0 && m' == m[0 := m'[0]] && 0 !in L
    ensures Agree(m, m', L)
  {
  }

  lemma {:induction false} ChainAtRest(es: seq<Epoch>, legs: seq<Leg>, i: nat)
    requires Chain(es, legs) && AtRest(es[0]) && i < |es|
    ensures AtRest(es[i])
    decreases i
  {
    hide AtRest, Leads;
    if i > 0 {
      ChainAtRest(es, legs, i - 1);
      NextAtRest(es[i - 1], legs[i - 1], es[i]);
    }
  }

  lemma {:induction false} ChainGrows(es: seq<Epoch>, legs: seq<Leg>, i: nat, j: nat)
    requires Chain(es, legs) && AtRest(es[0]) && i <= j < |es|
    ensures es[i].s.log <= es[j].s.log
    decreases j
  {
    hide AtRest, Leads;
    if i < j {
      ChainGrows(es, legs, i, j - 1);
      ChainAtRest(es, legs, j - 1);
      NextAtRest(es[j - 1], legs[j - 1], es[j]);
    }
  }

  lemma ChainExtends(es: seq<Epoch>, legs: seq<Leg>, leg: Leg, f: Epoch)
    requires Chain(es, legs) && Leads(es[|legs|], leg, f)
    ensures Chain(es + [f], legs + [leg])
  {
    hide Leads;
  }

  /** Crash safety of a whole run: a crash at any moment between epoch i and epoch i + 1 leaves exactly the tree of the
      one or the tree of the other. */
  lemma RunIsCrashSafe(es: seq<Epoch>, legs: seq<Leg>, i: nat, n: nat, d: seq<seq<byte>>)
    requires Chain(es, legs) && AtRest(es[0]) && i < |legs|
    requires |es[i].s.log| <= n <= |es[i + 1].s.log| <= |es[|legs|].s.log|
    requires CrashImage(es[|legs|].s.log[..n], d) && LongEnough(d, es[i], legs[i], n)
    ensures Durable(d, es[i].t, es[i].h) || Durable(d, es[i + 1].t, es[i + 1].h)
    ensures n == |es[i].s.log| ==> Durable(d, es[i].t, es[i].h)
  {
    hide Durable, Transaction, TwoBarriers, CrashImage, Anchored, Step;
    ChainAtRest(es, legs, i);
    ChainGrows(es, legs, i + 1, |legs|);
    assert Leads(es[i], legs[i], es[i + 1]);
    assert es[|legs|].s.log[..n] == es[i + 1].s.log[..n];
    match legs[i]
    case Committed(mid, b) =>
      TransactionLong(es[i].s, mid, es[i + 1].s, es[i].t, es[i + 1].t, es[i + 1].h);
      TransactionIsAtomic(es[i].s, es[i].s.m, mid, es[i + 1].s, es[i].t, es[i].h, es[i + 1].t, es[i + 1].h, b, n, d);
    case Uncommitted => StillTheTree(es[i], es[i + 1], n, d);
  }

  lemma StillTheTree(e: Epoch, f: Epoch, n: nat, d: seq<seq<byte>>)
    requires AtRest(e) && Leads(e, Uncommitted, f) && |e.s.log| <= n <= |f.s.log|
    requires CrashImage(f.s.log[..n], d) && |e.s.m| <= |d|
    ensures Durable(d, e.t, e.h)
  {
    hide Durable, CrashImage, Anchored, Step, PageSet, Names, Mirrors;
    StepParts(e.s, f.s, PageSet(e.t));
    WritesKeepAnchor(e.s.log, f.s.log, n, e.s.m, e.t, e.h, PageSet(e.t), e.s.root);
    AnchoredIsDurable(f.s.log[..n], e.s.m, e.t, e.h, d);
  }

  lemma TransactionLong(s: State, mid: State, s': State, t: Tree, t': Tree, h': nat)
    requires Transaction(s, mid, s', t, t', h')
    ensures |s.log| <= |mid.log|
  {
    hide Stored, Mirrors, Safe;
  }

  /** One disk cannot hold two trees under the same root: what is durable is determined by the disk, up to the page of
      the empty tree before the first commit. */
  lemma DurableIsUnique(d: seq<seq<byte>>, t: Tree, h: nat, u: Tree, g: nat)
    requires Durable(d, t, h) && Durable(d, u, g)
    ensures Flat(t) == Flat(u) && h == g
    ensures Get32(d[0], 0) != 0 ==> t == u
  {
    hide Pages, PageOf, Used, Small;
    if Get32(d[0], 0) != 0 {
      StoredUnique(d, t, h, PageSet(t), u, g, PageSet(u));
    } else {
      assert StoredKids(d, t, h, PageSet(t)) && StoredKids(d, u, g, PageSet(u));
    }
  }

  /** The disk holds a database, and the map it stands for is one of these. */
  ghost predicate HoldsOneOf(d: seq<seq<byte>>, ms: set<map<seq<byte>, seq<byte>>>) {
    && (exists t, h: nat :: Durable(d, t, h))
    && (forall t, h: nat | Durable(d, t, h) :: MapOf(Flat(t)) in ms)
  }

  /** So a crash between epoch i and epoch i + 1 leaves the map of the one or the map of the other, and no third. */
  lemma CrashLeavesOldOrNew(es: seq<Epoch>, legs: seq<Leg>, i: nat, n: nat, d: seq<seq<byte>>)
    requires Chain(es, legs) && AtRest(es[0]) && i < |legs|
    requires |es[i].s.log| <= n <= |es[i + 1].s.log| <= |es[|legs|].s.log|
    requires CrashImage(es[|legs|].s.log[..n], d) && LongEnough(d, es[i], legs[i], n)
    ensures HoldsOneOf(d, {MapOf(Flat(es[i].t)), MapOf(Flat(es[i + 1].t))})
    ensures n == |es[i].s.log| ==> HoldsOneOf(d, {MapOf(Flat(es[i].t))})
  {
    hide Durable, Leads, CrashImage, AtRest, LongEnough, MapOf, Flat;
    RunIsCrashSafe(es, legs, i, n, d);
    forall t, h: nat | Durable(d, t, h)
      ensures Flat(t) == Flat(es[i].t) || Flat(t) == Flat(es[i + 1].t)
      ensures n == |es[i].s.log| ==> Flat(t) == Flat(es[i].t)
    {
      if Durable(d, es[i].t, es[i].h) {
        DurableIsUnique(d, t, h, es[i].t, es[i].h);
      } else {
        DurableIsUnique(d, t, h, es[i + 1].t, es[i + 1].h);
      }
    }
  }

  /** A new file is at rest: every page is zero, and a root field of zero stands for the empty tree. */
  lemma NewFileAtRest(s: State)
    requires s.log == [] && s.root == 0 && |s.m| > 1 && Mirrors(s)
    ensures AtRest(Epoch(s, EMPTY_DB.t, 0))
  {
    hide Image;
    ZeroBuffer();
    assert PageOf(EMPTY_DB.t) == EMPTY;
    assert Current(s.log, 1) == s.m[1];
    assert Get32(Zeros(PAGE_SIZE), 0) == 0;
  }

  // ---- without barriers

  /** A page never followed by a full barrier may still be all zeros after a crash. */
  lemma {:induction false} NeverFlushed(log: seq<Event>, p: nat)
    requires p != 0 && forall i | 0 <= i < |log| :: log[i] != Flush
    ensures Can(log, p, Zeros(PAGE_SIZE))
    decreases |log|
  {
    if |log| > 0 {
      NeverFlushed(log[..|log| - 1], p);
    }
  }

  /** With sync off, a crash right after the commit of a non-empty tree can leave a root that leads nowhere. */
  lemma UnsyncedCommitCanBeTorn(mid: State, t: Tree, h: nat, t': Tree, h': nat, L: set<nat>, image: seq<byte>)
    returns (d: seq<seq<byte>>)
    requires forall i | 0 <= i < |mid.log| :: mid.log[i] != Flush
    requires Mirrors(mid) && Stored(mid.m, t', h', L) && |t'.kvs| > 0 && t'.page != 0 && t'.page != t.page
    requires |image| == PAGE_SIZE && Get32(image, 0) == t'.page
    ensures |d| == |mid.m| && CrashImage(mid.log + [Wrote(0, image)], d)
    ensures !Durable(d, t, h) && !Durable(d, t', h')
  {
    hide Current, PageSet, Image, Get32;
    var log := mid.log + [Wrote(0, image)];
    d := seq(|mid.m|, p requires 0 <= p < |mid.m| =>
           if p == 0 then image else if p == t'.page then Zeros(PAGE_SIZE) else Current(mid.log, p));
    forall p | 0 <= p < |d|
      ensures Can(log, p, d[p])
    {
      WriteOutcomes(mid.log, 0, image, p);
      CurrentIsPossible(mid.log, p);
      if p != 0 {
        NeverFlushed(mid.log, p);
      }
    }
    if Durable(d, t', h') {
      ZeroPageIsEmpty(PageOf(t'));
    }
  }

  lemma ZeroPageIsEmpty(p: Page)
    requires WF(p) && Image(p) == Zeros(PAGE_SIZE)
    ensures |p.kvs| == 0
  {
    ReadHeader(p);
  }
}
