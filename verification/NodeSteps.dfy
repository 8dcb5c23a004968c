/** What each step on nodes in memory needs from the tree, and the tree its pages stand for afterwards. */
module NodeSteps {
  import opened Bytes
  import opened Entries
  import opened PageCodec
  import opened NodeManager
  import opened Trees
  import opened TreePages
  import opened CowNodes
  import opened CowTree
  import opened CowContents
  import opened CowPages
  import opened Store

  /** A node whose children are on pages has a well-formed page of its own. */
  lemma NodeFacts(m: seq<seq<byte>>, n: Tree, h: nat, L: set<nat>)
    requires StoredKids(m, n, h, L) && |m| <= 0x1_0000_0000
    ensures Shape(n, h) && WF(PageOf(n)) && SizeOf(PageOf(n)) == NodeSize(n)
    ensures PageOf(n).kvs == n.kvs && |PageOf(n).ptrs| == |n.kvs| + 1
    ensures PageOf(n).typ == if h == 0 then LEAF else INTERNAL
    ensures Small(n.kvs) && Used(n.kvs) < PAGE_SIZE
    ensures if h == 0 then n.kids == [] else |n.kids| == |n.kvs| + 1
  {
    hide Used, Small, PageOf, Image;
    KidsNumbered(m, n, h, L);
    PageWF(n, h);
  }

  /** Child i of such a node: where it is, and that it is such a node itself. */
  lemma KidFacts(m: seq<seq<byte>>, n: Tree, h: nat, i: nat, L: set<nat>)
    requires h > 0 && StoredKids(m, n, h, L) && |m| <= 0x1_0000_0000 && i <= |n.kvs|
    ensures WF(PageOf(n)) && |PageOf(n).ptrs| == |n.kvs| + 1 == |n.kids|
    ensures var c := n.kids[i];
            && PageOf(n).ptrs[i] == c.page && |c.kvs| >= 1
            && Stored(m, c, h - 1, L) && StoredKids(m, c, h - 1, L) && Shape(c, h - 1)
            && WF(PageOf(c)) && SizeOf(PageOf(c)) == NodeSize(c)
            && PageOf(c).kvs == c.kvs && |PageOf(c).ptrs| == |c.kvs| + 1
            && PageOf(c).typ == (if h == 1 then LEAF else INTERNAL)
            && Small(c.kvs) && Used(c.kvs) < PAGE_SIZE
  {
    hide Used, Small, PageOf, Image;
    NodeFacts(m, n, h, L);
    PtrOfKid(n, h, i);
    assert Stored(m, n.kids[i], h - 1, L);
    NodeFacts(m, n.kids[i], h - 1, L);
  }

  lemma KidOrder(n: Tree, h: nat, i: nat)
    requires h > 0 && Shape(n, h) && i <= |n.kvs| && Sorted(Flat(n))
    ensures Sorted(Flat(n.kids[i])) && Sorted(n.kids[i].kvs)
  {
    hide Flat, Sorted, Small, Used;
    KidSorted(n, i);
    KeysSorted(n.kids[i]);
  }

  // ---- splitting a child

  lemma SplitReady(n: Tree, h: nat, i: nat)
    requires h > 0 && Shape(n, h) && i <= |n.kvs| && Sorted(Flat(n)) && Overflowing(n.kids[i])
    ensures var c := n.kids[i];
            && |c.kvs| >= 3 && Sorted(c.kvs)
            && Shape(LeftTree(c, 0), h - 1) && LeftHalf(PageOf(c)) == PageOf(LeftTree(c, 0))
            && Shape(RightTree(c, 0), h - 1) && RightHalf(PageOf(c)) == PageOf(RightTree(c, 0))
            && Footprint(Median(c)) <= MAX_KV_LEN + 10
  {
    hide Flat, Sorted, Small, Used, LeftTree, RightTree, PageOf;
    var c := n.kids[i];
    KidOrder(n, h, i);
    OverflowHasThree(c.kvs);
    HalvesShape(c, h - 1, 0, 0);
    HalvesPage(c, h - 1, 0, 0);
  }

  lemma SplitChildIs(a: Alloc, n: Tree, h: nat, i: nat)
    requires h > 0 && Shape(n, h) && i <= |n.kvs| && Overflowing(n.kids[i]) && |n.kids[i].kvs| >= 3
    requires WF(PageOf(n)) && SizeOf(PageOf(n)) == NodeSize(n)
    ensures var r := CowTree.SplitChild(a, n, i, h);
            && r.a == Take(Take(Free(a, [n.kids[i].page])))
            && r.st == if Fits(PageOf(n), Median(n.kids[i])) then Ok else Panic
  {
    hide Small, Used, PageOf;
  }

  lemma SplitDone(a: Alloc, n: Tree, h: nat, i: nat, lp: nat, rp: nat)
    requires h > 0 && Shape(n, h) && i <= |n.kvs| && Sorted(Flat(n)) && Overflowing(n.kids[i])
    requires CowTree.SplitChild(a, n, i, h).st == Ok
    requires rp == Next(a) && lp == Next(Take(a))
    ensures var r := CowTree.SplitChild(a, n, i, h);
            && |n.kids[i].kvs| >= 3
            && r.t == Spliced(n, i, LeftTree(n.kids[i], lp), Median(n.kids[i]), RightTree(n.kids[i], rp))
            && Sorted(Flat(r.t))
            && SpliceWritten(PageOf(n), i, lp, Median(n.kids[i]), rp) == PageOf(r.t)
  {
    hide Flat, Sorted, Small, Used, LB, PageOf, SpliceWritten;
    SplitReady(n, h, i);
    var r := CowTree.SplitChild(a, n, i, h);
    SplitChildFlat(a, n, i, h);
    KeysSorted(r.t);
    Gap(n.kvs[..i], Median(n.kids[i]), n.kvs[i..]);
    assert n.kvs == n.kvs[..i] + n.kvs[i..];
    SplicedPage(n, h, i, LeftTree(n.kids[i], lp), Median(n.kids[i]), RightTree(n.kids[i], rp));
  }

  lemma HalvesStored(m: seq<seq<byte>>, c: Tree, h: nat, L: set<nat>)
    requires |c.kvs| >= 3 && StoredKids(m, c, h, L)
    ensures StoredKids(m, LeftTree(c, 0), h, L)
    ensures StoredKids(m, RightTree(c, 0), h, L)
  {
    hide Used, Small, Stored;
    HalvesShape(c, h, 0, 0);
    var l, r, k := LeftTree(c, 0), RightTree(c, 0), |c.kvs| / 2 + 1;
    if h > 0 {
      forall i | 0 <= i < |l.kids|
        ensures Stored(m, l.kids[i], h - 1, L)
      {
        assert l.kids[i] == c.kids[i];
      }
      forall i | 0 <= i < |r.kids|
        ensures Stored(m, r.kids[i], h - 1, L)
      {
        assert r.kids[i] == c.kids[k + i];
      }
    }
  }

  lemma SplicedStored(m: seq<seq<byte>>, n: Tree, h: nat, i: nat, l: Tree, e: KV, r: Tree, L: set<nat>)
    requires h > 0 && StoredKids(m, n, h, L) && i <= |n.kvs|
    requires Stored(m, l, h - 1, L) && Stored(m, r, h - 1, L)
    requires Shape(Spliced(n, i, l, e, r), h)
    ensures StoredKids(m, Spliced(n, i, l, e, r), h, L)
  {
    hide Used, Small, Stored;
    var t := Spliced(n, i, l, e, r);
    forall j | 0 <= j < |t.kids|
      ensures Stored(m, t.kids[j], h - 1, L)
    {
      if j > i + 1 {
        assert t.kids[j] == n.kids[j - 1];
      } else if j < i {
        assert t.kids[j] == n.kids[j];
      }
    }
  }

  lemma SplitEnd(s: State, s': State, base: set<nat>, n: Tree, h: nat, i: nat, lp: nat, rp: nat)
    requires h > 0 && Shape(n, h) && i <= |n.kvs| && Sorted(Flat(n)) && Overflowing(n.kids[i])
    requires StoredKids(s.m, n, h, Live(base, s.a)) && Step(s, s', base)
    requires CowTree.SplitChild(s.a, n, i, h).st == Ok
    requires rp == Next(s.a) && lp == Next(Take(s.a)) && |n.kids[i].kvs| > 0
    requires Stored(s'.m, LeftTree(n.kids[i], lp), h - 1, Live(base, s'.a))
    requires Stored(s'.m, RightTree(n.kids[i], rp), h - 1, Live(base, s'.a))
    ensures var r := CowTree.SplitChild(s.a, n, i, h);
            && StoredKids(s'.m, r.t, h, Live(base, s'.a))
            && SpliceWritten(PageOf(n), i, lp, Median(n.kids[i]), rp) == PageOf(r.t)
  {
    hide Flat, Sorted, Small, Used, LB, PageOf, Inserted, Stored, StoredKids, Step, Live, LeftTree, RightTree;
    SplitDone(s.a, n, h, i, lp, rp);
    StepKids(s, s', base, n, h);
    SplicedStored(s'.m, n, h, i, LeftTree(n.kids[i], lp), Median(n.kids[i]), RightTree(n.kids[i], rp),
                  Live(base, s'.a));
  }

  lemma FreeTakes(a: Alloc, ps: seq<nat>)
    ensures Next(Free(a, ps)) == Next(a) && Next(Take(Free(a, ps))) == Next(Take(a))
  {
  }

  /** An operation on a node in memory went as r says: p is the page of the node afterwards. */
  ghost predicate Worked(r: Res, s: State, st: Status, p: Page, h: nat, base: set<nat>) {
    && st == r.st && (st != Panic ==> s.a == r.a)
    && (st == Ok ==> p == PageOf(r.t) && StoredKids(s.m, r.t, h, Live(base, s.a)))
  }

  lemma NothingWorked(s: State, n: Tree, h: nat, base: set<nat>)
    requires StoredKids(s.m, n, h, Live(base, s.a))
    ensures Worked(Res(Ok, s.a, n), s, Ok, PageOf(n), h, base)
  {
  }

  // ---- inserting

  /** An operation that ends on a page went as r says. */
  ghost predicate Landed(r: Res, s: State, st: Status, page: nat, h: nat, base: set<nat>) {
    && st == r.st && (st != Panic ==> s.a == r.a)
    && (st == Ok ==> page == r.t.page && Stored(s.m, r.t, h, Live(base, s.a)))
  }

  /** insert once the child that k enters has been split if need be. */
  ghost function InsertBelow(a: Alloc, n: Tree, h: nat, e: KV): Res
    requires h > 0 && Shape(n, h) && Footprint(e) <= MAX_KV_LEN + 10
  {
    hide Used, Small;
    var i := LB(n.kvs, e.key);
    var s := InsertNode(Free(a, [n.kids[i].page]), n.kids[i], h - 1, e);
    if s.st != Ok then s else CowNodes.Store(s.a, n.(kids := n.kids[i := s.t]))
  }

  lemma InsertUnfolds(a: Alloc, n: Tree, h: nat, e: KV)
    requires h > 0 && Shape(n, h) && |n.kvs| >= 1 && Footprint(e) <= MAX_KV_LEN + 10
    ensures var r := CowTree.SplitChild(a, n, LB(n.kvs, e.key), h);
            && InsertNode(a, n, h, e) == (if r.st != Ok then r else InsertBelow(r.a, r.t, h, e))
            && r.a.cur <= InsertNode(a, n, h, e).a.cur
  {
    hide Used, Small, LB, CowTree.SplitChild;
    var r := CowTree.SplitChild(a, n, LB(n.kvs, e.key), h);
    if r.st == Ok {
      InsertBelowGrows(r.a, r.t, h, e);
    }
  }

  lemma InsertBelowGrows(a: Alloc, n: Tree, h: nat, e: KV)
    requires h > 0 && Shape(n, h) && Footprint(e) <= MAX_KV_LEN + 10
    ensures a.cur <= InsertBelow(a, n, h, e).a.cur
  {
    hide Used, Small, LB, InsertNode;
    var i := LB(n.kvs, e.key);
    assert Shape(n.kids[i], h - 1) && |n.kids[i].kvs| >= 1;
    InsertNodeBalanced(Free(a, [n.kids[i].page]), n.kids[i], h - 1, e, 0, 0);
  }

  lemma SplitKeepsOrder(a: Alloc, n: Tree, h: nat, i: nat)
    requires h > 0 && Shape(n, h) && i <= |n.kvs| && Sorted(Flat(n))
    ensures var r := CowTree.SplitChild(a, n, i, h); r.st == Ok ==> Shape(r.t, h) && Sorted(Flat(r.t))
  {
    hide Used, Small, Flat, Sorted;
    SplitChildFlat(a, n, i, h);
  }

  lemma LeafInsert(a: Alloc, n: Tree, e: KV, m: seq<seq<byte>>, L: set<nat>)
    requires StoredKids(m, n, 0, L) && |m| <= 0x1_0000_0000 && Footprint(e) <= MAX_KV_LEN + 10
    ensures var t := n.(kvs := Ins(n.kvs, e));
            && InsertNode(a, n, 0, e) == (if Fits(PageOf(n), e) then CowNodes.Store(a, t) else Res(Panic, a, n))
            && Inserted(PageOf(n), e) == PageOf(t)
            && (Fits(PageOf(n), e) ==> StoredKids(m, t, 0, L))
  {
    hide Used, Small, LB, PageOf, Inserted, Ins;
    NodeFacts(m, n, 0, L);
    LeafInserted(n, e);
    if Fits(PageOf(n), e) {
      InsertLeafShape(n, e);
    }
  }

  /** Child i has moved to the page of c. */
  lemma KidMoved(s: State, s': State, base: set<nat>, n: Tree, h: nat, i: nat, c: Tree)
    requires h > 0 && StoredKids(s.m, n, h, Live(base, s.a)) && Step(s, s', base) && i <= |n.kvs|
    requires Stored(s'.m, c, h - 1, Live(base, s'.a)) && |c.kvs| >= 1
    ensures var t := n.(kids := n.kids[i := c]);
            StoredKids(s'.m, t, h, Live(base, s'.a)) && WithPtr(PageOf(n), i, c.page) == PageOf(t)
  {
    hide Used, Small, PageOf, Stored, Step, Live;
    StepKids(s, s', base, n, h);
    KidReplaced(n, h, i, c);
    ShapeOfStored(s'.m, c, h - 1, Live(base, s'.a));
    KidShape(n, h, i, c);
  }

  lemma ShapeOfStored(m: seq<seq<byte>>, t: Tree, h: nat, L: set<nat>)
    requires Stored(m, t, h, L)
    ensures Shape(t, h)
  {
    hide Used, Small, PageOf;
  }

  // ---- splitting the root

  lemma SplitRootReady(t: Tree, h: nat)
    requires Shape(t, h) && |t.kvs| >= 3
    ensures Footprint(Median(t)) <= MAX_KV_LEN + 10
    ensures WF(EMPTY.(typ := INTERNAL)) && Fits(EMPTY.(typ := INTERNAL), Median(t))
  {
    hide Used;
    HalvesShape(t, h, 0, 0);
    UsedOfNone();
  }

  lemma SplitRootEnd(s: State, s': State, base: set<nat>, t: Tree, h: nat, lp: nat, rp: nat)
    requires Shape(t, h) && |t.kvs| >= 3
    requires rp == Next(s.a) && lp == Next(Take(s.a))
    requires Stored(s'.m, LeftTree(t, lp), h, Live(base, s'.a)) && Stored(s'.m, RightTree(t, rp), h, Live(base, s'.a))
    ensures var r := CowTree.SplitRoot(s.a, t, h);
            && r.a == Take(Take(s.a)) && StoredKids(s'.m, r.t, h + 1, Live(base, s'.a))
            && WithPtr(WithPtr(Inserted(EMPTY.(typ := INTERNAL), Median(t)), 0, lp), 1, rp) == PageOf(r.t)
  {
    hide Used, Small, PageOf, Stored, LeftTree, RightTree, Inserted;
    RootPage(LeftTree(t, lp), Median(t), RightTree(t, rp));
    LabelsOf(t, lp, rp);
  }

  lemma LabelsOf(t: Tree, lp: nat, rp: nat)
    requires |t.kvs| > 0
    ensures LeftTree(t, lp).page == lp && RightTree(t, rp).page == rp
  {
  }

  /** The root ready for the descent of an insertion: split if it overflows. */
  function Prepared(a: Alloc, t: Tree, ghost h: nat): Res
    requires RootShape(t, h)
  {
    hide Used, Small;
    if Overflowing(t) then OverflowingRoot(t, h); CowTree.SplitRoot(a, t, h) else Res(Ok, a, t)
  }

  lemma PreparedIs(a: Alloc, t: Tree, h: nat, e: KV, early: seq<nat>)
    requires RootShape(t, h) && Sorted(Flat(t)) && |e.key| + |e.val| <= MAX_KV_LEN
    ensures var r := Prepared(a, t, h);
            && Shape(r.t, Grown(t, h)) && (Grown(t, h) > 0 ==> |r.t.kvs| >= 1) && Sorted(Flat(r.t))
            && InsertRoot(a, t, h, e, early) == InsertNode(Free(r.a, early), r.t, Grown(t, h), e)
            && r.a.cur <= InsertRoot(a, t, h, e, early).a.cur
  {
    hide Used, Small, Flat, Sorted, InsertNode, Overflowing;
    var r := Prepared(a, t, h);
    if Overflowing(t) {
      OverflowingRoot(t, h);
      SplitRootFlat(a, t, h);
    }
    InsertNodeBalanced(Free(r.a, early), r.t, Grown(t, h), e, 0, 0);
  }

  lemma InsertRootStatus(a: Alloc, t: Tree, h: nat, e: KV, early: seq<nat>)
    requires RootShape(t, h)
    ensures |e.key| + |e.val| > MAX_KV_LEN ==> InsertRoot(a, t, h, e, early) == Res(TooLarge, a, t)
    ensures |e.key| + |e.val| <= MAX_KV_LEN ==> InsertRoot(a, t, h, e, early).st != TooLarge
  {
    hide InsertNode, CowTree.SplitRoot;
  }

  lemma FreeNothing(a: Alloc)
    ensures Free(a, []) == a
  {
    assert a.pend + [] == a.pend;
  }

  lemma StoredParts(m: seq<seq<byte>>, t: Tree, h: nat, L: set<nat>)
    requires Stored(m, t, h, L)
    ensures Shape(t, h) && StoredKids(m, t, h, L)
  {
    hide Used, Small, Image, PageOf;
  }

  lemma RootFillable(t: Tree, h: nat)
    requires RootShape(t, h)
    ensures Shape(t, h) && Fillable(t)
  {
    hide Used, Small;
  }
}
