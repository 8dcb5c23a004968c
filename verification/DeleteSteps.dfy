/** The steps of a deletion on nodes in memory: what they need from the tree, and the tree they leave. */
module DeleteSteps {
  import opened Bytes
  import opened Entries
  import opened PageCodec
  import opened NodeManager
  import opened Trees
  import opened TreePages
  import opened CowNodes
  import opened CowTree
  import opened CowContents
  import opened CowPages
  import opened Store
  import opened NodeSteps

  // ---- replacing a separator

  /** UpdateKV on separator i with an entry of a neighbouring child. */
  lemma UpdateReady(m: seq<seq<byte>>, n: Tree, h: nat, i: nat, j: nat, u: seq<KV>, x: KV, w: seq<KV>, L: set<nat>)
    requires h > 0 && StoredKids(m, n, h, L) && |m| <= 0x1_0000_0000 && Sorted(Flat(n))
    requires i < |n.kvs| == |n.kids| - 1 && i <= j <= i + 1 && Flat(n.kids[j]) == u + [x] + w
    ensures WF(PageOf(n)) && i < |PageOf(n).kvs|
    ensures Fits(Deleted(PageOf(n), i), x) == UpdateFits(n, i, x)
    ensures Inserted(Deleted(PageOf(n), i), x) == Page(INTERNAL, n.kvs[i := x], PtrsOf(n.kids)[i := 0])
  {
    hide Used, Small, Flat, Sorted, LB, Inserted, Stored;
    NodeFacts(m, n, h, L);
    SeparatorPlace(n, i, j, u, x, w);
    UpdatedPage(n, h, i, x);
    DeletedIs(PageOf(n), i);
  }

  lemma PairStored(m: seq<seq<byte>>, n: Tree, h: nat, i: nat, l: Tree, e: KV, r: Tree, L: set<nat>)
    requires h > 0 && StoredKids(m, n, h, L) && i < |n.kvs|
    requires Stored(m, l, h - 1, L) && Stored(m, r, h - 1, L)
    requires Shape(WithPair(n, i, l, e, r), h)
    ensures StoredKids(m, WithPair(n, i, l, e, r), h, L)
  {
    hide Used, Small, Stored;
    var t := WithPair(n, i, l, e, r);
    forall j | 0 <= j < |t.kids|
      ensures Stored(m, t.kids[j], h - 1, L)
    {
      if j < i || j > i + 1 {
        assert t.kids[j] == n.kids[j];
      }
    }
  }

  /** Both neighbours are on new pages, and the separator between them has been replaced. */
  lemma PairEnd(s: State, s': State, base: set<nat>, n: Tree, h: nat, i: nat, l: Tree, e: KV, r: Tree)
    requires h > 0 && StoredKids(s.m, n, h, Live(base, s.a)) && Step(s, s', base) && i < |n.kvs| == |n.kids| - 1
    requires Stored(s'.m, l, h - 1, Live(base, s'.a)) && Stored(s'.m, r, h - 1, Live(base, s'.a))
    requires Shape(WithPair(n, i, l, e, r), h)
    ensures StoredKids(s'.m, WithPair(n, i, l, e, r), h, Live(base, s'.a))
    ensures WithPtr(WithPtr(Page(INTERNAL, n.kvs[i := e], PtrsOf(n.kids)[i := 0]), i, l.page), i + 1, r.page) ==
            PageOf(WithPair(n, i, l, e, r))
  {
    hide Used, Small, Stored, Step, Live, PageOf, WithPair;
    StepKids(s, s', base, n, h);
    PairStored(s'.m, n, h, i, l, e, r, Live(base, s'.a));
    PairPage(n, h, i, l, e, r);
  }

  // ---- giving an entry to a child with one key

  /** A node with one key has room for any entry. */
  lemma OneKeyRoom(c: Tree, h: nat, e: KV)
    requires Shape(c, h) && |c.kvs| == 1 && Footprint(e) <= MAX_KV_LEN + 10
    ensures RoomFor(NodeSize(c), e)
  {
    hide Area;
    SmallAt(c.kvs, 0);
    assert c.kvs == [c.kvs[0]];
    UsedSingle(c.kvs[0]);
  }

  lemma PrependedOrder(n: Tree, h: nat, i: nat)
    requires h > 0 && Shape(n, h) && Sorted(Flat(n)) && i < |n.kvs|
    requires |n.kids[i].kvs| >= 1 && |n.kids[i + 1].kvs| >= 1
    ensures LB(n.kids[i + 1].kvs, n.kvs[i].key) == 0
  {
    hide Used, Small, Flat, Sorted, LB, Pre, Post, Joined;
    JoinedOrder(n, h, i);
    var l, e, r := n.kids[i], n.kvs[i], n.kids[i + 1];
    assert l.kvs + ([e] + r.kvs) + [] == l.kvs + [e] + r.kvs && [] + [e] + r.kvs == [e] + r.kvs && [] + r.kvs == r.kvs;
    SortedParts(l.kvs, [e] + r.kvs, []);
    Gap([], e, r.kvs);
  }

  lemma AppendedOrder(n: Tree, h: nat, i: nat)
    requires h > 0 && Shape(n, h) && Sorted(Flat(n)) && i < |n.kvs|
    requires |n.kids[i].kvs| >= 1 && |n.kids[i + 1].kvs| >= 1
    ensures LB(n.kids[i].kvs, n.kvs[i].key) == |n.kids[i].kvs|
  {
    hide Used, Small, Flat, Sorted, LB, Pre, Post, Joined;
    JoinedOrder(n, h, i);
    var l, e, r := n.kids[i], n.kvs[i], n.kids[i + 1];
    assert l.kvs + [e] + r.kvs + [] == l.kvs + [e] + r.kvs && l.kvs + [e] + [] == l.kvs + [e] && l.kvs + [] == l.kvs;
    SortedParts(l.kvs + [e], r.kvs, []);
    Gap(l.kvs, e, []);
  }

  /** The keys of two neighbours and the separator between them are in order. */
  lemma JoinedOrder(n: Tree, h: nat, i: nat)
    requires h > 0 && Shape(n, h) && Sorted(Flat(n)) && i < |n.kvs|
    ensures Sorted(n.kids[i].kvs + [n.kvs[i]] + n.kids[i + 1].kvs)
  {
    hide Used, Small, Flat, Sorted, Pre, Post;
    var l, e, r := n.kids[i], n.kvs[i], n.kids[i + 1];
    var p, q := Pre(n.kvs[..i], n.kids[..i]), Post(n.kvs[i + 1..], n.kids[i + 2..]);
    assert Shape(l, h - 1) && Shape(r, h - 1);
    Focus2At(n, i);
    JoinedFlat(l, e, r, h - 1, 0);
    Regroup5(p, Flat(l), [e], Flat(r), q);
    SortedParts(p, Flat(Joined(l, e, r, 0)), q);
    KeysSorted(Joined(l, e, r, 0));
  }

  /** The child of a right rotation takes the separator and the last child of its left neighbour. */
  lemma PrependReady(m: seq<seq<byte>>, n: Tree, h: nat, i: nat, L: set<nat>)
    requires h > 0 && StoredKids(m, n, h, L) && |m| <= 0x1_0000_0000 && Sorted(Flat(n))
    requires i < |n.kvs| == |n.kids| - 1 && |n.kids[i].kvs| >= 2 && |n.kids[i + 1].kvs| == 1
    ensures var l, e, c := n.kids[i], n.kvs[i], n.kids[i + 1];
            && WF(PageOf(l)) && WF(PageOf(c)) && |PageOf(l).ptrs| == |l.kvs| + 1
            && Footprint(e) <= MAX_KV_LEN + 10 && Fits(PageOf(c), e)
            && (if h == 1 then Inserted(PageOf(c), e)
                else WithPtr(Inserted(PageOf(c), e), 0, PageOf(l).ptrs[|l.kvs|])) == PageOf(Prepended(l, e, c, 0))
            && StoredKids(m, Prepended(l, e, c, 0), h - 1, L)
  {
    hide Used, Flat, Sorted, LB, PageOf, Stored, StoredKids, Shape, Prepended, RoomFor, NodeSize, SizeOf, Inserted;
    var l, e, c := n.kids[i], n.kvs[i], n.kids[i + 1];
    KidFacts(m, n, h, i, L);
    KidFacts(m, n, h, i + 1, L);
    NodeFacts(m, n, h, L);
    SmallAt(n.kvs, i);
    OneKeyRoom(c, h - 1, e);
    RoomIsFits(c, h - 1, e);
    PrependedOrder(n, h, i);
    PrependedPage(l, e, c, h - 1, 0);
    PrependShape(l, e, c, h - 1, 0);
    PrependStored(m, l, e, c, h - 1, L);
  }

  lemma RoomIsFits(c: Tree, h: nat, e: KV)
    requires Shape(c, h) && WF(PageOf(c)) && SizeOf(PageOf(c)) == NodeSize(c)
    ensures Fits(PageOf(c), e) == RoomFor(NodeSize(c), e)
  {
  }

  lemma PrependStored(m: seq<seq<byte>>, l: Tree, e: KV, c: Tree, h: nat, L: set<nat>)
    requires StoredKids(m, l, h, L) && StoredKids(m, c, h, L) && Shape(Prepended(l, e, c, 0), h)
    ensures StoredKids(m, Prepended(l, e, c, 0), h, L)
  {
    hide Used, Small, Stored;
    if h > 0 {
      var t := Prepended(l, e, c, 0);
      forall j | 0 <= j < |t.kids|
        ensures Stored(m, t.kids[j], h - 1, L)
      {
        assert t.kids[j] == if j == 0 then l.kids[|l.kids| - 1] else c.kids[j - 1];
      }
    }
  }

  lemma AppendStored(m: seq<seq<byte>>, c: Tree, e: KV, r: Tree, h: nat, L: set<nat>)
    requires StoredKids(m, c, h, L) && StoredKids(m, r, h, L) && Shape(Appended(c, e, r, 0), h)
    ensures StoredKids(m, Appended(c, e, r, 0), h, L)
  {
    hide Used, Small, Stored;
    if h > 0 {
      var t := Appended(c, e, r, 0);
      forall j | 0 <= j < |t.kids|
        ensures Stored(m, t.kids[j], h - 1, L)
      {
        assert t.kids[j] == if j < |c.kids| then c.kids[j] else r.kids[0];
      }
    }
  }

  lemma JoinStored(m: seq<seq<byte>>, l: Tree, e: KV, r: Tree, h: nat, L: set<nat>)
    requires StoredKids(m, l, h, L) && StoredKids(m, r, h, L) && Shape(Joined(l, e, r, 0), h)
    ensures StoredKids(m, Joined(l, e, r, 0), h, L)
  {
    hide Used, Small, Stored;
    if h > 0 {
      var t := Joined(l, e, r, 0);
      forall j | 0 <= j < |t.kids|
        ensures Stored(m, t.kids[j], h - 1, L)
      {
        assert t.kids[j] == if j < |l.kids| then l.kids[j] else r.kids[j - |l.kids|];
      }
    }
  }

  lemma DropStored(m: seq<seq<byte>>, t: Tree, h: nat, L: set<nat>)
    requires StoredKids(m, t, h, L) && |t.kvs| >= 2
    ensures StoredKids(m, DropLast(t, 0), h, L) && StoredKids(m, DropFirst(t, 0), h, L)
  {
    hide Used, Small, Stored;
    DropShape(t, h, 0);
    if h > 0 {
      var u, v := DropLast(t, 0), DropFirst(t, 0);
      forall j | 0 <= j < |u.kids|
        ensures Stored(m, u.kids[j], h - 1, L)
      {
        assert u.kids[j] == t.kids[j];
      }
      forall j | 0 <= j < |v.kids|
        ensures Stored(m, v.kids[j], h - 1, L)
      {
        assert v.kids[j] == t.kids[j + 1];
      }
    }
  }

  /** The child of a left rotation takes the separator and the first child of its right neighbour. */
  lemma AppendReady(m: seq<seq<byte>>, n: Tree, h: nat, i: nat, L: set<nat>)
    requires h > 0 && StoredKids(m, n, h, L) && |m| <= 0x1_0000_0000 && Sorted(Flat(n))
    requires i < |n.kvs| == |n.kids| - 1 && |n.kids[i].kvs| == 1 && |n.kids[i + 1].kvs| >= 2
    ensures var c, e, r := n.kids[i], n.kvs[i], n.kids[i + 1];
            && WF(PageOf(c)) && WF(PageOf(r)) && |PageOf(c).ptrs| == |PageOf(c).kvs| + 1 == |c.kvs| + 1
            && |PageOf(r).ptrs| >= 1
            && Footprint(e) <= MAX_KV_LEN + 10 && Fits(PageOf(c), e) && LB(PageOf(c).kvs, e.key) == |PageOf(c).kvs|
            && (if h == 1 then AtEnd(PageOf(c), e)
                else WithPtr(AtEnd(PageOf(c), e), |c.kvs| + 1, PageOf(r).ptrs[0])) == PageOf(Appended(c, e, r, 0))
            && StoredKids(m, Appended(c, e, r, 0), h - 1, L)
  {
    hide Used, Flat, Sorted, LB, PageOf, Stored, StoredKids, Shape, Appended, RoomFor, NodeSize, SizeOf, AtEnd;
    var c, e, r := n.kids[i], n.kvs[i], n.kids[i + 1];
    KidFacts(m, n, h, i, L);
    KidFacts(m, n, h, i + 1, L);
    NodeFacts(m, n, h, L);
    SmallAt(n.kvs, i);
    OneKeyRoom(c, h - 1, e);
    RoomIsFits(c, h - 1, e);
    AppendedOrder(n, h, i);
    AppendedPage(c, e, r, h - 1, 0);
    AppendShape(c, e, r, h - 1, 0);
    AppendStored(m, c, e, r, h - 1, L);
  }

  // ---- rotations

  lemma RotateRightIs(a: Alloc, n: Tree, h: nat, i: nat)
    requires h > 0 && Shape(n, h) && i < |n.kvs| && |n.kids[i].kvs| >= 2 && |n.kids[i + 1].kvs| == 1
    ensures var r := RightRotated(a, n, i); r == CowTree.RotateRight(a, n, i, h) && (r.st == Ok ==> Shape(r.t, h))
  {
    hide Used, Small, UpdateFits, WithPair, DropLast, Prepended;
  }

  lemma RotateLeftIs(a: Alloc, n: Tree, h: nat, i: nat)
    requires h > 0 && Shape(n, h) && i < |n.kvs| && |n.kids[i].kvs| == 1 && |n.kids[i + 1].kvs| >= 2
    ensures var r := LeftRotated(a, n, i); r == CowTree.RotateLeft(a, n, i, h) && (r.st == Ok ==> Shape(r.t, h))
  {
    hide Used, Small, UpdateFits, WithPair, DropFirst, Appended;
  }

  lemma DropRelabelled(l: Tree, e: KV, c: Tree, p: nat, q: nat)
    requires |l.kvs| > 0
    ensures DropLast(l, 0).(page := p) == DropLast(l, p) && DropFirst(l, 0).(page := p) == DropFirst(l, p)
    ensures Prepended(l, e, c, 0).(page := q) == Prepended(l, e, c, q)
    ensures Appended(c, e, l, 0).(page := q) == Appended(c, e, l, q)
  {
  }

  /** The entry a rotation lifts out of a neighbour. */
  lemma LiftReady(m: seq<seq<byte>>, n: Tree, h: nat, i: nat, j: nat, k: nat, L: set<nat>)
    requires h > 0 && StoredKids(m, n, h, L) && |m| <= 0x1_0000_0000 && Sorted(Flat(n))
    requires i < |n.kvs| == |n.kids| - 1 && i <= j <= i + 1 && k < |n.kids[j].kvs|
    requires k == 0 || k == |n.kids[j].kvs| - 1
    ensures var b := n.kids[j].kvs[k];
            && WF(PageOf(n)) && i < |PageOf(n).kvs| && Footprint(b) <= MAX_KV_LEN + 10
            && Fits(Deleted(PageOf(n), i), b) == UpdateFits(n, i, b)
            && Inserted(Deleted(PageOf(n), i), b) == Page(INTERNAL, n.kvs[i := b], PtrsOf(n.kids)[i := 0])
  {
    hide Used, Flat, Sorted, PageOf, Stored, StoredKids, Shape, Inserted, Fits, UpdateFits, Deleted;
    var c := n.kids[j];
    KidFacts(m, n, h, j, L);
    SmallAt(c.kvs, k);
    if k == 0 {
      FirstSplits(c, h - 1);
      UpdateReady(m, n, h, i, j, LeftOf(c), c.kvs[0], Flat(DropFirst(c, 0)), L);
    } else {
      LastSplits(c, h - 1, 0);
      UpdateReady(m, n, h, i, j, Flat(DropLast(c, 0)), c.kvs[k], RightOf(c), L);
    }
  }

  /** What lies left of the first separator of a node. */
  function LeftOf(t: Tree): seq<KV> {
    if |t.kids| > 0 then Flat(t.kids[0]) else []
  }

  lemma FirstSplits(t: Tree, h: nat)
    requires Shape(t, h) && |t.kvs| >= 1
    ensures Flat(t) == LeftOf(t) + [t.kvs[0]] + Flat(DropFirst(t, 0))
  {
    hide Used, Weave, Small;
    assert t.kvs == [t.kvs[0]] + t.kvs[1..];
    if h > 0 {
      assert t.kids == [t.kids[0]] + t.kids[1..];
      WeaveCons(t.kids[0], t.kvs[0], t.kvs[1..], t.kids[1..]);
    }
  }

  // ---- merging

  lemma MergeIs(a: Alloc, n: Tree, h: nat, i: nat)
    requires h > 0 && Shape(n, h) && i < |n.kvs| && |n.kids[i].kvs| == 1 && |n.kids[i + 1].kvs| == 1
    ensures Merged(a, n, i) == CowTree.Merge(a, n, i, h)
  {
    hide Used, Small, WithMerged, Joined;
  }

  /** What mergeChildren needs of its two children. */
  lemma MergeReady(m: seq<seq<byte>>, n: Tree, h: nat, i: nat, L: set<nat>)
    requires h > 0 && StoredKids(m, n, h, L) && |m| <= 0x1_0000_0000 && Sorted(Flat(n))
    requires i < |n.kvs| == |n.kids| - 1 && |n.kids[i].kvs| == 1 && |n.kids[i + 1].kvs| == 1
    ensures var l, e, r := n.kids[i], n.kvs[i], n.kids[i + 1];
            && WF(PageOf(l)) && WF(PageOf(r)) && |PageOf(l).kvs| >= 1 && Footprint(e) <= MAX_KV_LEN + 10
            && Sorted(PageOf(l).kvs + [e] + PageOf(r).kvs) && Small(PageOf(r).kvs)
            && Used(PageOf(l).kvs + [e] + PageOf(r).kvs) < PAGE_SIZE
            && MergedOf(PageOf(l), e, PageOf(r)) == PageOf(Joined(l, e, r, 0))
            && StoredKids(m, Joined(l, e, r, 0), h - 1, L)
  {
    hide Used, Flat, Sorted, PageOf, Stored, StoredKids, Shape, MergedOf, Small;
    var l, e, r := n.kids[i], n.kvs[i], n.kids[i + 1];
    KidFacts(m, n, h, i, L);
    KidFacts(m, n, h, i + 1, L);
    NodeFacts(m, n, h, L);
    SmallAt(n.kvs, i);
    JoinedOrder(n, h, i);
    JoinShape(l, e, r, h - 1, 0);
    JoinedPage(l, e, r, h - 1, 0);
    JoinStored(m, l, e, r, h - 1, L);
  }

  lemma MergeEnd(s: State, s': State, base: set<nat>, n: Tree, h: nat, i: nat, c: Tree)
    requires h > 0 && StoredKids(s.m, n, h, Live(base, s.a)) && Step(s, s', base) && i < |n.kvs| == |n.kids| - 1
    requires Stored(s'.m, c, h - 1, Live(base, s'.a)) && |c.kvs| >= 1 && |s.m| <= 0x1_0000_0000
    ensures StoredKids(s'.m, WithMerged(n, i, c), h, Live(base, s'.a))
    ensures WF(PageOf(n)) && i < |PageOf(n).kvs| && |PageOf(n).ptrs| == |PageOf(n).kvs| + 1
    ensures WithPtr(Deleted(PageOf(n), i), i, c.page) == PageOf(WithMerged(n, i, c))
  {
    hide Used, Small, Stored, Step, Live, PageOf, Deleted;
    var L := Live(base, s'.a);
    NodeFacts(s.m, n, h, Live(base, s.a));
    StepKids(s, s', base, n, h);
    ShapeOfStored(s'.m, c, h - 1, L);
    MergedShape(n, h, i, c);
    MergedPage(n, h, i, c);
    var t := WithMerged(n, i, c);
    forall j | 0 <= j < |t.kids|
      ensures Stored(s'.m, t.kids[j], h - 1, L)
    {
      if j != i {
        assert t.kids[j] == n.kids[if j < i then j else j + 1];
      }
    }
  }

  /** fillChild, case by case. */
  lemma FillChildIs(a: Alloc, n: Tree, h: nat, i: nat)
    requires h > 0 && Shape(n, h) && Fillable(n) && i <= |n.kvs|
    ensures var r := CowTree.FillChild(a, n, i, h);
            if !Underfull(n.kids[i]) then r == Res(Ok, a, n)
            else if i > 0 && !Underfull(n.kids[i - 1]) then
              r == RightRotated(Free(a, [n.kids[i - 1].page, n.kids[i].page]), n, i - 1)
            else if i < |n.kvs| && !Underfull(n.kids[i + 1]) then
              r == LeftRotated(Free(a, [n.kids[i].page, n.kids[i + 1].page]), n, i)
            else
              var j := if i > 0 then i - 1 else i;
              j < |n.kvs| && r == Merged(Free(a, [n.kids[j].page, n.kids[j + 1].page]), n, j)
  {
    hide Used, Small, RightRotated, LeftRotated, Merged, CowTree.RotateRight, CowTree.RotateLeft, CowTree.Merge;
    if Underfull(n.kids[i]) {
      if i > 0 && !Underfull(n.kids[i - 1]) {
        RotateRightIs(Free(a, [n.kids[i - 1].page, n.kids[i].page]), n, h, i - 1);
      } else if i < |n.kvs| && !Underfull(n.kids[i + 1]) {
        RotateLeftIs(Free(a, [n.kids[i].page, n.kids[i + 1].page]), n, h, i);
      } else {
        var j := if i > 0 then i - 1 else i;
        MergeIs(Free(a, [n.kids[j].page, n.kids[j + 1].page]), n, h, j);
      }
    }
  }

  // ---- the descent

  /** delete on an inner node that does not hold the key: fix the child, then go on. */
  lemma DeleteUnfolds(a: Alloc, n: Tree, h: nat, k: seq<byte>)
    requires h > 0 && Shape(n, h) && Fillable(n) && !Holds(n.kvs, k) && Sorted(Flat(n))
    ensures var r := CowTree.FillChild(a, n, LB(n.kvs, k), h);
            && DeleteNode(a, n, h, k) == (if r.st != Ok then r else DeleteBelow(r.a, r.t, h, k))
            && r.a.cur <= DeleteNode(a, n, h, k).a.cur
            && (r.st == Ok ==> && Shape(r.t, h) && Sorted(Flat(r.t)) && |r.t.kvs| <= |n.kvs|
                               && !Holds(r.t.kvs, k) && |r.t.kids[LB(r.t.kvs, k)].kvs| >= 2)
  {
    hide Used, Small, LB, Flat, Sorted, CowTree.FillChild, DeleteBelow;
    var r := CowTree.FillChild(a, n, LB(n.kvs, k), h);
    FillChildFlat(a, n, h, k);
    if r.st == Ok {
      DeleteBelowBalanced(r.a, r.t, h, k, 0, 0);
    }
  }

  lemma DeleteBelowHolding(a: Alloc, n: Tree, h: nat, k: seq<byte>)
    requires h > 0 && Shape(n, h) && Holds(n.kvs, k)
    ensures DeleteBelow(a, n, h, k) == DeleteHere(a, n, h, k)
    ensures Fillable(n) ==> DeleteNode(a, n, h, k) == DeleteHere(a, n, h, k)
  {
    hide Used, Small, LB, DeleteHere;
  }

  lemma DeleteBelowUnfolds(a: Alloc, n: Tree, h: nat, k: seq<byte>)
    requires h > 0 && Shape(n, h) && !Holds(n.kvs, k) && Sorted(Flat(n)) && |n.kids[LB(n.kvs, k)].kvs| >= 2
    ensures var i := LB(n.kvs, k);
            var s := DeleteNode(a, n.kids[i], h - 1, k);
            && DeleteBelow(a, n, h, k) ==
               (if s.st != Ok then s else CowNodes.Store(Free(s.a, [n.kids[i].page]), n.(kids := n.kids[i := s.t])))
            && s.a.cur <= DeleteBelow(a, n, h, k).a.cur
            && (s.st == Ok ==> |s.t.kvs| >= 1)
  {
    hide Used, Small, LB, Flat, Sorted, DeleteNode;
    var i := LB(n.kvs, k);
    KidOrder(n, h, i);
    assert Shape(n.kids[i], h - 1);
    DeleteNodeFlat(a, n.kids[i], h - 1, k);
  }

  /** Separator i is replaced by e, which goes out of child j. */
  ghost function Borrowed(a: Alloc, n: Tree, h: nat, i: nat, j: nat, e: KV): Res
    requires h > 0 && Shape(n, h) && i < |n.kvs| && j <= |n.kvs|
  {
    hide Used, Small;
    if !UpdateFits(n, i, e) then Res(Panic, a, n)
    else
      var s := DeleteNode(a, n.kids[j], h - 1, e.key);
      if s.st != Ok then s else CowNodes.Store(s.a, Tree(n.page, n.kvs[i := e], n.kids[j := s.t]))
  }

  lemma DeleteHereUnfolds(a: Alloc, n: Tree, h: nat, k: seq<byte>)
    requires h > 0 && Shape(n, h) && Holds(n.kvs, k)
    ensures var i := LB(n.kvs, k);
            var left, right := n.kids[i], n.kids[i + 1];
            if !Underfull(left) then
              SameResult(DeleteHere(a, n, h, k), Borrowed(Free(a, [left.page]), n, h, i, i, LastKV(left, h - 1)))
            else if !Underfull(right) then
              SameResult(DeleteHere(a, n, h, k), Borrowed(Free(a, [right.page]), n, h, i, i + 1, FirstKV(right, h - 1)))
            else
              var m := Merged(Free(a, [left.page, right.page]), n, i);
              && Shape(m.t, h) && Fillable(m.t) && |m.t.kvs| == |n.kvs| - 1
              && DeleteHere(a, n, h, k) == DeleteNode(m.a, m.t, h, k)
              && m.a.cur <= DeleteHere(a, n, h, k).a.cur
  {
    hide Used, Small, LB, DeleteNode, LastKV, FirstKV, UpdateFits, Merged, CowTree.Merge;
    var i := LB(n.kvs, k);
    var left, right := n.kids[i], n.kids[i + 1];
    if Underfull(left) && Underfull(right) {
      MergeIs(Free(a, [left.page, right.page]), n, h, i);
      var m := CowTree.Merge(Free(a, [left.page, right.page]), n, i, h);
      DeleteNodeBalanced(m.a, m.t, h, k, 0, 0);
    }
  }

  /** The same outcome; after a panic the allocator does not matter. */
  ghost predicate SameResult(r: Res, q: Res) {
    r.st == q.st && (r.st != Panic ==> r == q) && (r.st == Panic ==> r.a.cur == q.a.cur)
  }

  lemma BorrowedGrows(a: Alloc, n: Tree, h: nat, i: nat, j: nat, e: KV)
    requires h > 0 && Shape(n, h) && i < |n.kvs| && j <= |n.kvs| && UpdateFits(n, i, e)
    ensures DeleteNode(a, n.kids[j], h - 1, e.key).a.cur <= Borrowed(a, n, h, i, j, e).a.cur
  {
    hide Used, Small, UpdateFits, DeleteNode;
  }

  /** Child j lost entry e, which has taken the place of separator i. */
  lemma BorrowEnd(s: State, s': State, base: set<nat>, n: Tree, h: nat, i: nat, j: nat, e: KV, c: Tree)
    requires h > 0 && StoredKids(s.m, n, h, Live(base, s.a)) && Step(s, s', base) && i < |n.kvs| == |n.kids| - 1
    requires j <= |n.kvs|
    requires Footprint(e) <= MAX_KV_LEN + 10 && UpdateFits(n, i, e)
    requires Stored(s'.m, c, h - 1, Live(base, s'.a)) && |c.kvs| >= 1
    ensures StoredKids(s'.m, Tree(n.page, n.kvs[i := e], n.kids[j := c]), h, Live(base, s'.a))
    ensures j == i ==> WithPtr(Page(INTERNAL, n.kvs[i := e], PtrsOf(n.kids)[i := 0]), i, c.page) ==
                       PageOf(Tree(n.page, n.kvs[i := e], n.kids[j := c]))
    ensures j == i + 1 ==>
              WithPtr(WithPtr(Page(INTERNAL, n.kvs[i := e], PtrsOf(n.kids)[i := 0]), i, n.kids[i].page),
                      i + 1, c.page) ==
              PageOf(Tree(n.page, n.kvs[i := e], n.kids[j := c]))
  {
    hide Used, Small, Stored, Step, Live, PageOf, UpdateFits;
    var L := Live(base, s'.a);
    StepKids(s, s', base, n, h);
    ShapeOfStored(s'.m, c, h - 1, L);
    UpdateShape(n, h, i, e);
    KidShape(n.(kvs := n.kvs[i := e]), h, j, c);
    if j == i {
      PredecessorPage(n, h, i, e, c);
    } else if j == i + 1 {
      SuccessorPage(n, h, i, e, c);
    }
    assert StoredKids(s'.m, n, h, L);
  }

  /** The predecessor of a separator in its left child, the successor in its right child. */
  ghost function EndOf(c: Tree, h: nat, last: bool): KV
    requires Shape(c, h) && |c.kvs| >= 1
  {
    if last then LastKV(c, h) else FirstKV(c, h)
  }

  lemma EndSplits(c: Tree, h: nat, last: bool) returns (u: seq<KV>, w: seq<KV>)
    requires Shape(c, h) && |c.kvs| >= 1
    ensures Flat(c) == u + [EndOf(c, h, last)] + w
    ensures Footprint(EndOf(c, h, last)) <= MAX_KV_LEN + 10
  {
    hide Used, Small, Flat, LastKV, FirstKV, Shape;
    LastIsSmall(c, h);
    LastIsLast(c, h);
    FirstIsFirst(c, h);
    var f := Flat(c);
    if last {
      u, w := f[..|f| - 1], [];
    } else {
      u, w := [], f[1..];
    }
  }

  /** A child with two keys keeps one. */
  lemma BorrowKeepsKey(a: Alloc, c: Tree, h: nat, k: seq<byte>)
    requires Shape(c, h) && |c.kvs| >= 2 && Sorted(Flat(c))
    ensures var r := DeleteNode(a, c, h, k); r.st == Ok ==> |r.t.kvs| >= 1
  {
    hide Used, Small, Flat, Sorted, Shape, DeleteNode;
    DeleteNodeFlat(a, c, h, k);
  }

  lemma BorrowReady(m: seq<seq<byte>>, n: Tree, h: nat, i: nat, j: nat, e: KV, L: set<nat>)
    requires h > 0 && i < |n.kvs| == |n.kids| - 1 && i <= j <= i + 1 && |m| <= 0x1_0000_0000
    requires Shape(n.kids[j], h - 1) && |n.kids[j].kvs| >= 1
    requires e == EndOf(n.kids[j], h - 1, j == i)
    requires StoredKids(m, n, h, L) && Sorted(Flat(n))
    ensures WF(PageOf(n)) && i < |PageOf(n).kvs| && Footprint(e) <= MAX_KV_LEN + 10
    ensures Fits(Deleted(PageOf(n), i), e) == UpdateFits(n, i, e)
    ensures Inserted(Deleted(PageOf(n), i), e) == Page(INTERNAL, n.kvs[i := e], PtrsOf(n.kids)[i := 0])
  {
    hide Used, Small, Flat, Sorted, PageOf, Stored, StoredKids, Shape, Inserted, Fits, UpdateFits, Deleted, EndOf;
    var u, w := EndSplits(n.kids[j], h - 1, j == i);
    UpdateReady(m, n, h, i, j, u, e, w, L);
  }

  lemma LeafDelete(a: Alloc, n: Tree, k: seq<byte>, m: seq<seq<byte>>, L: set<nat>)
    requires StoredKids(m, n, 0, L) && |m| <= 0x1_0000_0000
    ensures Holds(n.kvs, k) ==>
              && var t := n.(kvs := Del(n.kvs, k));
              && LB(n.kvs, k) < |PageOf(n).kvs| && |PageOf(n).ptrs| == |PageOf(n).kvs| + 1
              && DeleteNode(a, n, 0, k) == CowNodes.Store(a, t)
              && Deleted(PageOf(n), LB(n.kvs, k)) == PageOf(t)
              && StoredKids(m, t, 0, L)
    ensures !Holds(n.kvs, k) ==> DeleteNode(a, n, 0, k) == Res(NotFound, a, n)
  {
    hide Used, Small, LB, PageOf, Deleted, Del;
    NodeFacts(m, n, 0, L);
    if Holds(n.kvs, k) {
      LeafDeleted(n, k);
      LeafRemoved(n, k);
    }
  }
}
