/** The persistent B-tree over its page manager (btree/btree.go, btree/btree_util.go). */
module BTree {
  import opened Bytes
  import opened Entries
  import opened PageCodec
  import opened NodeManager
  import opened Trees
  import opened TreePages
  import opened CowNodes
  import opened CowTree
  import opened CowContents
  import opened CowSearch
  import opened Database
  import opened PageEdit
  import opened Buffer
  import opened NodeSteps
  import opened DeleteSteps
  import opened NodeEdits
  import Runs
  import opened Store
  import opened Disk
  import opened MasterCodec
  import opened PageManager

  class BTree {
    var root: u32
    var freelist: seq<u32>
    const pm: PageManager

    /** NewBTree on a new file: page 0 becomes the master page and page 1 an empty leaf, the root. The root is not
        written to the master page before the first commit. */
    constructor (pm: PageManager)
      requires pm.Fresh()
      modifies pm
      ensures this.pm == pm && Rests(EMPTY_DB) && pm.root == 0 && pm.log == []
    {
      this.pm, this.root, freelist := pm, 0, [];
      new;
      hide MasterImage, Image;
      var masterPage := pm.Read(0);
      if masterPage == null {
        var zero := pm.Allocate();
        this.root := pm.Allocate();
        pm.got := [];
        EmptyStored(pm.mmap, pm.log);
      }
    }

    ghost function Now(): State
      reads this, pm
    {
      State(pm.mmap, pm.log, pm.root, pm.Alloc(freelist))
    }

    /** Between operations: the class stands for database d, and nothing has been taken or freed since the commit. */
    ghost predicate Rests(d: DB)
      reads this, pm
    {
      && pm.Valid() && d.a == Now().a && Runs.Quiet(d) && root == d.t.page && Names(pm.root, d.t)
      && Stored(pm.mmap, d.t, d.h, PageSet(d.t))
    }

    /** Within a transaction that began with the pages in base in use. */
    ghost predicate Works(d: DB, base: set<nat>)
      reads this, pm
    {
      pm.Valid() && d.a == Now().a && Safe(d.a, base) && Stored(pm.mmap, d.t, d.h, Live(base, d.a))
    }

    /** loadAsNode */
    method LoadAsNode(pageNum: u32, ghost t: Tree, ghost h: nat, ghost L: set<nat>) returns (node: Node)
      requires pm.Valid() && Stored(pm.mmap, t, h, L) && pageNum == t.page
      modifies pm`seen
      ensures pm.seen == old(pm.seen) + [pageNum]
      ensures fresh(node) && fresh(node.data) && node.Valid() && node.page == PageOf(t)
    {
      hide Shape, PageOf, Image, MasterImage;
      var buf := pm.Read(pageNum);
      node := new Node(buf, PageOf(t));
    }

    /** copyToNewPage */
    method CopyToNewPage(node: Node, ghost t: Tree, ghost h: nat, ghost base: set<nat>) returns (pageNum: u32)
      requires pm.Valid() && node.Valid() && node.page == PageOf(t)
      requires Safe(Now().a, base) && StoredKids(pm.mmap, t, h, Live(base, Now().a))
      requires Take(Now().a).cur <= PAGE_LIMIT
      modifies pm
      ensures pm.Valid() && Step(old(Now()), Now(), base)
      ensures pageNum == Next(old(Now().a)) && Now().a == Take(old(Now().a))
      ensures Stored(pm.mmap, t.(page := pageNum), h, Live(base, Now().a))
    {
      hide Shape, PageOf, Image, MasterImage, Safe, Live, StoredKids, Stored, Step, Current, Get32, Used, Small;
      ghost var s := Now();
      TakeSafe(s.a, base);
      pageNum := pm.Allocate();
      ReadMaster(pm.root, pm.fl);
      ghost var first := if s.a.fl == [] then [] else [Wrote(0, MasterImage(pm.root, pm.fl))];
      assert pm.log == s.log + first;
      StoreWrites(s.log, first, Wrote(pageNum, node.data[..]), Live(base, s.a), s.root);
      pm.Write(pageNum, node.data, pm.root, pm.fl);
      StoreStep(s, Now(), base, t, h);
    }

    /** Two copies in a row. */
    method CopyTwo(x: Node, y: Node, ghost t: Tree, ghost u: Tree, ghost h: nat, ghost base: set<nat>)
      returns (p: u32, q: u32)
      requires pm.Valid() && x.Valid() && x.page == PageOf(t) && y.Valid() && y.page == PageOf(u)
      requires Safe(Now().a, base)
      requires StoredKids(pm.mmap, t, h, Live(base, Now().a)) && StoredKids(pm.mmap, u, h, Live(base, Now().a))
      requires Take(Take(Now().a)).cur <= PAGE_LIMIT
      modifies pm
      ensures pm.Valid() && Step(old(Now()), Now(), base)
      ensures p == Next(old(Now().a)) && q == Next(Take(old(Now().a))) && Now().a == Take(Take(old(Now().a)))
      ensures Stored(pm.mmap, t.(page := p), h, Live(base, Now().a))
      ensures Stored(pm.mmap, u.(page := q), h, Live(base, Now().a))
    {
      hide PageManager.Valid, Shape, PageOf, Image, Live, StoredKids, Stored, Agree, Writes;
      ghost var s := Now();
      p := CopyToNewPage(x, t, h, base);
      ghost var s1 := Now();
      StepKids(s, s1, base, u, h);
      q := CopyToNewPage(y, u, h, base);
      StepStored(s1, Now(), base, t.(page := p), h);
      StepTrans(s, s1, Now(), base);
    }

    // ---- insertion

    /** Split a node and copy both halves to pages, the right one first. */
    method CopyHalves(node: Node, ghost c: Tree, ghost h: nat, ghost base: set<nat>)
      returns (leftPageNum: u32, rightPageNum: u32, medianIndex: u16)
      requires pm.Valid() && node.Valid() && node.page == PageOf(c) && |c.kvs| >= 3 && Sorted(c.kvs)
      requires Safe(Now().a, base) && StoredKids(pm.mmap, c, h, Live(base, Now().a))
      requires Take(Take(Now().a)).cur <= PAGE_LIMIT
      modifies pm
      ensures pm.Valid() && Step(old(Now()), Now(), base)
      ensures rightPageNum == Next(old(Now().a)) && leftPageNum == Next(Take(old(Now().a)))
      ensures Now().a == Take(Take(old(Now().a))) && medianIndex == |c.kvs| / 2
      ensures Stored(pm.mmap, LeftTree(c, leftPageNum), h, Live(base, Now().a))
      ensures Stored(pm.mmap, RightTree(c, rightPageNum), h, Live(base, Now().a))
    {
      hide PageManager.Valid, Shape, PageOf, Image, Live, StoredKids, Stored, Step, Sorted, Used, Small, Safe;
      pm.Bounded();
      NodeFacts(pm.mmap, c, h, Live(base, Now().a));
      HalvesStored(pm.mmap, c, h, Live(base, Now().a));
      HalvesPage(c, h, 0, 0);
      var left, right;
      left, right, medianIndex := NodeManager.Split(node);
      rightPageNum, leftPageNum := CopyTwo(right, left, RightTree(c, 0), LeftTree(c, 0), h, base);
    }

    /** splitChild: split the child the search for k enters, if it overflows. */
    method SplitChild(node: Node, k: seq<byte>, ghost n: Tree, ghost h: nat, ghost base: set<nat>) returns (st: Status)
      requires pm.Valid() && node.Valid() && node.page == PageOf(n)
      requires h > 0 && Shape(n, h) && Sorted(Flat(n))
      requires Safe(Now().a, base) && StoredKids(pm.mmap, n, h, Live(base, Now().a))
      requires CowTree.SplitChild(Now().a, n, LB(n.kvs, k), h).a.cur <= PAGE_LIMIT
      modifies pm, this`freelist, node`page, node.data
      ensures pm.Valid() && Step(old(Now()), Now(), base)
      ensures Worked(CowTree.SplitChild(old(Now().a), n, LB(n.kvs, k), h), Now(), st, node.page, h, base)
      ensures st == Ok ==> node.Valid()
    {
      hide PageManager.Valid, PageOf, Image, Live, Agree, Writes, Safe, LB, Flat, Sorted, Used, Stored, Small, Step,
           StoredKids, Shape, Node.GetSize, Node.GetPtr, WF, SizeOf, NodeSize;
      pm.Bounded();
      ghost var L := Live(base, Now().a);
      var idx := node.FindIndex(k);
      NodeFacts(pm.mmap, n, h, L);
      KidFacts(pm.mmap, n, h, idx, L);
      var childNode := LoadAsNode(node.GetPtr(idx), n.kids[idx], h - 1, L);
      if childNode.Overflow() {
        st := SplitOverflowing(node, childNode, idx, n, h, base);
      } else {
        st := Ok;
        StepNone(Now(), base);
      }
    }

    /** The case of splitChild where the child overflows. */
    method SplitOverflowing(node: Node, childNode: Node, idx: u16, ghost n: Tree, ghost h: nat, ghost base: set<nat>)
      returns (st: Status)
      requires pm.Valid() && node.Valid() && node.page == PageOf(n)
      requires h > 0 && Shape(n, h) && Sorted(Flat(n)) && idx <= |n.kvs|
      requires childNode.Valid() && childNode.page == PageOf(n.kids[idx]) && Overflowing(n.kids[idx])
      requires node != childNode && node.data != childNode.data
      requires Safe(Now().a, base) && StoredKids(pm.mmap, n, h, Live(base, Now().a))
      requires CowTree.SplitChild(Now().a, n, idx, h).a.cur <= PAGE_LIMIT
      modifies pm, this`freelist, node`page, node.data
      ensures pm.Valid() && Step(old(Now()), Now(), base)
      ensures Worked(CowTree.SplitChild(old(Now().a), n, idx, h), Now(), st, node.page, h, base)
      ensures st == Ok ==> node.Valid()
    {
      hide PageManager.Valid, PageOf, Image, Live, Agree, Writes, Safe, LB, Flat, Sorted, Used, Stored, Small, Shape,
           Step, StoredKids, LeftTree, RightTree, Inserted, WithPtr, Fits, CowTree.SplitChild, Overflowing, NodeSize,
           SizeOf, Spliced, Node.GetKV, Node.GetPtr, Next, Take, Node.Valid;
      pm.Bounded();
      ghost var s := Now();
      KidFacts(pm.mmap, n, h, idx, Live(base, s.a));
      NodeFacts(pm.mmap, n, h, Live(base, s.a));
      ghost var c := n.kids[idx];
      SplitReady(n, h, idx);
      SplitChildIs(s.a, n, h, idx);
      freelist := freelist + [node.GetPtr(idx)];
      ghost var s1 := Now();
      StepFree(s, [c.page], base);
      FreeTakes(s.a, [c.page]);
      var leftPageNum, rightPageNum, medianIndex := CopyHalves(childNode, c, h - 1, base);
      StepTrans(s, s1, Now(), base);
      var median := childNode.GetKV(medianIndex);
      var ok := InsertBetween(node, median.key, median.val, idx, leftPageNum, rightPageNum);
      if ok {
        SplitEnd(s, Now(), base, n, h, idx, leftPageNum, rightPageNum);
        st := Ok;
      } else {
        st := Panic;
      }
    }

    /** insertIntoLeaf */
    method InsertIntoLeaf(node: Node, k: seq<byte>, v: seq<byte>, ghost n: Tree, ghost base: set<nat>)
      returns (st: Status, pageNum: u32)
      requires pm.Valid() && node.Valid() && node.page == PageOf(n) && |k| + |v| <= MAX_KV_LEN
      requires Safe(Now().a, base) && StoredKids(pm.mmap, n, 0, Live(base, Now().a))
      requires InsertNode(Now().a, n, 0, KV(k, v)).a.cur <= PAGE_LIMIT
      modifies pm, node`page, node.data
      ensures pm.Valid() && Step(old(Now()), Now(), base)
      ensures Landed(InsertNode(old(Now().a), n, 0, KV(k, v)), Now(), st, pageNum, 0, base)
    {
      hide PageManager.Valid, PageOf, Image, Live, Safe, LB, Used, Stored, Small, Step, StoredKids, Shape, Inserted,
           Fits, InsertNode, Ins, Node.Valid;
      pm.Bounded();
      LeafInsert(Now().a, n, KV(k, v), pm.mmap, Live(base, Now().a));
      var ok := node.InsertKV(k, v);
      if ok {
        st := Ok;
        pageNum := CopyToNewPage(node, n.(kvs := Ins(n.kvs, KV(k, v))), 0, base);
      } else {
        st, pageNum := Panic, 0;
        StepNone(Now(), base);
      }
    }

    /** insertIntoInternal */
    method InsertIntoInternal(node: Node, k: seq<byte>, v: seq<byte>, ghost n: Tree, ghost h: nat, ghost base: set<nat>)
      returns (st: Status, pageNum: u32)
      requires pm.Valid() && node.Valid() && node.page == PageOf(n) && |k| + |v| <= MAX_KV_LEN
      requires h > 0 && Shape(n, h) && Sorted(Flat(n))
      requires Safe(Now().a, base) && StoredKids(pm.mmap, n, h, Live(base, Now().a))
      requires InsertBelow(Now().a, n, h, KV(k, v)).a.cur <= PAGE_LIMIT
      modifies pm, this`freelist, node`page, node.data
      ensures pm.Valid() && Step(old(Now()), Now(), base)
      ensures Landed(InsertBelow(old(Now().a), n, h, KV(k, v)), Now(), st, pageNum, h, base)
      decreases h, 0
    {
      hide PageManager.Valid, PageOf, Image, Live, Safe, LB, Flat, Sorted, Used, Stored, Small, Step, StoredKids,
           Shape, InsertNode, Node.GetPtr, Node.Valid, WithPtr, NodeSize, SizeOf, WF;
      pm.Bounded();
      ghost var s := Now();
      var idx := node.FindIndex(k);
      NodeFacts(pm.mmap, n, h, Live(base, s.a));
      KidFacts(pm.mmap, n, h, idx, Live(base, s.a));
      KidOrder(n, h, idx);
      freelist := freelist + [node.GetPtr(idx)];
      ghost var s1 := Now();
      StepFree(s, [n.kids[idx].page], base);
      var subtree := LoadAsNode(node.GetPtr(idx), n.kids[idx], h - 1, Live(base, s.a));
      var childPageNum;
      st, childPageNum := InsertAt(subtree, k, v, n.kids[idx], h - 1, base);
      ghost var s2 := Now();
      StepTrans(s, s1, s2, base);
      if st != Ok {
        return st, 0;
      }
      ghost var c := InsertNode(s1.a, n.kids[idx], h - 1, KV(k, v)).t;
      KidMoved(s, s2, base, n, h, idx, c);
      node.SetPtr(idx, childPageNum);
      pageNum := CopyToNewPage(node, n.(kids := n.kids[idx := c]), h, base);
      StepTrans(s, s2, Now(), base);
    }

    /** insert */
    method InsertAt(node: Node, k: seq<byte>, v: seq<byte>, ghost n: Tree, ghost h: nat, ghost base: set<nat>)
      returns (st: Status, pageNum: u32)
      requires pm.Valid() && node.Valid() && node.page == PageOf(n) && |k| + |v| <= MAX_KV_LEN
      requires Shape(n, h) && (h > 0 ==> |n.kvs| >= 1) && Sorted(Flat(n))
      requires Safe(Now().a, base) && StoredKids(pm.mmap, n, h, Live(base, Now().a))
      requires InsertNode(Now().a, n, h, KV(k, v)).a.cur <= PAGE_LIMIT
      modifies pm, this`freelist, node`page, node.data
      ensures pm.Valid() && Step(old(Now()), Now(), base)
      ensures Landed(InsertNode(old(Now().a), n, h, KV(k, v)), Now(), st, pageNum, h, base)
      decreases h, 1
    {
      hide PageManager.Valid, PageOf, Image, Live, Safe, LB, Flat, Sorted, Used, Stored, Small, Step, StoredKids,
           Shape, InsertNode, Node.GetType, Node.Valid, CowTree.SplitChild;
      pm.Bounded();
      ghost var s := Now();
      NodeFacts(pm.mmap, n, h, Live(base, s.a));
      if node.GetType() == INTERNAL {
        InsertUnfolds(s.a, n, h, KV(k, v));
        SplitKeepsOrder(s.a, n, h, LB(n.kvs, k));
        st := SplitChild(node, k, n, h, base);
        if st != Ok {
          return st, 0;
        }
        ghost var s1 := Now();
        StepSafe(s, s1, base);
        ghost var t := CowTree.SplitChild(s.a, n, LB(n.kvs, k), h).t;
        pm.Bounded();
        NodeFacts(pm.mmap, t, h, Live(base, s1.a));
        st, pageNum := InsertIntoInternal(node, k, v, t, h, base);
        StepTrans(s, s1, Now(), base);
      } else {
        st, pageNum := InsertIntoLeaf(node, k, v, n, base);
      }
    }

    /** splitRoot */
    method SplitRoot(rootNode: Node, ghost t: Tree, ghost h: nat, ghost base: set<nat>) returns (newRoot: Node)
      requires pm.Valid() && rootNode.Valid() && rootNode.page == PageOf(t)
      requires Shape(t, h) && |t.kvs| >= 3 && Sorted(Flat(t))
      requires Safe(Now().a, base) && StoredKids(pm.mmap, t, h, Live(base, Now().a))
      requires CowTree.SplitRoot(Now().a, t, h).a.cur <= PAGE_LIMIT
      modifies pm
      ensures pm.Valid() && Step(old(Now()), Now(), base)
      ensures fresh(newRoot) && fresh(newRoot.data) && newRoot.Valid()
      ensures var r := CowTree.SplitRoot(old(Now().a), t, h);
              && Now().a == r.a && newRoot.page == PageOf(r.t)
              && StoredKids(pm.mmap, r.t, h + 1, Live(base, Now().a))
    {
      hide PageManager.Valid, PageOf, Image, Live, Safe, LB, Flat, Sorted, Used, Stored, Small, Step, StoredKids, Shape,
           LeftTree, RightTree, Inserted, WithPtr, Node.Valid, Node.GetKV;
      pm.Bounded();
      ghost var s := Now();
      NodeFacts(pm.mmap, t, h, Live(base, s.a));
      KeysSorted(t);
      SplitRootReady(t, h);
      var leftPageNum, rightPageNum, medianIndex := CopyHalves(rootNode, t, h, base);
      newRoot := NewEmptyNode();
      newRoot.SetType(INTERNAL);
      var median := rootNode.GetKV(medianIndex);
      var ok := InsertBetween(newRoot, median.key, median.val, 0, leftPageNum, rightPageNum);
      SplitRootEnd(s, Now(), base, t, h, leftPageNum, rightPageNum);
    }

    /** HandleMasterPage: switch the root and append the freed pages to the free list of the master page, unless
        the list would get too long; in that case they are forgotten. */
    method HandleMasterPage(pageNum: u32)
      requires pm.Valid()
      modifies pm, this
      ensures pm.Valid() && root == pageNum == pm.root && Now().a == Commit(old(Now().a)) && freelist == []
      ensures pm.fl == if old(freelist) == [] || |old(pm.fl)| + |old(freelist)| < (PAGE_SIZE - 8) / 4
                       then old(pm.fl) + old(freelist) else old(pm.fl)
      ensures var m := pm.mmap[0];
              && |m| == PAGE_SIZE
              && 0x100_0000 * (m[0] as int) + 0x1_0000 * (m[1] as int) + 0x100 * (m[2] as int) + m[3] == pageNum
              && 0x100_0000 * (m[4] as int) + 0x1_0000 * (m[5] as int) + 0x100 * (m[6] as int) + m[7] == |pm.fl|
      ensures pm.mmap == old(pm.mmap)[0 := MasterImage(pageNum, pm.fl)]
      ensures pm.log == old(pm.log) + [Wrote(0, MasterImage(pageNum, pm.fl))]
    {
      hide MasterImage, MasterRaw, Get32, Current, Put, PageManager.Valid;
      pm.HasMaster();
      var buf := pm.Read(0);
      ghost var r, fl: seq<nat> := pm.root, pm.fl;
      ReadMaster(r, fl);
      PutRoot(r, pageNum, fl);
      PutBytes(buf, 0, BE32(pageNum));
      var flSize := Get32(buf[..], 4);
      ReadMaster(pageNum, fl);
      if flSize + |freelist| < (PAGE_SIZE - 8) / 4 {
        AppendEntries(buf, flSize, pageNum, fl);
        fl := fl + freelist;
      }
      pm.Write(0, buf, pageNum, fl);
      MasterHead(pageNum, fl);
      pm.got := [];
      root := pageNum;
      freelist := [];
    }

    /** The loop of HandleMasterPage, and the length it stores afterwards. */
    method AppendEntries(buf: array<byte>, flSize: u32, ghost r: nat, ghost fl: seq<nat>)
      requires buf.Length == PAGE_SIZE && flSize == |fl| && |fl| + |freelist| < MASTER_CAPACITY
      requires buf[..] == MasterImage(r, fl)
      modifies buf
      ensures buf[..] == MasterImage(r, fl + freelist)
    {
      hide MasterImage, MasterRaw, Put, BE32;
      MasterIsRaw(r, fl);
      assert freelist[..0] == [] && fl + [] == fl;
      var idx := 0;
      while idx < |freelist|
        invariant idx <= |freelist|
        invariant buf[..] == MasterRaw(r, flSize, fl + freelist[..idx])
      {
        PutEntry(r, flSize, fl + freelist[..idx], freelist[idx]);
        assert fl + freelist[..idx] + [freelist[idx] as int] == fl + freelist[..idx + 1];
        PutBytes(buf, 8 + 4 * flSize + 4 * idx, BE32(freelist[idx]));
        idx := idx + 1;
      }
      assert freelist[..|freelist|] == freelist;
      PutLength(r, flSize, flSize + |freelist|, fl + freelist);
      PutBytes(buf, 4, BE32(flSize + |freelist|));
      MasterIsRaw(r, fl + freelist);
    }

    // ---- deletion

    /** The edits of rotateRight on the three nodes, up to the copies. */
    method PassRight(parent: Node, leftSibling: Node, child: Node, idx: u16, ghost n: Tree, ghost h: nat,
                     ghost L: set<nat>)
      returns (ok: bool)
      requires pm.Valid() && h > 0 && StoredKids(pm.mmap, n, h, L) && Sorted(Flat(n))
      requires 1 <= idx <= |n.kvs| == |n.kids| - 1
      requires parent.Valid() && parent.page == PageOf(n)
      requires leftSibling.Valid() && leftSibling.page == PageOf(n.kids[idx - 1]) && |n.kids[idx - 1].kvs| >= 2
      requires child.Valid() && child.page == PageOf(n.kids[idx]) && |n.kids[idx].kvs| == 1
      requires parent != leftSibling && parent != child && leftSibling != child
      requires parent.data != leftSibling.data && parent.data != child.data && leftSibling.data != child.data
      modifies parent`page, parent.data, leftSibling`page, leftSibling.data, child`page, child.data
      ensures var l, c := n.kids[idx - 1], n.kids[idx];
              var b := l.kvs[|l.kvs| - 1];
              && ok == UpdateFits(n, idx - 1, b)
              && (ok ==> && parent.Valid()
                         && parent.page == Page(INTERNAL, n.kvs[idx - 1 := b], PtrsOf(n.kids)[idx - 1 := 0])
                         && leftSibling.Valid() && leftSibling.page == PageOf(DropLast(l, 0))
                         && child.Valid() && child.page == PageOf(Prepended(l, n.kvs[idx - 1], c, 0)))
    {
      hide PageManager.Valid, PageOf, Image, Flat, Sorted, Used, Stored, Small, StoredKids, Shape, Node.Valid,
           Node.GetKV, Node.GetPtr, Node.GetType, DropLast, Prepended, UpdateFits, Inserted, Deleted, WithPtr, Fits;
      pm.Bounded();
      ghost var l, e, c := n.kids[idx - 1], n.kvs[idx - 1], n.kids[idx];
      PrependReady(pm.mmap, n, h, idx - 1, L);
      LiftReady(pm.mmap, n, h, idx - 1, idx - 1, |l.kvs| - 1, L);
      KidFacts(pm.mmap, n, h, idx - 1, L);
      NodeFacts(pm.mmap, n, h, L);
      DropLastPage(l, h - 1, 0);
      var borrowed := leftSibling.GetKV(leftSibling.GetNKeys() - 1);
      var separator := parent.GetKV(idx - 1);
      InsertedPtrs(child.page, e);
      ok := child.InsertKV(separator.key, separator.val);
      if leftSibling.GetType() == INTERNAL {
        var danglingPtr := leftSibling.GetPtr(leftSibling.GetNKeys());
        child.SetPtr(0, danglingPtr);
      }
      ok := parent.UpdateKV(idx - 1, borrowed.key, borrowed.val);
      if ok {
        DropLastEntry(leftSibling);
      }
    }

    /** rotateRight */
    method RotateRight(parent: Node, leftSibling: Node, child: Node, idx: u16, ghost n: Tree, ghost h: nat,
                       ghost base: set<nat>)
      returns (st: Status)
      requires h > 0 && 1 <= idx <= |n.kvs| == |n.kids| - 1 && |n.kids[idx - 1].kvs| >= 2 && |n.kids[idx].kvs| == 1
      requires parent.page == PageOf(n) && leftSibling.page == PageOf(n.kids[idx - 1])
      requires child.page == PageOf(n.kids[idx])
      requires RightRotated(Now().a, n, idx - 1).a.cur <= PAGE_LIMIT
      requires parent != leftSibling && parent != child && leftSibling != child
      requires parent.data != leftSibling.data && parent.data != child.data && leftSibling.data != child.data
      requires parent.Valid() && leftSibling.Valid() && child.Valid() && pm.Valid()
      requires Sorted(Flat(n)) && Safe(Now().a, base) && StoredKids(pm.mmap, n, h, Live(base, Now().a))
      modifies pm, parent`page, parent.data, leftSibling`page, leftSibling.data, child`page, child.data
      ensures pm.Valid() && Step(old(Now()), Now(), base)
      ensures Worked(RightRotated(old(Now().a), n, idx - 1), Now(), st, parent.page, h, base)
      ensures st == Ok ==> parent.Valid()
    {
      hide PageManager.Valid, PageOf, Image, Flat, Sorted, Used, Stored, Small, StoredKids, Shape, Node.Valid, Live,
           Safe, Step, DropLast, Prepended, UpdateFits, WithPtr, WithPair;
      ghost var s, l, c := Now(), n.kids[idx - 1], n.kids[idx];
      ghost var b := l.kvs[|l.kvs| - 1];
      pm.Bounded();
      NodeFacts(pm.mmap, n, h, Live(base, s.a));
      RotateRightIs(s.a, n, h, idx - 1);
      UpdateKeepsCount(n, idx - 1, b);
      KidFacts(pm.mmap, n, h, idx - 1, Live(base, s.a));
      PrependReady(pm.mmap, n, h, idx - 1, Live(base, s.a));
      DropStored(pm.mmap, l, h - 1, Live(base, s.a));
      var ok := PassRight(parent, leftSibling, child, idx, n, h, Live(base, s.a));
      if !ok {
        StepNone(s, base);
        return Panic;
      }
      ghost var u, v := DropLast(l, 0), Prepended(l, n.kvs[idx - 1], c, 0);
      var leftPageNum, childPageNum := CopyTwo(leftSibling, child, u, v, h - 1, base);
      DropRelabelled(l, n.kvs[idx - 1], c, leftPageNum, childPageNum);
      PairEnd(s, Now(), base, n, h, idx - 1, u.(page := leftPageNum), b, v.(page := childPageNum));
      parent.SetPtr(idx - 1, leftPageNum);
      parent.SetPtr(idx, childPageNum);
      st := Ok;
    }

    /** The edits of rotateLeft on the three nodes, up to the copies. */
    method PassLeft(parent: Node, child: Node, rightSibling: Node, idx: u16, ghost n: Tree, ghost h: nat,
                    ghost L: set<nat>)
      returns (ok: bool)
      requires h > 0 && idx < |n.kvs| == |n.kids| - 1 && |n.kids[idx].kvs| == 1 && |n.kids[idx + 1].kvs| >= 2
      requires parent.page == PageOf(n) && child.page == PageOf(n.kids[idx])
      requires rightSibling.page == PageOf(n.kids[idx + 1])
      requires parent != rightSibling && parent != child && rightSibling != child
      requires parent.data != rightSibling.data && parent.data != child.data && rightSibling.data != child.data
      requires parent.Valid() && child.Valid() && rightSibling.Valid() && pm.Valid()
      requires Sorted(Flat(n)) && StoredKids(pm.mmap, n, h, L)
      modifies parent`page, parent.data, rightSibling`page, rightSibling.data, child`page, child.data
      ensures var c, r := n.kids[idx], n.kids[idx + 1];
              var b := r.kvs[0];
              && ok == UpdateFits(n, idx, b)
              && (ok ==> && parent.Valid() && parent.page == Page(INTERNAL, n.kvs[idx := b], PtrsOf(n.kids)[idx := 0])
                         && rightSibling.Valid() && rightSibling.page == PageOf(DropFirst(r, 0))
                         && child.Valid() && child.page == PageOf(Appended(c, n.kvs[idx], r, 0)))
    {
      hide PageManager.Valid, PageOf, Image, Flat, Sorted, Used, Stored, Small, StoredKids, Shape, Node.Valid,
           Node.GetKV, Node.GetPtr, Node.GetType, DropFirst, Appended, UpdateFits, Inserted, Deleted, WithPtr, Fits,
           AtEnd, LB;
      pm.Bounded();
      ghost var r := n.kids[idx + 1];
      AppendReady(pm.mmap, n, h, idx, L);
      LiftReady(pm.mmap, n, h, idx, idx + 1, 0, L);
      KidFacts(pm.mmap, n, h, idx, L);
      KidFacts(pm.mmap, n, h, idx + 1, L);
      NodeFacts(pm.mmap, n, h, L);
      DropFirstPage(r, h - 1, 0);
      var borrowed := rightSibling.GetKV(0);
      var separator := parent.GetKV(idx);
      ok := AppendEntry(child, separator.key, separator.val);
      if rightSibling.GetType() == INTERNAL {
        var danglingPtr := rightSibling.GetPtr(0);
        child.SetPtr(child.GetNKeys(), danglingPtr);
      }
      ok := parent.UpdateKV(idx, borrowed.key, borrowed.val);
      if ok {
        rightSibling.DeleteKV(0);
      }
    }

    /** rotateLeft */
    method RotateLeft(parent: Node, child: Node, rightSibling: Node, idx: u16, ghost n: Tree, ghost h: nat,
                      ghost base: set<nat>)
      returns (st: Status)
      requires h > 0 && idx < |n.kvs| == |n.kids| - 1 && |n.kids[idx].kvs| == 1 && |n.kids[idx + 1].kvs| >= 2
      requires parent.page == PageOf(n) && child.page == PageOf(n.kids[idx])
      requires rightSibling.page == PageOf(n.kids[idx + 1])
      requires LeftRotated(Now().a, n, idx).a.cur <= PAGE_LIMIT
      requires parent != rightSibling && parent != child && rightSibling != child
      requires parent.data != rightSibling.data && parent.data != child.data && rightSibling.data != child.data
      requires parent.Valid() && child.Valid() && rightSibling.Valid() && pm.Valid()
      requires Sorted(Flat(n)) && Safe(Now().a, base) && StoredKids(pm.mmap, n, h, Live(base, Now().a))
      modifies pm, parent`page, parent.data, rightSibling`page, rightSibling.data, child`page, child.data
      ensures pm.Valid() && Step(old(Now()), Now(), base)
      ensures Worked(LeftRotated(old(Now().a), n, idx), Now(), st, parent.page, h, base)
      ensures st == Ok ==> parent.Valid()
    {
      hide PageManager.Valid, PageOf, Image, Flat, Sorted, Used, Stored, Small, StoredKids, Shape, Node.Valid, Live,
           Safe, Step, DropFirst, Appended, UpdateFits, WithPtr, WithPair;
      ghost var s, c, r := Now(), n.kids[idx], n.kids[idx + 1];
      ghost var b := r.kvs[0];
      EnoughPtrs(parent);
      pm.Bounded();
      NodeFacts(pm.mmap, n, h, Live(base, s.a));
      RotateLeftIs(s.a, n, h, idx);
      UpdateKeepsCount(n, idx, b);
      KidFacts(pm.mmap, n, h, idx + 1, Live(base, s.a));
      AppendReady(pm.mmap, n, h, idx, Live(base, s.a));
      DropStored(pm.mmap, r, h - 1, Live(base, s.a));
      var ok := PassLeft(parent, child, rightSibling, idx, n, h, Live(base, s.a));
      if !ok {
        StepNone(s, base);
        return Panic;
      }
      ghost var u, v := Appended(c, n.kvs[idx], r, 0), DropFirst(r, 0);
      var childPageNum, rightPageNum := CopyTwo(child, rightSibling, u, v, h - 1, base);
      DropRelabelled(r, n.kvs[idx], c, rightPageNum, childPageNum);
      PairEnd(s, Now(), base, n, h, idx, u.(page := childPageNum), b, v.(page := rightPageNum));
      parent.SetPtr(idx, childPageNum);
      parent.SetPtr(idx + 1, rightPageNum);
      st := Ok;
    }

    /** mergeChildren */
    method MergeChildren(parent: Node, idx: u16, ghost n: Tree, ghost h: nat, ghost base: set<nat>)
      requires h > 0 && idx < |n.kvs| == |n.kids| - 1 && |n.kids[idx].kvs| == 1 && |n.kids[idx + 1].kvs| == 1
      requires parent.page == PageOf(n)
      requires Merged(Now().a, n, idx).a.cur <= PAGE_LIMIT
      requires parent.Valid() && pm.Valid()
      requires Sorted(Flat(n)) && Safe(Now().a, base) && StoredKids(pm.mmap, n, h, Live(base, Now().a))
      modifies pm, parent`page, parent.data
      ensures pm.Valid() && Step(old(Now()), Now(), base)
      ensures Worked(Merged(old(Now().a), n, idx), Now(), Ok, parent.page, h, base) && parent.Valid()
    {
      hide PageManager.Valid, PageOf, Image, Flat, Sorted, Used, Stored, Small, StoredKids, Shape, Node.Valid, Live,
           Safe, Step, WithPtr, WithMerged, Node.GetKV, Node.GetPtr, Deleted, MergedOf;
      EnoughPtrs(parent);
      pm.Bounded();
      ghost var s, L := Now(), Live(base, Now().a);
      NodeFacts(pm.mmap, n, h, L);
      KidFacts(pm.mmap, n, h, idx, L);
      KidFacts(pm.mmap, n, h, idx + 1, L);
      MergeReady(pm.mmap, n, h, idx, L);
      var leftChild := LoadAsNode(parent.GetPtr(idx), n.kids[idx], h - 1, L);
      var rightChild := LoadAsNode(parent.GetPtr(idx + 1), n.kids[idx + 1], h - 1, L);
      var separator := parent.GetKV(idx);
      MergeNodes(leftChild, rightChild, separator.key, separator.val);
      ghost var c := Joined(n.kids[idx], n.kvs[idx], n.kids[idx + 1], 0);
      var newLeftPageNum := CopyToNewPage(leftChild, c, h - 1, base);
      MergeEnd(s, Now(), base, n, h, idx, c.(page := newLeftPageNum));
      parent.DeleteKV(idx);
      DeletedIs(PageOf(n), idx);
      parent.SetPtr(idx, newLeftPageNum);
    }

    /** fillChild, left sibling: if it has a key to spare, rotate it in. */
    method TryLeftSibling(node: Node, childNode: Node, idx: u16, ghost n: Tree, ghost h: nat, ghost base: set<nat>)
      returns (done: bool, st: Status)
      requires h > 0 && 1 <= idx <= |n.kvs| == |n.kids| - 1 && |n.kids[idx].kvs| == 1 && |n.kids[idx - 1].kvs| >= 1
      requires !Underfull(n.kids[idx - 1]) ==>
                 RightRotated(Free(Now().a, [n.kids[idx - 1].page, n.kids[idx].page]), n, idx - 1).a.cur <= PAGE_LIMIT
      requires node.page == PageOf(n) && childNode.page == PageOf(n.kids[idx])
      requires node != childNode && node.data != childNode.data && node.Valid() && childNode.Valid() && pm.Valid()
      requires Sorted(Flat(n)) && Safe(Now().a, base) && StoredKids(pm.mmap, n, h, Live(base, Now().a))
      modifies pm, this`freelist, node`page, node.data, childNode`page, childNode.data
      ensures pm.Valid() && Step(old(Now()), Now(), base) && done == !Underfull(n.kids[idx - 1])
      ensures done ==> Worked(RightRotated(Free(old(Now().a), [n.kids[idx - 1].page, n.kids[idx].page]), n, idx - 1),
                              Now(), st, node.page, h, base)
      ensures done && st == Ok ==> node.Valid()
      ensures !done ==> && Now() == old(Now()) && node.Valid() && node.page == old(node.page)
                        && childNode.Valid() && childNode.page == old(childNode.page)
    {
      hide PageManager.Valid, PageOf, Image, Flat, Sorted, Used, Stored, Small, StoredKids, Shape, Node.Valid, Live,
           Safe, Step, Node.GetPtr, RightRotated;
      pm.Bounded();
      ghost var s, L := Now(), Live(base, Now().a);
      NodeFacts(pm.mmap, n, h, L);
      KidFacts(pm.mmap, n, h, idx - 1, L);
      KidFacts(pm.mmap, n, h, idx, L);
      StepNone(s, base);
      var leftSibling := LoadAsNode(node.GetPtr(idx - 1), n.kids[idx - 1], h - 1, L);
      done, st := !leftSibling.Underflow(), Ok;
      if done {
        freelist := freelist + [node.GetPtr(idx - 1), node.GetPtr(idx)];
        StepFree(s, [n.kids[idx - 1].page, n.kids[idx].page], base);
        ghost var s1 := Now();
        st := RotateRight(node, leftSibling, childNode, idx, n, h, base);
        StepTrans(s, s1, Now(), base);
      }
    }

    /** fillChild, right sibling. */
    method TryRightSibling(node: Node, childNode: Node, idx: u16, ghost n: Tree, ghost h: nat, ghost base: set<nat>)
      returns (done: bool, st: Status)
      requires h > 0 && idx < |n.kvs| == |n.kids| - 1 && |n.kids[idx].kvs| == 1 && |n.kids[idx + 1].kvs| >= 1
      requires !Underfull(n.kids[idx + 1]) ==>
                 LeftRotated(Free(Now().a, [n.kids[idx].page, n.kids[idx + 1].page]), n, idx).a.cur <= PAGE_LIMIT
      requires node.page == PageOf(n) && childNode.page == PageOf(n.kids[idx])
      requires node != childNode && node.data != childNode.data && node.Valid() && childNode.Valid() && pm.Valid()
      requires Sorted(Flat(n)) && Safe(Now().a, base) && StoredKids(pm.mmap, n, h, Live(base, Now().a))
      modifies pm, this`freelist, node`page, node.data, childNode`page, childNode.data
      ensures pm.Valid() && Step(old(Now()), Now(), base) && done == !Underfull(n.kids[idx + 1])
      ensures done ==> Worked(LeftRotated(Free(old(Now().a), [n.kids[idx].page, n.kids[idx + 1].page]), n, idx),
                              Now(), st, node.page, h, base)
      ensures done && st == Ok ==> node.Valid()
      ensures !done ==> && Now() == old(Now()) && node.Valid() && node.page == old(node.page)
                        && childNode.Valid() && childNode.page == old(childNode.page)
    {
      hide PageManager.Valid, PageOf, Image, Flat, Sorted, Used, Stored, Small, StoredKids, Shape, Node.Valid, Live,
           Safe, Step, Node.GetPtr, LeftRotated;
      EnoughPtrs(node);
      pm.Bounded();
      ghost var s, L := Now(), Live(base, Now().a);
      NodeFacts(pm.mmap, n, h, L);
      KidFacts(pm.mmap, n, h, idx + 1, L);
      KidFacts(pm.mmap, n, h, idx, L);
      StepNone(s, base);
      var rightSibling := LoadAsNode(node.GetPtr(idx + 1), n.kids[idx + 1], h - 1, L);
      done, st := !rightSibling.Underflow(), Ok;
      if done {
        freelist := freelist + [node.GetPtr(idx), node.GetPtr(idx + 1)];
        StepFree(s, [n.kids[idx].page, n.kids[idx + 1].page], base);
        ghost var s1 := Now();
        st := RotateLeft(node, childNode, rightSibling, idx, n, h, base);
        StepTrans(s, s1, Now(), base);
      }
    }

    /** Free two neighbours and merge them: fillChild and deleteKeyFromInternal end like this. */
    method FreeAndMerge(node: Node, idx: u16, ghost n: Tree, ghost h: nat, ghost base: set<nat>)
      requires h > 0 && idx < |n.kvs| == |n.kids| - 1 && |n.kids[idx].kvs| == 1 && |n.kids[idx + 1].kvs| == 1
      requires Merged(Free(Now().a, [n.kids[idx].page, n.kids[idx + 1].page]), n, idx).a.cur <= PAGE_LIMIT
      requires node.page == PageOf(n) && node.Valid() && pm.Valid()
      requires Sorted(Flat(n)) && Safe(Now().a, base) && StoredKids(pm.mmap, n, h, Live(base, Now().a))
      modifies pm, this`freelist, node`page, node.data
      ensures pm.Valid() && Step(old(Now()), Now(), base) && node.Valid()
      ensures Worked(Merged(Free(old(Now().a), [n.kids[idx].page, n.kids[idx + 1].page]), n, idx),
                     Now(), Ok, node.page, h, base)
    {
      hide PageManager.Valid, PageOf, Image, Flat, Sorted, Used, Stored, Small, StoredKids, Shape, Node.Valid, Live,
           Safe, Step, Node.GetPtr, Merged;
      EnoughPtrs(node);
      pm.Bounded();
      ghost var s, L := Now(), Live(base, Now().a);
      KidFacts(pm.mmap, n, h, idx, L);
      KidFacts(pm.mmap, n, h, idx + 1, L);
      freelist := freelist + [node.GetPtr(idx), node.GetPtr(idx + 1)];
      StepFree(s, [n.kids[idx].page, n.kids[idx + 1].page], base);
      ghost var s1 := Now();
      MergeChildren(node, idx, n, h, base);
      StepTrans(s, s1, Now(), base);
    }

    /** fillChild: a child with one key gets a second one before the search for k enters it. */
    method FillChild(node: Node, k: seq<byte>, ghost n: Tree, ghost h: nat, ghost base: set<nat>) returns (st: Status)
      requires h > 0 && Shape(n, h) && Fillable(n)
      requires CowTree.FillChild(Now().a, n, LB(n.kvs, k), h).a.cur <= PAGE_LIMIT
      requires node.page == PageOf(n) && node.Valid() && pm.Valid()
      requires Sorted(Flat(n)) && Safe(Now().a, base) && StoredKids(pm.mmap, n, h, Live(base, Now().a))
      modifies pm, this`freelist, node`page, node.data
      ensures pm.Valid() && Step(old(Now()), Now(), base)
      ensures Worked(CowTree.FillChild(old(Now().a), n, LB(n.kvs, k), h), Now(), st, node.page, h, base)
      ensures st == Ok ==> node.Valid()
    {
      hide PageManager.Valid, PageOf, Image, Flat, Sorted, Used, Stored, Small, StoredKids, Shape, Node.Valid, Live,
           Safe, Step, LB, Node.GetPtr, RightRotated, LeftRotated, Merged, CowTree.FillChild, Fillable, Free, Worked;
      pm.Bounded();
      ghost var s, L := Now(), Live(base, Now().a);
      var idx := node.FindIndex(k);
      NodeFacts(pm.mmap, n, h, L);
      KidFacts(pm.mmap, n, h, idx, L);
      FillChildIs(s.a, n, h, idx);
      var childNode := LoadAsNode(node.GetPtr(idx), n.kids[idx], h - 1, L);
      if !childNode.Underflow() {
        StepNone(s, base);
        NothingWorked(s, n, h, base);
        return Ok;
      }
      var done := false;
      if idx > 0 {
        KidFacts(pm.mmap, n, h, idx - 1, L);
        done, st := TryLeftSibling(node, childNode, idx, n, h, base);
      }
      if !done && idx < node.GetNKeys() {
        KidFacts(pm.mmap, n, h, idx + 1, L);
        done, st := TryRightSibling(node, childNode, idx, n, h, base);
      }
      if !done {
        FreeAndMerge(node, if idx > 0 then idx - 1 else idx, n, h, base);
        st := Ok;
      }
    }

    /** deleteFromLeaf */
    method DeleteFromLeaf(node: Node, k: seq<byte>, ghost n: Tree, ghost base: set<nat>)
      returns (st: Status, pageNum: u32)
      requires Shape(n, 0) && DeleteNode(Now().a, n, 0, k).a.cur <= PAGE_LIMIT
      requires node.page == PageOf(n) && node.Valid() && pm.Valid()
      requires Safe(Now().a, base) && StoredKids(pm.mmap, n, 0, Live(base, Now().a))
      modifies pm, node`page, node.data
      ensures pm.Valid() && Step(old(Now()), Now(), base)
      ensures Landed(DeleteNode(old(Now().a), n, 0, k), Now(), st, pageNum, 0, base)
    {
      hide PageManager.Valid, PageOf, Image, Live, Safe, LB, Used, Stored, Small, Step, StoredKids, Shape, Deleted,
           DeleteNode, Del, Node.Valid, Node.GetKV;
      pm.Bounded();
      NodeFacts(pm.mmap, n, 0, Live(base, Now().a));
      LeafDelete(Now().a, n, k, pm.mmap, Live(base, Now().a));
      var idx := node.FindIndex(k);
      if idx >= node.GetNKeys() || node.GetKV(idx).key != k {
        StepNone(Now(), base);
        return NotFound, 0;
      }
      node.DeleteKV(idx);
      st := Ok;
      pageNum := CopyToNewPage(node, n.(kvs := Del(n.kvs, k)), 0, base);
    }

    /** delete */
    method DeleteAt(node: Node, k: seq<byte>, ghost n: Tree, ghost h: nat, ghost base: set<nat>)
      returns (st: Status, pageNum: u32)
      requires Shape(n, h) && Fillable(n)
      requires DeleteNode(Now().a, n, h, k).a.cur <= PAGE_LIMIT
      requires node.page == PageOf(n) && node.Valid() && pm.Valid()
      requires Sorted(Flat(n)) && Safe(Now().a, base) && StoredKids(pm.mmap, n, h, Live(base, Now().a))
      modifies pm, this`freelist, node`page, node.data
      ensures pm.Valid() && Step(old(Now()), Now(), base)
      ensures Landed(DeleteNode(old(Now().a), n, h, k), Now(), st, pageNum, h, base)
      decreases h, |n.kvs|, 2
    {
      hide PageManager.Valid, PageOf, Image, Flat, Sorted, Used, Stored, Small, StoredKids, Shape, Node.Valid, Live,
           Safe, Step, LB, Node.GetType, CowTree.FillChild, DeleteBelow, DeleteHere, Fillable, Holds;
      pm.Bounded();
      ghost var s, L := Now(), Live(base, Now().a);
      NodeFacts(pm.mmap, n, h, L);
      var leaf := node.GetType() == LEAF;
      if leaf {
        st, pageNum := DeleteFromLeaf(node, k, n, base);
        return;
      }
      ghost var t := n;
      var holds := node.ContainsKey(k);
      if !holds {
        DeleteUnfolds(s.a, n, h, k);
        st := FillChild(node, k, n, h, base);
        if st != Ok {
          return st, 0;
        }
        t := CowTree.FillChild(s.a, n, LB(n.kvs, k), h).t;
      } else {
        DeleteBelowHolding(s.a, n, h, k);
        StepNone(s, base);
      }
      ghost var s1 := Now();
      StepSafe(s, s1, base);
      st, pageNum := DeleteFromInternal(node, k, t, h, base);
      StepTrans(s, s1, Now(), base);
    }

    /** deleteFromInternal */
    method DeleteFromInternal(node: Node, k: seq<byte>, ghost n: Tree, ghost h: nat, ghost base: set<nat>)
      returns (st: Status, pageNum: u32)
      requires h > 0 && Shape(n, h) && (Holds(n.kvs, k) || |n.kids[LB(n.kvs, k)].kvs| >= 2)
      requires DeleteBelow(Now().a, n, h, k).a.cur <= PAGE_LIMIT
      requires node.page == PageOf(n) && node.Valid() && pm.Valid()
      requires Sorted(Flat(n)) && Safe(Now().a, base) && StoredKids(pm.mmap, n, h, Live(base, Now().a))
      modifies pm, this`freelist, node`page, node.data
      ensures pm.Valid() && Step(old(Now()), Now(), base)
      ensures Landed(DeleteBelow(old(Now().a), n, h, k), Now(), st, pageNum, h, base)
      decreases h, |n.kvs|, 1
    {
      hide PageManager.Valid, PageOf, Image, Flat, Sorted, Used, Stored, Small, StoredKids, Shape, Node.Valid, Live,
           Safe, Step, LB, Node.GetPtr, DeleteBelow, DeleteHere, DeleteNode, Holds, WithPtr;
      pm.Bounded();
      ghost var s, L := Now(), Live(base, Now().a);
      NodeFacts(pm.mmap, n, h, L);
      var idx := node.FindIndex(k);
      var holds := node.ContainsKey(k);
      if holds {
        DeleteBelowHolding(s.a, n, h, k);
        st, pageNum := DeleteKeyFromInternal(node, k, idx, n, h, base);
        return;
      }
      DeleteBelowUnfolds(s.a, n, h, k);
      KidFacts(pm.mmap, n, h, idx, L);
      KidOrder(n, h, idx);
      ghost var c := n.kids[idx];
      ghost var q := DeleteNode(s.a, c, h - 1, k);
      var childNode := LoadAsNode(node.GetPtr(idx), c, h - 1, L);
      var newChildPageNum;
      st, newChildPageNum := DeleteAt(childNode, k, c, h - 1, base);
      if st != Ok {
        return st, 0;
      }
      ghost var s1 := Now();
      StepSafe(s, s1, base);
      freelist := freelist + [node.GetPtr(idx)];
      ghost var s2 := Now();
      StepFree(s1, [c.page], base);
      StepTrans(s, s1, s2, base);
      KidMoved(s, s2, base, n, h, idx, q.t);
      node.SetPtr(idx, newChildPageNum);
      pageNum := CopyToNewPage(node, n.(kids := n.kids[idx := q.t]), h, base);
      StepTrans(s, s2, Now(), base);
    }

    /** deleteKeyFromInternal */
    method DeleteKeyFromInternal(node: Node, k: seq<byte>, idx: u16, ghost n: Tree, ghost h: nat, ghost base: set<nat>)
      returns (st: Status, pageNum: u32)
      requires h > 0 && Shape(n, h) && Holds(n.kvs, k) && idx == LB(n.kvs, k)
      requires DeleteHere(Now().a, n, h, k).a.cur <= PAGE_LIMIT
      requires node.page == PageOf(n) && node.Valid() && pm.Valid()
      requires Sorted(Flat(n)) && Safe(Now().a, base) && StoredKids(pm.mmap, n, h, Live(base, Now().a))
      modifies pm, this`freelist, node`page, node.data
      ensures pm.Valid() && Step(old(Now()), Now(), base)
      ensures Landed(DeleteHere(old(Now().a), n, h, k), Now(), st, pageNum, h, base)
      decreases h, |n.kvs|, 0
    {
      hide PageManager.Valid, PageOf, Image, Flat, Sorted, Used, Stored, Small, StoredKids, Shape, Node.Valid, Live,
           Safe, Step, LB, Node.GetPtr, DeleteHere, DeleteNode, Borrowed, Merged, LastKV, FirstKV;
      pm.Bounded();
      ghost var s, L := Now(), Live(base, Now().a);
      EnoughPtrs(node);
      NodeFacts(pm.mmap, n, h, L);
      KidFacts(pm.mmap, n, h, idx, L);
      KidFacts(pm.mmap, n, h, idx + 1, L);
      DeleteHereUnfolds(s.a, n, h, k);
      ghost var left, right := n.kids[idx], n.kids[idx + 1];
      var leftChildNode := LoadAsNode(node.GetPtr(idx), left, h - 1, L);
      if !leftChildNode.Underflow() {
        freelist := freelist + [node.GetPtr(idx)];
        ghost var s1 := Now();
        StepFree(s, [left.page], base);
        st, pageNum := BorrowFromInorderPredecessor(node, leftChildNode, idx, n, h, LastKV(left, h - 1), base);
        StepTrans(s, s1, Now(), base);
        return;
      }
      var rightChildNode := LoadAsNode(node.GetPtr(idx + 1), right, h - 1, L);
      if !rightChildNode.Underflow() {
        freelist := freelist + [node.GetPtr(idx + 1)];
        ghost var s1 := Now();
        StepFree(s, [right.page], base);
        st, pageNum := BorrowFromInorderSuccessor(node, rightChildNode, idx, n, h, FirstKV(right, h - 1), base);
        StepTrans(s, s1, Now(), base);
        return;
      }
      ghost var m := Merged(Free(s.a, [left.page, right.page]), n, idx);
      MergeIs(Free(s.a, [left.page, right.page]), n, h, idx);
      MergeFlat(Free(s.a, [left.page, right.page]), n, idx, h);
      FreeAndMerge(node, idx, n, h, base);
      ghost var s1 := Now();
      StepSafe(s, s1, base);
      st, pageNum := DeleteAt(node, k, m.t, h, base);
      StepTrans(s, s1, Now(), base);
    }

    /** The loop that finds the predecessor, and the one that finds the successor. */
    method InorderPredecessor(start: Node, ghost t: Tree, ghost h: nat, ghost L: set<nat>) returns (e: KV)
      requires Shape(t, h) && |t.kvs| >= 1 && start.page == PageOf(t) && start.Valid() && pm.Valid()
      requires StoredKids(pm.mmap, t, h, L)
      modifies pm`seen
      ensures e == EndOf(t, h, true)
    {
      hide PageManager.Valid, PageOf, Image, Used, Stored, Small, StoredKids, Node.Valid, Node.GetPtr, Node.GetKV,
           Node.GetType;
      pm.Bounded();
      var node := start;
      ghost var u, g := t, h;
      NodeFacts(pm.mmap, u, g, L);
      while node.GetType() != LEAF
        invariant Shape(u, g) && |u.kvs| >= 1 && StoredKids(pm.mmap, u, g, L) && LastKV(u, g) == LastKV(t, h)
        invariant node.Valid() && node.page == PageOf(u) && node.page.typ == if g == 0 then LEAF else INTERNAL
        decreases g
      {
        NodeFacts(pm.mmap, u, g, L);
        KidFacts(pm.mmap, u, g, |u.kvs|, L);
        var pageNum := node.GetPtr(node.GetNKeys());
        node := LoadAsNode(pageNum, u.kids[|u.kvs|], g - 1, L);
        u, g := u.kids[|u.kvs|], g - 1;
      }
      NodeFacts(pm.mmap, u, g, L);
      e := node.GetKV(node.GetNKeys() - 1);
    }

    method InorderSuccessor(start: Node, ghost t: Tree, ghost h: nat, ghost L: set<nat>) returns (e: KV)
      requires Shape(t, h) && |t.kvs| >= 1 && start.page == PageOf(t) && start.Valid() && pm.Valid()
      requires StoredKids(pm.mmap, t, h, L)
      modifies pm`seen
      ensures e == EndOf(t, h, false)
    {
      hide PageManager.Valid, PageOf, Image, Used, Stored, Small, StoredKids, Node.Valid, Node.GetPtr, Node.GetKV,
           Node.GetType;
      pm.Bounded();
      var node := start;
      ghost var u, g := t, h;
      NodeFacts(pm.mmap, u, g, L);
      while node.GetType() != LEAF
        invariant Shape(u, g) && |u.kvs| >= 1 && StoredKids(pm.mmap, u, g, L) && FirstKV(u, g) == FirstKV(t, h)
        invariant node.Valid() && node.page == PageOf(u) && node.page.typ == if g == 0 then LEAF else INTERNAL
        decreases g
      {
        NodeFacts(pm.mmap, u, g, L);
        KidFacts(pm.mmap, u, g, 0, L);
        var pageNum := node.GetPtr(0);
        node := LoadAsNode(pageNum, u.kids[0], g - 1, L);
        u, g := u.kids[0], g - 1;
      }
      NodeFacts(pm.mmap, u, g, L);
      e := node.GetKV(0);
    }

    /** borrowFromInorderPredecessor */
    method BorrowFromInorderPredecessor(node: Node, leftChildNode: Node, idx: u16, ghost n: Tree, ghost h: nat,
                                       ghost e: KV, ghost base: set<nat>)
      returns (st: Status, pageNum: u32)
      requires h > 0 && idx < |n.kvs| == |n.kids| - 1 && |n.kids[idx].kvs| >= 2 && Shape(n.kids[idx], h - 1)
      requires e == EndOf(n.kids[idx], h - 1, true)
      requires Shape(n, h) && Borrowed(Now().a, n, h, idx, idx, e).a.cur <= PAGE_LIMIT
      requires node.page == PageOf(n) && leftChildNode.page == PageOf(n.kids[idx])
      requires node != leftChildNode && node.data != leftChildNode.data
      requires node.Valid() && leftChildNode.Valid() && pm.Valid()
      requires Sorted(Flat(n)) && Safe(Now().a, base) && StoredKids(pm.mmap, n, h, Live(base, Now().a))
      modifies pm, this`freelist, node`page, node.data, leftChildNode`page, leftChildNode.data
      ensures pm.Valid() && Step(old(Now()), Now(), base)
      ensures Landed(Borrowed(old(Now().a), n, h, idx, idx, e), Now(), st, pageNum, h, base)
      decreases h, 0, 0
    {
      hide PageManager.Valid, PageOf, Image, Flat, Sorted, Used, Stored, Small, StoredKids, Shape, Node.Valid, Live,
           Safe, Step, LB, Node.GetPtr, DeleteNode, EndOf, Deleted, Inserted, Fits, WithPtr, UpdateFits;
      pm.Bounded();
      ghost var s, c := Now(), n.kids[idx];
      ghost var L := Live(base, s.a);
      EnoughPtrs(node);
      NodeFacts(pm.mmap, n, h, L);
      KidFacts(pm.mmap, n, h, idx, L);
      KidOrder(n, h, idx);
      BorrowReady(pm.mmap, n, h, idx, idx, e, L);
      BorrowKeepsKey(s.a, c, h - 1, e.key);
      var pred := InorderPredecessor(leftChildNode, c, h - 1, L);
      UpdateKeepsCount(n, idx, e);
      var ok := node.UpdateKV(idx, pred.key, pred.val);
      if !ok {
        StepNone(s, base);
        return Panic, 0;
      }
      BorrowedGrows(s.a, n, h, idx, idx, e);
      ghost var q := DeleteNode(s.a, c, h - 1, e.key);
      var newLeftPageNum;
      st, newLeftPageNum := DeleteAt(leftChildNode, pred.key, c, h - 1, base);
      if st != Ok {
        return st, 0;
      }
      ghost var s1 := Now();
      StepSafe(s, s1, base);
      BorrowEnd(s, s1, base, n, h, idx, idx, e, q.t);
      node.SetPtr(idx, newLeftPageNum);
      pageNum := CopyToNewPage(node, Tree(n.page, n.kvs[idx := e], n.kids[idx := q.t]), h, base);
      StepTrans(s, s1, Now(), base);
    }

    /** borrowFromInorderSuccessor */
    method BorrowFromInorderSuccessor(node: Node, rightChildNode: Node, idx: u16, ghost n: Tree, ghost h: nat,
                                       ghost e: KV, ghost base: set<nat>)
      returns (st: Status, pageNum: u32)
      requires h > 0 && idx < |n.kvs| == |n.kids| - 1 && |n.kids[idx + 1].kvs| >= 2 && Shape(n.kids[idx + 1], h - 1)
      requires e == EndOf(n.kids[idx + 1], h - 1, false)
      requires Shape(n, h) && Borrowed(Now().a, n, h, idx, idx + 1, e).a.cur <= PAGE_LIMIT
      requires node.page == PageOf(n) && rightChildNode.page == PageOf(n.kids[idx + 1])
      requires node != rightChildNode && node.data != rightChildNode.data
      requires node.Valid() && rightChildNode.Valid() && pm.Valid()
      requires Sorted(Flat(n)) && Safe(Now().a, base) && StoredKids(pm.mmap, n, h, Live(base, Now().a))
      modifies pm, this`freelist, node`page, node.data, rightChildNode`page, rightChildNode.data
      ensures pm.Valid() && Step(old(Now()), Now(), base)
      ensures Landed(Borrowed(old(Now().a), n, h, idx, idx + 1, e), Now(), st, pageNum, h, base)
      decreases h, 0, 0
    {
      hide PageManager.Valid, PageOf, Image, Flat, Sorted, Used, Stored, Small, StoredKids, Shape, Node.Valid, Live,
           Safe, Step, LB, Node.GetPtr, DeleteNode, EndOf, Deleted, Inserted, Fits, WithPtr, UpdateFits;
      pm.Bounded();
      ghost var s, c := Now(), n.kids[idx + 1];
      ghost var L := Live(base, s.a);
      EnoughPtrs(node);
      NodeFacts(pm.mmap, n, h, L);
      KidFacts(pm.mmap, n, h, idx, L);
      KidFacts(pm.mmap, n, h, idx + 1, L);
      KidOrder(n, h, idx + 1);
      BorrowReady(pm.mmap, n, h, idx, idx + 1, e, L);
      BorrowKeepsKey(s.a, c, h - 1, e.key);
      var succ := InorderSuccessor(rightChildNode, c, h - 1, L);
      UpdateKeepsCount(n, idx, e);
      var danglingPtr := node.GetPtr(idx);
      var ok := node.UpdateKV(idx, succ.key, succ.val);
      if !ok {
        StepNone(s, base);
        return Panic, 0;
      }
      node.SetPtr(idx, danglingPtr);
      BorrowedGrows(s.a, n, h, idx, idx + 1, e);
      ghost var q := DeleteNode(s.a, c, h - 1, e.key);
      var newRightPageNum;
      st, newRightPageNum := DeleteAt(rightChildNode, succ.key, c, h - 1, base);
      if st != Ok {
        return st, 0;
      }
      ghost var s1 := Now();
      StepSafe(s, s1, base);
      BorrowEnd(s, s1, base, n, h, idx, idx + 1, e, q.t);
      node.SetPtr(idx + 1, newRightPageNum);
      pageNum := CopyToNewPage(node, Tree(n.page, n.kvs[idx := e], n.kids[idx + 1 := q.t]), h, base);
      StepTrans(s, s1, Now(), base);
    }

    /** fillRoot */
    method FillRoot(pageNum: u32, ghost t: Tree, ghost h: nat, ghost L: set<nat>) returns (rootPage: u32)
      requires pm.Valid() && Stored(pm.mmap, t, h, L) && pageNum == t.page
      modifies pm`seen
      ensures rootPage == CowTree.FillRoot(t).page
    {
      hide PageManager.Valid, PageOf, Image, Used, Small, Node.Valid, Node.GetPtr, Node.GetType;
      pm.Bounded();
      var newRoot := LoadAsNode(pageNum, t, h, L);
      NodeFacts(pm.mmap, t, h, L);
      rootPage := pageNum;
      if newRoot.GetNKeys() == 0 && newRoot.GetType() == INTERNAL {
        KidFacts(pm.mmap, t, h, 0, L);
        rootPage := newRoot.GetPtr(0);
      }
    }

    // ---- whole operations

    /** The root of an insertion: loaded, and split if it overflows. */
    method PrepareRoot(root: u32, ghost t: Tree, ghost h: nat, ghost base: set<nat>) returns (rootNode: Node)
      requires RootShape(t, h) && Prepared(Now().a, t, h).a.cur <= PAGE_LIMIT
      requires pm.Valid() && root == t.page && Sorted(Flat(t))
      requires Safe(Now().a, base) && Stored(pm.mmap, t, h, Live(base, Now().a))
      modifies pm
      ensures pm.Valid() && Step(old(Now()), Now(), base)
      ensures fresh(rootNode) && fresh(rootNode.data) && rootNode.Valid()
      ensures var r := Prepared(old(Now().a), t, h);
              && Now().a == r.a && rootNode.page == PageOf(r.t)
              && StoredKids(pm.mmap, r.t, Grown(t, h), Live(base, Now().a))
    {
      hide PageManager.Valid, PageOf, Image, Live, Safe, Flat, Sorted, Used, Small, Step, StoredKids, Shape, Node.Valid,
           CowTree.SplitRoot;
      pm.Bounded();
      ghost var L := Live(base, Now().a);
      StoredParts(pm.mmap, t, h, L);
      NodeFacts(pm.mmap, t, h, L);
      rootNode := LoadAsNode(root, t, h, L);
      if rootNode.Overflow() {
        OverflowingRoot(t, h);
        rootNode := SplitRoot(rootNode, t, h, base);
      } else {
        StepNone(Now(), base);
      }
    }

    /** InsertNoSync */
    method InsertNoSync(k: seq<byte>, v: seq<byte>, root: u32, ghost d: DB, ghost base: set<nat>)
      returns (st: Status, newRoot: u32)
      requires Good(d) && Database.InsertNoSync(d, KV(k, v)).d.a.cur <= PAGE_LIMIT
      requires root == d.t.page && Works(d, base)
      modifies pm, this`freelist
      ensures pm.Valid() && Step(old(Now()), Now(), base)
      ensures var o := Database.InsertNoSync(d, KV(k, v));
              && st == o.st && (st == Ok ==> newRoot == o.d.t.page && Works(o.d, base))
              && (st == TooLarge ==> Works(d, base) && o.d == d)
    {
      hide PageManager.Valid, PageOf, Image, Live, Safe, Flat, Sorted, Used, Small, Step, Stored, StoredKids,
           RootShape, Node.Valid, InsertRoot, InsertNode, Prepared;
      ghost var s := Now();
      InsertRootStatus(s.a, d.t, d.h, KV(k, v), [d.t.page]);
      if |k| + |v| > MAX_KV_LEN {
        StepNone(s, base);
        return TooLarge, 0;
      }
      PreparedIs(s.a, d.t, d.h, KV(k, v), [d.t.page]);
      ghost var r := Prepared(s.a, d.t, d.h);
      var rootNode := PrepareRoot(root, d.t, d.h, base);
      ghost var s1 := Now();
      StepSafe(s, s1, base);
      freelist := freelist + [root];
      ghost var s2 := Now();
      StepFree(s1, [d.t.page], base);
      StepTrans(s, s1, s2, base);
      st, newRoot := InsertAt(rootNode, k, v, r.t, Grown(d.t, d.h), base);
      StepTrans(s, s2, Now(), base);
    }

    /** The end of a committed operation: barrier, root switch, barrier. */
    method Publish(pageNum: u32, ghost t: Tree, ghost h: nat, ghost base: set<nat>)
      requires pm.Valid() && pageNum == t.page
      requires Safe(Now().a, base) && Stored(pm.mmap, t, h, Live(base, Now().a))
      modifies this, pm
      ensures Rests(DB(Commit(Free(old(Now().a), [old(root) as nat])), t, h))
      ensures var m := Now().m;
              && |old(Now().m)| == |m| > 0 && m == old(Now().m)[0 := m[0]] && |m[0]| == PAGE_SIZE
              && Get32(m[0], 0) == t.page == pm.root
              && Now().log == old(Now().log) + Barrier(pm.sync) + [Wrote(0, m[0])] + Barrier(pm.sync)
    {
      hide MasterImage, Live, Safe, Stored, PageManager.Valid, Pages;
      ghost var s := Now();
      pm.HasMaster();
      StoredHasPage(s.a, base, pm.mmap, t, h);
      pm.Fsync();
      freelist := freelist + [root];
      HandleMasterPage(pageNum);
      pm.HasMaster();
      StoredAfterCommit(s, base, t, h, MasterImage(t.page, pm.fl));
      ReadMaster(t.page, pm.fl);
      pm.Fsync();
    }

    /** Insert */
    method Insert(k: seq<byte>, v: seq<byte>, ghost d: DB) returns (st: Status, ghost mid: State)
      requires Good(d) && Database.Insert(d, KV(k, v)).d.a.cur <= PAGE_LIMIT
      requires Rests(d) && Safe(d.a, PageSet(d.t))
      modifies this, pm
      ensures pm.Valid() && Step(old(Now()), mid, PageSet(d.t)) && Mirrors(mid)
      ensures var o := Database.Insert(d, KV(k, v));
              && st == o.st
              && (st == Ok ==> && Rests(o.d) && Transaction(old(Now()), mid, Now(), d.t, o.d.t, o.d.h)
                               && Now().log == mid.log + Barrier(pm.sync) + [Wrote(0, Now().m[0])] + Barrier(pm.sync))
              && (st == TooLarge ==> Rests(d) && o.d == d)
      ensures st != Ok ==> Now() == mid
    {
      hide PageManager.Valid, PageOf, Image, MasterImage, Live, Safe, Flat, Sorted, Used, Small, Step, Stored,
           StoredKids, RootShape, Node.Valid, InsertRoot, InsertNode, Prepared, Pages, Mirrors;
      ghost var base := PageSet(d.t);
      ghost var s := Now();
      mid := s;
      RestsWorks(d);
      Mirrored();
      InsertRootStatus(s.a, d.t, d.h, KV(k, v), []);
      if |k| + |v| > MAX_KV_LEN {
        StepNone(s, base);
        return TooLarge, mid;
      }
      PreparedIs(s.a, d.t, d.h, KV(k, v), []);
      ghost var r := Prepared(s.a, d.t, d.h);
      FreeNothing(r.a);
      var rootNode := PrepareRoot(root, d.t, d.h, base);
      ghost var s1 := Now();
      StepSafe(s, s1, base);
      var pageNum;
      st, pageNum := InsertAt(rootNode, k, v, r.t, Grown(d.t, d.h), base);
      mid := Now();
      StepTrans(s, s1, mid, base);
      Mirrored();
      if st == Ok {
        Publish(pageNum, InsertRoot(s.a, d.t, d.h, KV(k, v), []).t, Grown(d.t, d.h), base);
      }
    }

    lemma Mirrored()
      requires pm.Valid()
      ensures Mirrors(Now())
    {
      pm.Mirrored();
    }

    lemma RestsQuiet(d: DB)
      requires Rests(d)
      ensures Runs.Quiet(d)
    {
    }

    lemma RestsWorks(d: DB)
      requires Rests(d) && Safe(d.a, PageSet(d.t))
      ensures Works(d, PageSet(d.t)) && Live(PageSet(d.t), d.a) == PageSet(d.t)
    {
      hide Stored, PageManager.Valid, Pages, Safe;
      assert Live(PageSet(d.t), d.a) == PageSet(d.t);
    }

    /** DeleteNoSync: frees the committed root, whichever root it was given. */
    method DeleteNoSync(k: seq<byte>, root: u32, ghost d: DB, ghost base: set<nat>) returns (st: Status, newRoot: u32)
      requires Good(d) && Database.DeleteNoSync(d, k, this.root).d.a.cur <= PAGE_LIMIT
      requires root == d.t.page && Works(d, base)
      modifies pm, this`freelist
      ensures pm.Valid() && Step(old(Now()), Now(), base)
      ensures var o := Database.DeleteNoSync(d, k, this.root);
              && st == o.st && (st == Ok ==> newRoot == o.d.t.page && Works(o.d, base))
              && (st == NotFound ==> Works(o.d, base))
    {
      hide PageManager.Valid, PageOf, Image, Live, Safe, Flat, Sorted, Used, Small, Step, Stored, StoredKids,
           Node.Valid, DeleteNode, CowTree.FillRoot, Shape;
      ghost var s := Now();
      StoredParts(pm.mmap, d.t, d.h, Live(base, s.a));
      RootFillable(d.t, d.h);
      var rootNode := LoadAsNode(root, d.t, d.h, Live(base, s.a));
      var pageNum;
      st, pageNum := DeleteAt(rootNode, k, d.t, d.h, base);
      ghost var s1 := Now();
      StepSafe(s, s1, base);
      if st != Ok {
        StepStored(s, s1, base, d.t, d.h);
        return st, 0;
      }
      ghost var r := DeleteNode(s.a, d.t, d.h, k);
      freelist := freelist + [this.root];
      StepFree(s1, [this.root as int], base);
      StepTrans(s, s1, Now(), base);
      newRoot := FillRoot(pageNum, r.t, d.h, Live(base, s1.a));
      FillRootStored(pm.mmap, r.t, d.h, Live(base, s1.a));
    }

    /** Delete */
    method Delete(k: seq<byte>, ghost d: DB) returns (st: Status, ghost mid: State)
      requires Good(d) && Database.Delete(d, k).d.a.cur <= PAGE_LIMIT
      requires Rests(d) && Safe(d.a, PageSet(d.t))
      modifies this, pm
      ensures pm.Valid() && Step(old(Now()), mid, PageSet(d.t)) && Mirrors(mid)
      ensures var o := Database.Delete(d, k);
              && st == o.st
              && (st == Ok ==> && Rests(o.d) && Transaction(old(Now()), mid, Now(), d.t, o.d.t, o.d.h)
                               && Now().log == mid.log + Barrier(pm.sync) + [Wrote(0, Now().m[0])] + Barrier(pm.sync))
              && (st == NotFound ==> && Now().a == o.d.a && root == d.t.page
                                     && Stored(pm.mmap, d.t, d.h, PageSet(d.t)))
      ensures st != Ok ==> Now() == mid
    {
      hide PageManager.Valid, PageOf, Image, MasterImage, Live, Safe, Flat, Sorted, Used, Small, Step, Stored,
           StoredKids, Node.Valid, DeleteNode, CowTree.FillRoot, Shape, Pages, Mirrors;
      ghost var base := PageSet(d.t);
      ghost var s := Now();
      RestsWorks(d);
      StoredParts(pm.mmap, d.t, d.h, Live(base, s.a));
      RootFillable(d.t, d.h);
      var rootNode := LoadAsNode(root, d.t, d.h, Live(base, s.a));
      var pageNum;
      st, pageNum := DeleteAt(rootNode, k, d.t, d.h, base);
      mid := Now();
      StepSafe(s, mid, base);
      Mirrored();
      if st != Ok {
        StepStored(s, mid, base, d.t, d.h);
        StoredOwn(pm.mmap, d.t, d.h, Live(base, mid.a), base);
        return;
      }
      ghost var r := DeleteNode(s.a, d.t, d.h, k);
      pageNum := FillRoot(pageNum, r.t, d.h, Live(base, mid.a));
      FillRootStored(pm.mmap, r.t, d.h, Live(base, mid.a));
      Publish(pageNum, CowTree.FillRoot(r.t), ShrunkHeight(r.t, d.h), base);
    }

    method Fsync()
      requires pm.Valid()
      modifies pm`log
      ensures pm.Valid() && pm.log == old(pm.log) + Barrier(pm.sync)
    {
      hide PageManager.Valid;
      pm.Fsync();
    }

    method Msync()
      requires pm.Valid()
      modifies pm`log
      ensures pm.Valid() && pm.log == old(pm.log) + [FlushMaster]
    {
      pm.MsyncMaster();
    }

    // ---- searching

    /** search: it reads the pages of a way down from this node, each once. */
    method SearchAt(node: Node, target: seq<byte>, ghost t: Tree, ghost h: nat, ghost L: set<nat>)
      returns (r: Option<seq<byte>>, ghost below: seq<nat>)
      requires Shape(t, h) && node.page == PageOf(t) && node.Valid() && pm.Valid() && StoredKids(pm.mmap, t, h, L)
      modifies pm`seen
      ensures r == Find(t, h, target)
      ensures pm.seen == old(pm.seen) + below && Way(t, h, [t.page] + below)
      decreases h
    {
      hide PageManager.Valid, PageOf, Image, Used, Stored, Small, StoredKids, Shape, Node.Valid, Node.GetPtr,
           Node.GetKV, Node.GetType, LB;
      pm.Bounded();
      NodeFacts(pm.mmap, t, h, L);
      below := [];
      WayStarts(t, h);
      var idx := node.FindIndex(target);
      var nKeys := node.GetNKeys();
      if idx < nKeys {
        var e := node.GetKV(idx);
        if e.key == target {
          return Some(e.val), below;
        }
      }
      if node.GetType() == LEAF {
        return None, below;
      }
      KidFacts(pm.mmap, t, h, idx, L);
      var pageNum := node.GetPtr(idx);
      var child := LoadAsNode(pageNum, t.kids[idx], h - 1, L);
      r, below := SearchAt(child, target, t.kids[idx], h - 1, L);
      below := [t.kids[idx].page] + below;
      WayOn(t, h, idx, below);
    }

    /** Search from any root whose tree is on its pages, the committed one or one a reader still holds. The pages
        read lead down from that root, and there are at most log2(n + 1) of them for n entries. */
    method SearchFrom(root: u32, k: seq<byte>, ghost d: DB, ghost L: set<nat>)
      returns (r: Option<seq<byte>>, ghost loaded: seq<nat>)
      requires Good(d) && root == d.t.page && pm.Valid() && Stored(pm.mmap, d.t, d.h, L)
      modifies pm`seen
      ensures r == if k in View(d) then Some(View(d)[k]) else None
      ensures pm.seen == old(pm.seen) + loaded && Way(d.t, d.h, loaded)
      ensures |Flat(d.t)| > 0 ==> Pow2(|loaded|) <= |Flat(d.t)| + 1
      ensures |Flat(d.t)| == 0 ==> |loaded| == 1
    {
      hide PageManager.Valid, PageOf, Image, Used, Stored, Small, StoredKids, Shape, Node.Valid, Find, Flat;
      StoredParts(pm.mmap, d.t, d.h, L);
      var rootNode := LoadAsNode(root, d.t, d.h, L);
      r, loaded := SearchAt(rootNode, k, d.t, d.h, L);
      loaded := [d.t.page] + loaded;
      FindIsLookup(d.t, d.h, k);
      SearchIsLogarithmic(d.t, d.h, loaded);
    }

    /** Search */
    method Search(k: seq<byte>, ghost d: DB) returns (r: Option<seq<byte>>, ghost loaded: seq<nat>)
      requires Good(d) && Rests(d)
      modifies pm`seen
      ensures r == if k in View(d) then Some(View(d)[k]) else None
      ensures pm.seen == old(pm.seen) + loaded && Way(d.t, d.h, loaded)
      ensures |Flat(d.t)| > 0 ==> Pow2(|loaded|) <= |Flat(d.t)| + 1
      ensures |Flat(d.t)| == 0 ==> |loaded| == 1
    {
      hide PageManager.Valid, Stored, Good, View;
      r, loaded := SearchFrom(root, k, d, PageSet(d.t));
    }
  }
}
