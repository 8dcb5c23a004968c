/** What splitChild does to a parent when keys occur twice. */
module Twins {
  import opened Bytes
  import opened CowNodes
  import opened CowTree
  import opened Entries
  import opened NodeManager
  import opened PageCodec
  import opened TreePages
  import opened Trees

  /** If the median lands at j before i, a zero pointer, the number of the master page, comes to stand at j and the
      pointer to child i - 1 is overwritten: that subtree is lost. */
  lemma StrayMedian(n: Tree, h: nat, i: nat, l: Tree, m: KV, r: Tree)
    requires h > 0 && Shape(n, h) && i <= |n.kvs| && LB(n.kvs, m.key) < i
    ensures var j, ps := LB(n.kvs, m.key), PtrsOf(n.kids);
            SpliceWritten(PageOf(n), i, l.page, m, r.page).ptrs ==
            ps[..j] + [0] + ps[j..i - 1] + [l.page, r.page] + ps[i + 1..]
  {
    hide Used, Small, LB;
    var j, ps := LB(n.kvs, m.key), PtrsOf(n.kids);
    assert Inserted(PageOf(n), m).ptrs == ps[..j] + [0] + ps[j..];
  }

  /** splitChild takes for granted that the median lands at the index of the child. In a node whose keys do not
      descend and bound those of the child, what it writes is the node with the child replaced by its halves exactly
      when the separator before the child is not the key of the median, which distinct keys guarantee. */
  lemma MedianLandsIff(n: Tree, h: nat, i: nat, l: Tree, m: KV, r: Tree)
    requires h > 0 && Shape(n, h) && i <= |n.kvs|
    requires forall x, y | 0 <= x < y < |n.kvs| :: !Less(n.kvs[y].key, n.kvs[x].key)
    requires i > 0 ==> !Less(m.key, n.kvs[i - 1].key)
    requires i < |n.kvs| ==> !Less(n.kvs[i].key, m.key)
    requires l.page != 0 && r.page != 0 && forall c | c in n.kids :: c.page != 0
    ensures SpliceWritten(PageOf(n), i, l.page, m, r.page) == PageOf(Spliced(n, i, l, m, r)) <==>
            i == 0 || n.kvs[i - 1].key != m.key
  {
    hide Used, Small, LB, Shape, PageOf, Spliced, SpliceWritten;
    LandsIff(n.kvs, i, m.key);
    ShapeKids(n, h);
    if LB(n.kvs, m.key) == i {
      SplicedPage(n, h, i, l, m, r);
    } else {
      var j := LB(n.kvs, m.key);
      StrayMedian(n, h, i, l, m, r);
      SplicedPtr(n, i, l, m, r, j);
    }
  }

  lemma SplicedPtr(n: Tree, i: nat, l: Tree, m: KV, r: Tree, j: nat)
    requires |n.kids| == |n.kvs| + 1 && j < i <= |n.kvs|
    requires forall c | c in n.kids :: c.page != 0
    ensures j < |PageOf(Spliced(n, i, l, m, r)).ptrs| && PageOf(Spliced(n, i, l, m, r)).ptrs[j] != 0
  {
    assert Spliced(n, i, l, m, r).kids[j] == n.kids[j];
  }

  lemma LandsIff(s: seq<KV>, i: nat, k: seq<byte>)
    requires i <= |s|
    requires forall x, y | 0 <= x < y < |s| :: !Less(s[y].key, s[x].key)
    requires i > 0 ==> !Less(k, s[i - 1].key)
    requires i < |s| ==> !Less(s[i].key, k)
    ensures LB(s, k) <= i && (LB(s, k) == i <==> i == 0 || s[i - 1].key != k)
  {
    hide LB;
    if i > 0 {
      LessTotal(s[i - 1].key, k);
    }
    if i == 0 || s[i - 1].key != k {
      forall j | 0 <= j < i
        ensures Less(s[j].key, k)
      {
        if j < i - 1 {
          LessTotal(s[j].key, s[i - 1].key);
          if s[j].key != s[i - 1].key {
            LessTransitive(s[j].key, s[i - 1].key, k);
          }
        }
      }
      LBUnique(s, k, i);
    }
  }

  // ---- the input: one key inserted seven times, then two larger ones

  const TWIN: KV := KV([7], Zeros(446))
  const EIGHT: KV := KV([8], Zeros(1343))
  const NINE: KV := KV([9], Zeros(1343))

  function TwinRow(j: nat): (s: seq<KV>)
    ensures |s| == j
  {
    seq(j, _ => TWIN)
  }

  lemma TwinFacts(j: nat)
    ensures Footprint(TWIN) == 457 && Footprint(EIGHT) == Footprint(NINE) == 1354
    ensures j <= 8 ==> Small(TwinRow(j)) && Used(TwinRow(j)) == 8 + 457 * j
    ensures LB(TwinRow(j), [7]) == 0
  {
    hide Zeros;
    UsedBounds(TwinRow(j), 457, 457);
    if j > 0 {
      LessTotal([7], [7]);
      LBUnique(TwinRow(j), [7], 0);
    }
  }

  /** The sevenfold leaf: each insertion goes in front of its twins. */
  lemma TwinLeafGrows(a: Alloc, p: nat, j: nat)
    requires j < 7
    ensures var t := Tree(p, TwinRow(j), []);
            && RootShape(t, 0)
            && InsertRoot(a, t, 0, TWIN, []) == Res(Ok, Take(Free(a, [])), Tree(Next(Free(a, [])), TwinRow(j + 1), []))
  {
    hide Used, TwinRow, Zeros, InsertRoot;
    TwinFacts(j);
    TwinRowFront(j);
    RootLeafTakes(a, Tree(p, TwinRow(j), []), TWIN, []);
  }

  lemma TwinRowFront(j: nat)
    ensures TwinRow(j)[..0] + [TWIN] + TwinRow(j)[0..] == TwinRow(j + 1)
  {
  }

  /** The row after a split in the middle, with larger entries behind it. */
  lemma TwinHalf(more: seq<KV>)
    requires more == [] || more == [EIGHT] || more == [EIGHT, NINE]
    ensures var s := TwinRow(3) + more; Small(s) && Used(s) == 1379 + 1354 * |more|
  {
    hide Zeros, Used, TwinRow;
    TwinFacts(3);
    UsedBounds(more, 1354, 1354);
    UsedSplit(TwinRow(3) + more, 3);
    assert (TwinRow(3) + more)[..3] == TwinRow(3) && (TwinRow(3) + more)[3..] == more;
  }

  lemma TwinHalfPlace(more: seq<KV>, e: KV)
    requires (more == [] && e == EIGHT) || (more == [EIGHT] && e == NINE)
    ensures var s := TwinRow(3) + more; LB(s, e.key) == |s| && Ins(s, e) == TwinRow(3) + (more + [e])
  {
    hide Zeros, LB;
    var s := TwinRow(3) + more;
    LBUnique(s, e.key, |s|);
    assert s[..|s|] + [e] + s[|s|..] == TwinRow(3) + (more + [e]);
  }

  /** The root splits before the eighth insertion: three twins on each side of a separator that is a twin. */
  function Parent(p: nat, l: nat, r: nat, more: seq<KV>): Tree {
    Tree(p, [TWIN], [Tree(l, TwinRow(3), []), Tree(r, TwinRow(3) + more, [])])
  }

  lemma ParentShape(p: nat, l: nat, r: nat, more: seq<KV>)
    requires more == [] || more == [EIGHT] || more == [EIGHT, NINE]
    ensures Shape(Parent(p, l, r, more), 1) && !Overflowing(Parent(p, l, r, more))
    ensures Overflowing(Parent(p, l, r, more).kids[1]) <==> |more| == 2
    ensures LB([TWIN], [8]) == LB([TWIN], [9]) == 1
  {
    hide Zeros, Used, TwinRow;
    TwinFacts(3);
    TwinHalf([]);
    TwinHalf(more);
    UsedBounds([TWIN], 457, 457);
    LBUnique([TWIN], [8], 1);
    LBUnique([TWIN], [9], 1);
  }

  lemma LargerGoesRight(a: Alloc, p: nat, l: nat, r: nat, more: seq<KV>, e: KV)
    requires (more == [] && e == EIGHT) || (more == [EIGHT] && e == NINE)
    ensures RootShape(Parent(p, l, r, more), 1)
    ensures var q := InsertNode(a, Parent(p, l, r, more), 1, e);
            q.st == Ok && q.t == Parent(q.t.page, l, q.t.kids[1].page, more + [e])
  {
    hide Zeros, Used, TwinRow, LB, Ins;
    ParentShape(p, l, r, more);
    TwinHalf(more);
    TwinHalfPlace(more, e);
    TwinFacts(0);
    var n := Parent(p, l, r, more);
    assert SplitChild(a, n, 1, 1) == Res(Ok, a, n);
    var c := n.kids[1];
    assert RoomFor(NodeSize(c), e);
  }

  lemma SevenSplits(a: Alloc, p: nat)
    ensures var t := Tree(p, TwinRow(7), []);
            && RootShape(t, 0) && Overflowing(t)
            && SplitRoot(a, t, 0).t == Parent(0, Next(Take(a)), Next(a), [])
  {
    hide Zeros, Used;
    TwinFacts(7);
    var t := Tree(p, TwinRow(7), []);
    assert TwinRow(7)[..3] == TwinRow(3) && TwinRow(7)[4..] == TwinRow(3) + [] && Median(t) == TWIN;
  }

  lemma TwinMedian(c: Tree)
    requires c.kvs == TwinRow(3) + [EIGHT, NINE]
    ensures Median(c) == TWIN
  {
  }

  /** Seven insertions of one key into an empty leaf (TwinLeafGrows), then two larger keys: the parent holds the key
      as its separator, the right child overflows, and its median has the same key. */
  lemma TwinsArise(a: Alloc, p: nat)
    ensures RootShape(Tree(p, TwinRow(7), []), 0)
    ensures var r := InsertRoot(a, Tree(p, TwinRow(7), []), 0, EIGHT, []);
            && r.st == Ok && RootShape(r.t, 1)
            && var q := InsertRoot(r.a, r.t, 1, NINE, []);
               && q.st == Ok && Shape(q.t, 1)
               && q.t == Parent(q.t.page, q.t.kids[0].page, q.t.kids[1].page, [EIGHT, NINE])
               && Overflowing(q.t.kids[1]) && Median(q.t.kids[1]) == TWIN
  {
    hide Zeros, Used, TwinRow, InsertNode, SplitRoot, Overflowing, Shape;
    var t := Tree(p, TwinRow(7), []);
    SevenSplits(a, p);
    TwinFacts(0);
    assert |EIGHT.key| + |EIGHT.val| == 1344 == |NINE.key| + |NINE.val|;
    var s := SplitRoot(a, t, 0);
    LargerGoesRight(Free(s.a, []), 0, Next(Take(a)), Next(a), [], EIGHT);
    var r := InsertRoot(a, t, 0, EIGHT, []);
    assert [] + [EIGHT] == [EIGHT] && [EIGHT] + [NINE] == [EIGHT, NINE];
    var l, c := r.t.kids[0].page, r.t.kids[1].page;
    assert r.t == Parent(r.t.page, l, c, [EIGHT]);
    ParentShape(r.t.page, l, c, [EIGHT]);
    LargerGoesRight(Free(r.a, []), r.t.page, l, c, [EIGHT], NINE);
    var q := InsertRoot(r.a, r.t, 1, NINE, []);
    ParentShape(q.t.page, l, q.t.kids[1].page, [EIGHT, NINE]);
    TwinMedian(q.t.kids[1]);
  }

  /** The next insertion of a larger key splits that child, and what it writes into the parent is the number of the
      master page and the two halves; the left child with its three entries is lost. */
  lemma TwinSplitLosesChild(p: nat, left: nat, right: nat, l: Tree, r: Tree)
    ensures var n := Parent(p, left, right, [EIGHT, NINE]);
            && Shape(n, 1) && Overflowing(n.kids[1])
            && SpliceWritten(PageOf(n), 1, l.page, Median(n.kids[1]), r.page).ptrs == [0, l.page, r.page]
  {
    hide Zeros, Used, Shape, Overflowing, SpliceWritten, PageOf;
    var n := Parent(p, left, right, [EIGHT, NINE]);
    ParentShape(p, left, right, [EIGHT, NINE]);
    assert Median(n.kids[1]) == TWIN;
    TwinFacts(1);
    assert n.kvs == TwinRow(1);
    StrayMedian(n, 1, 1, l, TWIN, r);
    assert PtrsOf(n.kids)[..0] + [0] + PtrsOf(n.kids)[0..0] + [l.page, r.page] + PtrsOf(n.kids)[2..] ==
           [0, l.page, r.page];
  }
}
