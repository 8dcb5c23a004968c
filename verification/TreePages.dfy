/** The page of a tree node, and what each edit of a node's page means for the tree. */
module TreePages {
  import opened Bytes
  import opened Entries
  import opened PageCodec
  import opened PageReads
  import opened NodeManager
  import opened Trees
  import opened CowNodes

  function PtrsOf(cs: seq<Tree>): (ps: seq<nat>)
    ensures |ps| == |cs|
  {
    seq(|cs|, i requires 0 <= i < |cs| => cs[i].page)
  }

  function NoPtrs(n: nat): (ps: seq<nat>)
    ensures |ps| == n
  {
    seq(n, _ => 0)
  }

  /** A leaf keeps zero pointers, one more than keys. */
  function PageOf(t: Tree): Page {
    if |t.kids| == 0 then Page(LEAF, t.kvs, NoPtrs(|t.kvs| + 1)) else Page(INTERNAL, t.kvs, PtrsOf(t.kids))
  }

  /** The children's page numbers fit a pointer field. */
  ghost predicate Numbered(cs: seq<Tree>) {
    forall i | 0 <= i < |cs| :: cs[i].page < 0x1_0000_0000
  }

  lemma PageWF(t: Tree, h: nat)
    requires Shape(t, h) && Numbered(t.kids)
    ensures WF(PageOf(t)) && SizeOf(PageOf(t)) == NodeSize(t)
    ensures PageOf(t).typ == if h == 0 then LEAF else INTERNAL
    ensures PageOf(t).kvs == t.kvs && |PageOf(t).ptrs| == |t.kvs| + 1
  {
    hide Used, Small;
  }

  /** On disk a leaf begins with the bytes 0 0, an inner node with 0 1, followed by the key count, the higher byte
      first. */
  lemma TypeBytes(t: Tree, h: nat)
    requires Shape(t, h) && Numbered(t.kids)
    ensures WF(PageOf(t))
    ensures var s := Image(PageOf(t));
            && s[0] == 0 && s[1] == (if h == 0 then 0 else 1)
            && 0x100 * (s[2] as int) + s[3] == |t.kvs|
  {
    hide Used, Small, Image, PageOf;
    PageWF(t, h);
    HeaderBytes(PageOf(t));
  }

  lemma PtrOfKid(t: Tree, h: nat, i: nat)
    requires h > 0 && Shape(t, h) && i <= |t.kvs|
    ensures PageOf(t).ptrs[i] == t.kids[i].page
  {
    hide Used, Small;
  }

  lemma KeysBound(p: Page)
    requires WF(p)
    ensures |p.kvs| <= 682
  {
  }

  lemma InsertedPtrs(p: Page, e: KV)
    requires |p.ptrs| == |p.kvs| + 1
    ensures |Inserted(p, e).kvs| == |p.kvs| + 1 && |Inserted(p, e).ptrs| == |p.ptrs| + 1
  {
  }

  lemma WithPtrPtrs(p: Page, i: nat, x: nat)
    requires i < |p.ptrs|
    ensures |WithPtr(p, i, x).kvs| == |p.kvs| && |WithPtr(p, i, x).ptrs| == |p.ptrs|
  {
  }

  lemma PageIgnoresLabel(t: Tree, p: nat)
    ensures PageOf(t.(page := p)) == PageOf(t)
  {
  }

  // ---- insertion

  lemma HalvesPage(c: Tree, h: nat, lp: nat, rp: nat)
    requires Shape(c, h) && |c.kvs| > 0
    ensures LeftHalf(PageOf(c)) == PageOf(LeftTree(c, lp))
    ensures RightHalf(PageOf(c)) == PageOf(RightTree(c, rp))
  {
    hide Used, Small;
    var m := |c.kvs| / 2;
    if h > 0 {
      assert PtrsOf(c.kids)[..m + 1] == PtrsOf(c.kids[..m + 1]);
      assert PtrsOf(c.kids)[m + 1..] == PtrsOf(c.kids[m + 1..]);
    } else {
      assert NoPtrs(|c.kvs| + 1)[..m + 1] == NoPtrs(m + 1);
      assert NoPtrs(|c.kvs| + 1)[m + 1..] == NoPtrs(|c.kvs| - m);
    }
  }

  /** What splitChild writes into the parent: the median where its key belongs, the halves at the index of the child. */
  function SpliceWritten(p: Page, i: nat, l: nat, m: KV, r: nat): Page
    requires |p.ptrs| == |p.kvs| + 1 && i <= |p.kvs|
  {
    WithPtr(WithPtr(Inserted(p, m), i, l), i + 1, r)
  }

  lemma SplicedPtrs(cs: seq<Tree>, i: nat, l: Tree, r: Tree)
    requires i < |cs|
    ensures PtrsOf(cs[..i] + [l, r] + cs[i + 1..]) ==
            (PtrsOf(cs)[..i] + [0] + PtrsOf(cs)[i..])[i := l.page][i + 1 := r.page]
  {
    var ds, ps := cs[..i] + [l, r] + cs[i + 1..], PtrsOf(cs)[..i] + [0] + PtrsOf(cs)[i..];
    var qs := ps[i := l.page][i + 1 := r.page];
    forall j | 0 <= j < |ds|
      ensures ds[j].page == qs[j]
    {
      if j > i + 1 {
        assert ds[j] == cs[j - 1];
      }
    }
  }

  lemma SplicedPage(n: Tree, h: nat, i: nat, l: Tree, m: KV, r: Tree)
    requires h > 0 && Shape(n, h) && i <= |n.kvs| && LB(n.kvs, m.key) == i
    ensures SpliceWritten(PageOf(n), i, l.page, m, r.page) == PageOf(Spliced(n, i, l, m, r))
  {
    hide Used, Small, LB, PtrsOf;
    SplicedPtrs(n.kids, i, l, r);
  }

  lemma RootPage(l: Tree, m: KV, r: Tree)
    ensures WithPtr(WithPtr(Inserted(EMPTY.(typ := INTERNAL), m), 0, l.page), 1, r.page) ==
            PageOf(Tree(0, [m], [l, r]))
  {
    assert LB([], m.key) == 0;
    assert PtrsOf([l, r]) == [l.page, r.page];
  }

  lemma LeafInserted(n: Tree, e: KV)
    requires |n.kids| == 0
    ensures Inserted(PageOf(n), e) == PageOf(n.(kvs := Ins(n.kvs, e)))
  {
    hide LB;
    var i := LB(n.kvs, e.key);
    assert NoPtrs(|n.kvs| + 1)[..i] + [0] + NoPtrs(|n.kvs| + 1)[i..] == NoPtrs(|n.kvs| + 2);
  }

  lemma KidReplaced(n: Tree, h: nat, i: nat, c: Tree)
    requires h > 0 && Shape(n, h) && i <= |n.kvs|
    ensures WithPtr(PageOf(n), i, c.page) == PageOf(n.(kids := n.kids[i := c]))
  {
    hide Used, Small;
    assert PtrsOf(n.kids)[i := c.page] == PtrsOf(n.kids[i := c]);
  }

  // ---- deletion

  lemma LeafDeleted(n: Tree, k: seq<byte>)
    requires |n.kids| == 0 && Holds(n.kvs, k)
    ensures Deleted(PageOf(n), LB(n.kvs, k)) == PageOf(n.(kvs := Del(n.kvs, k)))
  {
    hide LB;
    var i, m := LB(n.kvs, k), |n.kvs|;
    assert NoPtrs(m + 1)[..i] + NoPtrs(m + 1)[i + 1..] == NoPtrs(m);
  }

  lemma DeletedIs(p: Page, i: nat)
    requires |p.ptrs| == |p.kvs| + 1 && i < |p.kvs|
    ensures Deleted(p, i) == Page(p.typ, p.kvs[..i] + p.kvs[i + 1..], p.ptrs[..i] + p.ptrs[i + 1..])
  {
  }

  /** UpdateKV on a parent drops the left pointer of the entry and puts a zero pointer in its place. */
  lemma UpdatedPage(n: Tree, h: nat, i: nat, m: KV)
    requires h > 0 && Shape(n, h) && i < |n.kvs| && LB(n.kvs[..i] + n.kvs[i + 1..], m.key) == i
    ensures Inserted(Deleted(PageOf(n), i), m) == Page(INTERNAL, n.kvs[i := m], PtrsOf(n.kids)[i := 0])
  {
    hide Used, LB, Shape, PtrsOf, Deleted;
    ShapeKids(n, h);
    DeletedIs(PageOf(n), i);
    var rest, ps := n.kvs[..i] + n.kvs[i + 1..], PtrsOf(n.kids);
    assert rest[..i] == n.kvs[..i] && rest[i..] == n.kvs[i + 1..];
    var qs := ps[..i] + ps[i + 1..];
    assert qs[..i] == ps[..i] && qs[i..] == ps[i + 1..];
    assert ps[..i] + [0] + ps[i + 1..] == ps[i := 0];
    assert rest[..i] + [m] + rest[i..] == n.kvs[i := m];
  }

  lemma UpdateKeepsCount(n: Tree, i: nat, m: KV)
    requires i < |n.kvs| && |n.kids| == |n.kvs| + 1
    ensures var p := Page(INTERNAL, n.kvs[i := m], PtrsOf(n.kids)[i := 0]);
            |p.ptrs| == |n.kvs| + 1 && forall x :: |WithPtr(p, i, x).ptrs| == |n.kvs| + 1
  {
  }

  lemma PairPage(n: Tree, h: nat, i: nat, l: Tree, m: KV, r: Tree)
    requires h > 0 && Shape(n, h) && i < |n.kvs|
    ensures WithPtr(WithPtr(Page(INTERNAL, n.kvs[i := m], PtrsOf(n.kids)[i := 0]), i, l.page), i + 1, r.page) ==
            PageOf(WithPair(n, i, l, m, r))
  {
    hide Used, Small;
    assert n.kvs[..i] + [m] + n.kvs[i + 1..] == n.kvs[i := m];
    assert PtrsOf(n.kids)[i := 0][i := l.page][i + 1 := r.page] == PtrsOf(n.kids[..i] + [l, r] + n.kids[i + 2..]);
  }

  /** After the predecessor went up: the left pointer is set last. */
  lemma PredecessorPage(n: Tree, h: nat, i: nat, m: KV, c: Tree)
    requires h > 0 && Shape(n, h) && i < |n.kvs|
    ensures WithPtr(Page(INTERNAL, n.kvs[i := m], PtrsOf(n.kids)[i := 0]), i, c.page) ==
            PageOf(Tree(n.page, n.kvs[i := m], n.kids[i := c]))
  {
    hide Used, Small;
    assert PtrsOf(n.kids)[i := 0][i := c.page] == PtrsOf(n.kids[i := c]);
  }

  /** After the successor went up: the left pointer is restored, the right one set last. */
  lemma SuccessorPage(n: Tree, h: nat, i: nat, m: KV, c: Tree)
    requires h > 0 && Shape(n, h) && i < |n.kvs|
    ensures WithPtr(WithPtr(Page(INTERNAL, n.kvs[i := m], PtrsOf(n.kids)[i := 0]), i, n.kids[i].page), i + 1, c.page) ==
            PageOf(Tree(n.page, n.kvs[i := m], n.kids[i + 1 := c]))
  {
    hide Used, Small;
    assert PtrsOf(n.kids)[i := 0][i := n.kids[i].page][i + 1 := c.page] == PtrsOf(n.kids[i + 1 := c]);
  }

  lemma MergedPage(n: Tree, h: nat, i: nat, c: Tree)
    requires h > 0 && Shape(n, h) && i < |n.kvs|
    ensures WithPtr(Deleted(PageOf(n), i), i, c.page) == PageOf(WithMerged(n, i, c))
  {
    hide Used, Shape, Deleted;
    ShapeKids(n, h);
    DeletedIs(PageOf(n), i);
    assert (PtrsOf(n.kids)[..i] + PtrsOf(n.kids)[i + 1..])[i := c.page] == PtrsOf(n.kids[..i] + [c] + n.kids[i + 2..]);
  }

  /** The last entry deleted, and the pointer lost with it put back. */
  lemma DropLastSteps(p: Page)
    requires |p.ptrs| == |p.kvs| + 1 && |p.kvs| >= 1
    ensures var k := |p.kvs| - 1;
            && |Deleted(p, k).kvs| == k && |Deleted(p, k).ptrs| == k + 1
            && WithPtr(Deleted(p, k), k, p.ptrs[k]) == Page(p.typ, p.kvs[..k], p.ptrs[..k + 1])
  {
    var k := |p.kvs| - 1;
    DeletedIs(p, k);
    assert p.kvs[..k] + p.kvs[k + 1..] == p.kvs[..k];
    assert (p.ptrs[..k] + p.ptrs[k + 1..])[k := p.ptrs[k]] == p.ptrs[..k + 1];
  }

  /** The left sibling of a right rotation: what is left is the page of the node without its last entry and child. */
  lemma DropLastPage(t: Tree, h: nat, p: nat)
    requires Shape(t, h) && |t.kvs| >= 1
    ensures var q, k := PageOf(t), |t.kvs| - 1;
            Page(q.typ, q.kvs[..k], q.ptrs[..k + 1]) == PageOf(DropLast(t, p))
  {
    hide Used, Small, Area;
    var k := |t.kvs| - 1;
    if h > 0 {
      assert PtrsOf(t.kids)[..k + 1] == PtrsOf(t.kids[..k + 1]);
    } else {
      assert NoPtrs(k + 2)[..k + 1] == NoPtrs(k + 1);
    }
  }

  lemma DropFirstPage(t: Tree, h: nat, p: nat)
    requires Shape(t, h) && |t.kvs| >= 1
    ensures Deleted(PageOf(t), 0) == PageOf(DropFirst(t, p))
  {
    hide Used, Small, Area;
    assert t.kvs[..0] + t.kvs[1..] == t.kvs[1..];
    if h > 0 {
      assert PtrsOf(t.kids)[..0] + PtrsOf(t.kids)[1..] == PtrsOf(t.kids[1..]);
    } else {
      var ps := NoPtrs(|t.kvs| + 1);
      assert ps[..0] + ps[1..] == NoPtrs(|t.kvs|);
    }
  }

  lemma InsertedFirst(p: Page, e: KV)
    requires |p.ptrs| == |p.kvs| + 1 && LB(p.kvs, e.key) == 0
    ensures Inserted(p, e) == Page(p.typ, [e] + p.kvs, [0] + p.ptrs)
  {
    hide LB;
    assert p.kvs[..0] == [] && p.kvs[0..] == p.kvs && p.ptrs[..0] == [] && p.ptrs[0..] == p.ptrs;
    assert [] + [e] + p.kvs == [e] + p.kvs && [] + [0] + p.ptrs == [0] + p.ptrs;
  }

  /** The child of a right rotation. */
  lemma PrependedPage(l: Tree, s: KV, c: Tree, h: nat, p: nat)
    requires Shape(l, h) && Shape(c, h) && LB(c.kvs, s.key) == 0
    ensures var q := Inserted(PageOf(c), s);
            (if h == 0 then q else WithPtr(q, 0, PageOf(l).ptrs[|l.kvs|])) == PageOf(Prepended(l, s, c, p))
  {
    hide Used, Small, LB, Inserted, Shape, PtrsOf;
    ShapeKids(l, h);
    ShapeKids(c, h);
    InsertedFirst(PageOf(c), s);
    if h > 0 {
      FrontPtr(l.kids[|l.kvs|], c.kids);
      PtrOfLast(l.kids);
    } else {
      assert [0] + NoPtrs(|c.kvs| + 1) == NoPtrs(|c.kvs| + 2);
    }
  }

  lemma ShapeKids(t: Tree, h: nat)
    requires Shape(t, h)
    ensures if h == 0 then t.kids == [] else |t.kids| == |t.kvs| + 1
  {
  }

  lemma FrontPtr(g: Tree, cs: seq<Tree>)
    ensures ([0] + PtrsOf(cs))[0 := g.page] == PtrsOf([g] + cs)
  {
  }

  lemma PtrOfLast(cs: seq<Tree>)
    requires |cs| > 0
    ensures PtrsOf(cs)[|cs| - 1] == cs[|cs| - 1].page
  {
  }

  /** An entry added at the end, with the last pointer moved back in front of the new one. */
  function AtEnd(p: Page, e: KV): (q: Page)
    requires |p.ptrs| == |p.kvs| + 1
    ensures |q.ptrs| == |q.kvs| + 1 == |p.kvs| + 2
  {
    Page(p.typ, p.kvs + [e], p.ptrs + [p.ptrs[|p.kvs|]])
  }

  lemma AtEndSteps(p: Page, e: KV)
    requires |p.ptrs| == |p.kvs| + 1 && LB(p.kvs, e.key) == |p.kvs|
    ensures WithPtr(Inserted(p, e), |p.kvs|, p.ptrs[|p.kvs|]) == AtEnd(p, e)
  {
    hide LB;
    var k := |p.kvs|;
    assert p.kvs[..k] + [e] + p.kvs[k..] == p.kvs + [e];
    assert (p.ptrs[..k] + [0] + p.ptrs[k..])[k := p.ptrs[k]] == p.ptrs + [p.ptrs[k]];
  }

  /** The child of a left rotation. */
  lemma AppendedPage(c: Tree, s: KV, r: Tree, h: nat, p: nat)
    requires Shape(c, h) && Shape(r, h)
    ensures var q := AtEnd(PageOf(c), s);
            (if h == 0 then q else WithPtr(q, |c.kvs| + 1, PageOf(r).ptrs[0])) == PageOf(Appended(c, s, r, p))
  {
    hide Used, Small;
    var k := |c.kvs|;
    if h > 0 {
      var ps := PtrsOf(c.kids);
      assert (ps + [ps[k]])[k + 1 := r.kids[0].page] == PtrsOf(c.kids + [r.kids[0]]);
    } else {
      assert NoPtrs(k + 1) + [NoPtrs(k + 1)[k]] == NoPtrs(k + 2);
    }
  }

  // ---- merging two nodes

  /** A merge after the separator and the first j entries of the right node have been appended: the pointer that
      was last on the left is still last. */
  function Merging(l: Page, e: KV, r: Page, j: nat): (q: Page)
    requires |l.ptrs| == |l.kvs| + 1 && j <= |r.kvs|
    ensures |q.kvs| == |l.kvs| + 1 + j && |q.ptrs| == |q.kvs| + 1
  {
    Page(l.typ, l.kvs + [e] + r.kvs[..j], l.ptrs + NoPtrs(j) + [l.ptrs[|l.kvs|]])
  }

  function MergedOf(l: Page, e: KV, r: Page): Page
    requires |l.ptrs| == |l.kvs| + 1
  {
    if r.typ == INTERNAL then Page(l.typ, l.kvs + [e] + r.kvs, l.ptrs + r.ptrs) else Merging(l, e, r, |r.kvs|)
  }

  lemma MergingStarts(l: Page, e: KV, r: Page)
    requires |l.ptrs| == |l.kvs| + 1
    ensures AtEnd(l, e) == Merging(l, e, r, 0)
  {
    assert l.kvs + [e] + r.kvs[..0] == l.kvs + [e] && l.ptrs + NoPtrs(0) == l.ptrs;
  }

  lemma MergingStep(l: Page, e: KV, r: Page, j: nat)
    requires |l.ptrs| == |l.kvs| + 1 && j < |r.kvs| && Sorted(l.kvs + [e] + r.kvs)
    ensures Inserted(Merging(l, e, r, j), r.kvs[j]) == Merging(l, e, r, j + 1)
  {
    hide LB, Less, Inserted;
    var all, q := l.kvs + [e] + r.kvs, Merging(l, e, r, j);
    var m := |q.kvs|;
    assert q.kvs == all[0..m] && r.kvs[j] == all[m];
    SortedSlice(all, 0, m);
    assert q.kvs[m - 1] == all[m - 1];
    InsertedLast(q, r.kvs[j]);
    assert l.kvs + [e] + r.kvs[..j] + [r.kvs[j]] == l.kvs + [e] + r.kvs[..j + 1];
    assert NoPtrs(j) + [0] == NoPtrs(j + 1);
    assert q.ptrs[..m] == l.ptrs + NoPtrs(j) && q.ptrs[m] == l.ptrs[|l.kvs|];
    assert l.ptrs + NoPtrs(j) + [0, l.ptrs[|l.kvs|]] == l.ptrs + NoPtrs(j + 1) + [l.ptrs[|l.kvs|]];
  }

  lemma MergingFits(l: Page, e: KV, r: Page, j: nat)
    requires |l.ptrs| == |l.kvs| + 1 && j < |r.kvs| && Used(l.kvs + [e] + r.kvs) < PAGE_SIZE && WF(Merging(l, e, r, j))
    ensures Fits(Merging(l, e, r, j), r.kvs[j])
  {
    hide Area;
    var all, m := l.kvs + [e] + r.kvs, |l.kvs| + 1 + j;
    assert all[..m] == l.kvs + [e] + r.kvs[..j] && all[m] == r.kvs[j];
    UsedAt(all, m);
    UsedSplit(all, m);
    UsedSplit(all[..m] + all[m + 1..], m);
    assert (all[..m] + all[m + 1..])[..m] == all[..m];
  }

  /** Splitting a node and merging the halves around the median gives the node back. */
  lemma MergeUndoesSplit(p: Page)
    requires |p.ptrs| == |p.kvs| + 1 && |p.kvs| > 0
    requires p.typ == INTERNAL || p.ptrs == NoPtrs(|p.ptrs|)
    ensures MergedOf(LeftHalf(p), p.kvs[|p.kvs| / 2], RightHalf(p)) == p
  {
    var m := |p.kvs| / 2;
    assert p.kvs == p.kvs[..m] + [p.kvs[m]] + p.kvs[m + 1..];
    assert p.ptrs == p.ptrs[..m + 1] + p.ptrs[m + 1..];
    if p.typ != INTERNAL {
      assert NoPtrs(|p.ptrs|)[..m + 1] == NoPtrs(m + 1);
      var k := |p.kvs| - m - 1;
      assert RightHalf(p).kvs[..k] == RightHalf(p).kvs;
      assert NoPtrs(m + 1) + NoPtrs(k) + [0] == NoPtrs(|p.ptrs|);
    }
  }

  /** The same for a node with its subtrees. */
  lemma JoinUndoesSplit(c: Tree, h: nat, lp: nat, rp: nat)
    requires Shape(c, h) && |c.kvs| > 0
    ensures Joined(LeftTree(c, lp), Median(c), RightTree(c, rp), c.page) == c
  {
    hide Used, Small;
    var m := |c.kvs| / 2;
    assert c.kvs == c.kvs[..m] + [c.kvs[m]] + c.kvs[m + 1..];
    if h > 0 {
      assert c.kids == c.kids[..m + 1] + c.kids[m + 1..];
    }
  }

  lemma JoinedPage(l: Tree, e: KV, r: Tree, h: nat, p: nat)
    requires Shape(l, h) && Shape(r, h)
    ensures MergedOf(PageOf(l), e, PageOf(r)) == PageOf(Joined(l, e, r, p))
  {
    hide Used, Small;
    if h > 0 {
      assert PtrsOf(l.kids + r.kids) == PtrsOf(l.kids) + PtrsOf(r.kids);
    } else {
      var j, k := |l.kvs|, |r.kvs|;
      assert r.kvs[..k] == r.kvs && l.kids + r.kids == [];
      assert NoPtrs(j + 1) + NoPtrs(k) + [0] == NoPtrs(j + k + 2);
    }
  }

  // ---- where an entry lands

  /** An entry goes back to the place it was left out of. */
  lemma Gap(x: seq<KV>, b: KV, y: seq<KV>)
    requires Sorted(x + [b] + y)
    ensures LB(x + y, b.key) == |x|
  {
    var s := x + [b] + y;
    SortedGap(x, b, y);
    if |x| > 0 {
      assert s[|x| - 1] == x[|x| - 1] && s[|x|] == b;
    }
    if |y| > 0 {
      assert s[|x| + 1] == y[0] && s[|x|] == b;
      LessTotal(b.key, y[0].key);
    }
    SplitAtLB(x + y, b.key, |x|);
  }

  lemma RestPlace(s: seq<KV>, i: nat, j: nat, k: seq<byte>)
    requires Sorted(s) && i < |s| && i <= j <= i + 1
    requires j > 0 ==> Less(s[j - 1].key, k)
    requires j < |s| ==> Less(k, s[j].key)
    ensures LB(s[..i] + s[i + 1..], k) == i
  {
    var rest := s[..i] + s[i + 1..];
    assert s == s[..i] + [s[i]] + s[i + 1..];
    SortedGap(s[..i], s[i], s[i + 1..]);
    if i > 0 && j == i + 1 {
      LessTransitive(s[i - 1].key, s[i].key, k);
    }
    if i + 1 < |s| {
      if j == i {
        LessTransitive(k, s[i].key, s[i + 1].key);
      }
      LessTotal(k, s[i + 1].key);
    }
    SplitAtLB(rest, k, i);
  }

  lemma Amid(p: seq<KV>, u: seq<KV>, x: KV, w: seq<KV>, q: seq<KV>)
    requires Sorted(p + (u + [x] + w) + q)
    ensures |p| > 0 ==> Less(p[|p| - 1].key, x.key)
    ensures |q| > 0 ==> Less(x.key, q[0].key)
  {
    var s := p + (u + [x] + w) + q;
    var i := |p| + |u|;
    assert s[i] == x;
    if |p| > 0 {
      assert s[|p| - 1] == p[|p| - 1];
    }
    if |q| > 0 {
      assert s[i + 1 + |w|] == q[0];
    }
  }

  /** An entry of child i or i+1 takes the place of separator i. */
  lemma SeparatorPlace(n: Tree, i: nat, j: nat, u: seq<KV>, x: KV, w: seq<KV>)
    requires |n.kids| == |n.kvs| + 1 && i < |n.kvs| && i <= j <= i + 1 && Sorted(Flat(n))
    requires Flat(n.kids[j]) == u + [x] + w
    ensures LB(n.kvs[..i] + n.kvs[i + 1..], x.key) == i
  {
    hide Flat, Pre, Post, Less, Sorted, LB;
    FocusAt(n, j);
    PreLast(n.kvs[..j], n.kids[..j]);
    PostFirst(n.kvs[j..], n.kids[j + 1..]);
    KeysSorted(n);
    Amid(Pre(n.kvs[..j], n.kids[..j]), u, x, w, Post(n.kvs[j..], n.kids[j + 1..]));
    RestPlace(n.kvs, i, j, x.key);
  }
}
