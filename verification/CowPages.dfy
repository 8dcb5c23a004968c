/** Page accounting: every page taken, freed or kept by an operation is counted exactly once. */
module CowPages {
  import opened Bytes
  import opened Entries
  import opened PageCodec
  import opened NodeManager
  import opened Trees
  import opened CowNodes
  import opened CowTree

  /** Each number from lo up to hi, once. */
  function Span(lo: nat, hi: nat): (m: multiset<nat>)
    ensures forall p :: m[p] == if lo <= p < hi then 1 else 0
    decreases hi - lo
  {
    if lo < hi then multiset{lo} + Span(lo + 1, hi) else multiset{}
  }

  /** Pages below the horizon N that the allocator holds: free, pending, or never used. */
  function Held(a: Alloc, N: nat): multiset<nat> {
    multiset(a.fl) + multiset(a.pend) + Span(a.cur, N)
  }

  /** Pages below the horizon that were handed out or still can be. */
  function Stock(a: Alloc, N: nat): multiset<nat> {
    multiset(a.got) + multiset(a.fl) + Span(a.cur, N)
  }

  lemma SpanHead(lo: nat, hi: nat)
    requires lo < hi
    ensures Span(lo, hi) == multiset{lo} + Span(lo + 1, hi)
  {
  }

  lemma SeqHead(s: seq<nat>)
    requires |s| > 0
    ensures multiset(s) == multiset{s[0]} + multiset(s[1..])
  {
    assert s == [s[0]] + s[1..];
  }

  lemma SeqPlus(s: seq<nat>, t: seq<nat>)
    ensures multiset(s + t) == multiset(s) + multiset(t)
  {
  }

  lemma SeqOf(p: nat, q: nat)
    ensures multiset([p]) == multiset{p} && multiset([p, q]) == multiset{p} + multiset{q}
  {
  }

  // The equations are stated for one page x at a time: how often it occurs on either side.

  /** A page handed out leaves the allocator and enters the log. */
  lemma TakeAccount(a: Alloc, N: nat, x: nat)
    requires Take(a).cur <= N
    ensures multiset{Next(a)}[x] + Held(Take(a), N)[x] == Held(a, N)[x]
    ensures Stock(Take(a), N)[x] == Stock(a, N)[x]
  {
    hide Span;
    SeqPlus(a.got, [Next(a)]);
    if |a.fl| > 0 {
      SeqHead(a.fl);
    } else {
      SpanHead(a.cur, N);
    }
  }

  lemma FreeAccount(a: Alloc, ps: seq<nat>, N: nat, x: nat)
    ensures Held(Free(a, ps), N)[x] == Held(a, N)[x] + multiset(ps)[x]
    ensures Stock(Free(a, ps), N)[x] == Stock(a, N)[x]
  {
    hide Span;
    SeqPlus(a.pend, ps);
  }

  lemma TakeTwoAccount(a: Alloc, N: nat, x: nat)
    requires Take(Take(a)).cur <= N
    ensures multiset{Next(a)}[x] + multiset{Next(Take(a))}[x] + Held(Take(Take(a)), N)[x] == Held(a, N)[x]
    ensures Stock(Take(Take(a)), N)[x] == Stock(a, N)[x]
  {
    hide Held, Stock, Span;
    CurGrows(a);
    TakeAccount(a, N, x);
    TakeAccount(Take(a), N, x);
  }

  lemma CurGrows(a: Alloc)
    ensures a.cur <= Take(a).cur <= Take(Take(a)).cur
  {
  }

  // ---- regrouping children

  lemma PagesOf(t: Tree, x: nat)
    ensures Pages(t)[x] == multiset{t.page}[x] + KidPages(t.kids)[x]
  {
  }

  lemma KidsJoin(cs: seq<Tree>, a: seq<Tree>, b: seq<Tree>, x: nat)
    requires cs == a + b
    ensures KidPages(cs)[x] == KidPages(a)[x] + KidPages(b)[x]
  {
    hide KidPages;
    KidPagesAppend(a, b);
  }

  lemma KidPagesNone(x: nat)
    ensures KidPages([])[x] == 0
  {
  }

  lemma HalvesPages(c: Tree, h: nat, lp: nat, rp: nat, x: nat)
    requires Shape(c, h) && |c.kvs| > 0
    ensures Pages(LeftTree(c, lp))[x] + Pages(RightTree(c, rp))[x] ==
            multiset{lp}[x] + multiset{rp}[x] + KidPages(c.kids)[x]
  {
    hide Used, Small, KidPages, Pages;
    KidPagesNone(x);
    PagesOf(LeftTree(c, lp), x);
    PagesOf(RightTree(c, rp), x);
    if h > 0 {
      var m := |c.kvs| / 2;
      KidsJoin(c.kids, c.kids[..m + 1], c.kids[m + 1..], x);
    }
  }

  lemma SplicedPages(n: Tree, i: nat, l: Tree, m: KV, r: Tree, x: nat)
    requires |n.kids| == |n.kvs| + 1 && i <= |n.kvs|
    ensures KidPages(Spliced(n, i, l, m, r).kids)[x] + Pages(n.kids[i])[x] ==
            KidPages(n.kids)[x] + Pages(l)[x] + Pages(r)[x]
  {
    hide Pages, KidPages;
    KidPagesAt(n.kids, i);
    KidPagesAround2(n.kids[..i], l, r, n.kids[i + 1..]);
  }

  lemma ReplacedPages(cs: seq<Tree>, i: nat, c: Tree, x: nat)
    requires i < |cs|
    ensures KidPages(cs[i := c])[x] + Pages(cs[i])[x] == KidPages(cs)[x] + Pages(c)[x]
  {
    hide Pages, KidPages;
    KidPagesAt(cs, i);
    KidPagesAt(cs[i := c], i);
    assert cs[i := c][..i] == cs[..i] && cs[i := c][i + 1..] == cs[i + 1..];
  }

  lemma PairPages(n: Tree, i: nat, l: Tree, m: KV, r: Tree, x: nat)
    requires |n.kids| == |n.kvs| + 1 && i < |n.kvs|
    ensures KidPages(WithPair(n, i, l, m, r).kids)[x] + Pages(n.kids[i])[x] + Pages(n.kids[i + 1])[x] ==
            KidPages(n.kids)[x] + Pages(l)[x] + Pages(r)[x]
  {
    hide Pages, KidPages;
    KidPagesAt2(n.kids, i);
    KidPagesAround2(n.kids[..i], l, r, n.kids[i + 2..]);
  }

  lemma MergedPages(n: Tree, i: nat, c: Tree, x: nat)
    requires |n.kids| == |n.kvs| + 1 && i < |n.kvs|
    ensures KidPages(WithMerged(n, i, c).kids)[x] + Pages(n.kids[i])[x] + Pages(n.kids[i + 1])[x] ==
            KidPages(n.kids)[x] + Pages(c)[x]
  {
    hide Pages, KidPages;
    KidPagesAt2(n.kids, i);
    KidPagesAround(n.kids[..i], c, n.kids[i + 2..]);
  }

  lemma MovedKid(a: seq<Tree>, g: Tree, b: seq<Tree>, x: nat)
    ensures KidPages(a)[x] + KidPages([g] + b)[x] == KidPages(a + [g])[x] + KidPages(b)[x]
  {
    hide KidPages;
    KidPagesAppend(a, [g]);
    KidPagesAppend([g], b);
  }

  lemma RotatedKids(l: Tree, s: KV, c: Tree, lp: nat, cp: nat)
    requires |l.kids| == |l.kvs| + 1 && |l.kvs| >= 1
    ensures var g := l.kids[|l.kvs|];
            && l.kids == DropLast(l, lp).kids + [g]
            && Prepended(l, s, c, cp).kids == [g] + c.kids
  {
  }

  lemma RotatedRightPages(l: Tree, s: KV, c: Tree, h: nat, lp: nat, cp: nat, x: nat)
    requires Shape(l, h) && Shape(c, h) && |l.kvs| >= 1
    ensures Pages(DropLast(l, lp))[x] + Pages(Prepended(l, s, c, cp))[x] ==
            multiset{lp}[x] + multiset{cp}[x] + KidPages(l.kids)[x] + KidPages(c.kids)[x]
  {
    hide Used, Small, KidPages, Pages;
    PagesOf(DropLast(l, lp), x);
    PagesOf(Prepended(l, s, c, cp), x);
    if h > 0 {
      hide DropLast, Prepended;
      RotatedKids(l, s, c, lp, cp);
      MovedKid(DropLast(l, lp).kids, l.kids[|l.kvs|], c.kids, x);
    } else {
      KidPagesNone(x);
    }
  }

  lemma RotatedLeftPages(c: Tree, s: KV, r: Tree, h: nat, cp: nat, rp: nat, x: nat)
    requires Shape(r, h) && Shape(c, h) && |r.kvs| >= 1
    ensures Pages(Appended(c, s, r, cp))[x] + Pages(DropFirst(r, rp))[x] ==
            multiset{cp}[x] + multiset{rp}[x] + KidPages(c.kids)[x] + KidPages(r.kids)[x]
  {
    hide Used, Small, KidPages, Pages;
    PagesOf(Appended(c, s, r, cp), x);
    PagesOf(DropFirst(r, rp), x);
    KidPagesNone(x);
    if h > 0 {
      KidsJoin(r.kids, [r.kids[0]], r.kids[1..], x);
      KidsJoin(c.kids + [r.kids[0]], c.kids, [r.kids[0]], x);
    }
  }

  lemma JoinedPages(l: Tree, s: KV, r: Tree, p: nat, x: nat)
    ensures Pages(Joined(l, s, r, p))[x] == multiset{p}[x] + KidPages(l.kids)[x] + KidPages(r.kids)[x]
  {
    hide KidPages, Pages;
    PagesOf(Joined(l, s, r, p), x);
    KidsJoin(l.kids + r.kids, l.kids, r.kids, x);
  }

  // ---- each step of an operation balances

  /** The children of a node in memory and the allocator account for the same pages before and after a step. */
  ghost predicate StepBalanced(n: Tree, a: Alloc, r: Res, N: nat, x: nat) {
    && a.cur <= r.a.cur
    && (r.a.cur <= N ==> Stock(r.a, N)[x] == Stock(a, N)[x])
    && (r.a.cur <= N && r.st == Ok ==>
          KidPages(r.t.kids)[x] + Held(r.a, N)[x] == KidPages(n.kids)[x] + Held(a, N)[x])
  }

  lemma SplitChildBalanced(a: Alloc, n: Tree, i: nat, h: nat, N: nat, x: nat)
    requires h > 0 && Shape(n, h) && i <= |n.kvs|
    ensures StepBalanced(n, a, SplitChild(a, n, i, h), N, x)
  {
    hide Used, Small, Pages, KidPages, Held, Stock, LeftTree, RightTree;
    var c := n.kids[i];
    if Overflowing(c) {
      OverflowHasThree(c.kvs);
      var a1 := Free(a, [c.page]);
      var r, l := RightTree(c, Next(a1)), LeftTree(c, Next(Take(a1)));
      CurGrows(a1);
      FreeAccount(a, [c.page], N, x);
      SeqOf(c.page, 0);
      if Take(Take(a1)).cur <= N {
        TakeTwoAccount(a1, N, x);
        assert Shape(c, h - 1);
        HalvesPages(c, h - 1, Next(Take(a1)), Next(a1), x);
        PagesOf(c, x);
        SplicedPages(n, i, l, Median(c), r, x);
      }
    }
  }

  lemma SplitRootBalanced(a: Alloc, t: Tree, h: nat, N: nat, x: nat)
    requires Shape(t, h) && |t.kvs| >= 3
    ensures StepBalanced(t, a, SplitRoot(a, t, h), N, x)
  {
    hide Used, Small, Pages, KidPages, Held, Stock, LeftTree, RightTree;
    CurGrows(a);
    if Take(Take(a)).cur <= N {
      TakeTwoAccount(a, N, x);
      var r, l := RightTree(t, Next(a)), LeftTree(t, Next(Take(a)));
      HalvesPages(t, h, Next(Take(a)), Next(a), x);
      KidPagesAround2([], l, r, []);
      KidPagesNone(x);
      assert [] + [l, r] + [] == [l, r];
    }
  }

  lemma RotateRightBalanced(a: Alloc, n: Tree, i: nat, h: nat, N: nat, x: nat)
    requires h > 0 && Shape(n, h) && i < |n.kvs|
    requires |n.kids[i].kvs| >= 2 && |n.kids[i + 1].kvs| == 1
    ensures StepBalanced(n, a, RotateRight(Free(a, [n.kids[i].page, n.kids[i + 1].page]), n, i, h), N, x)
  {
    hide Used, Small, Pages, KidPages, Held, Stock, DropLast, Prepended;
    var left, child, s := n.kids[i], n.kids[i + 1], n.kvs[i];
    var a1 := Free(a, [left.page, child.page]);
    var r := RotateRight(a1, n, i, h);
    CurGrows(a1);
    FreeAccount(a, [left.page, child.page], N, x);
    if r.a.cur <= N && r.st == Ok {
      TakeTwoAccount(a1, N, x);
      SeqOf(left.page, child.page);
      var l, c := DropLast(left, Next(a1)), Prepended(left, s, child, Next(Take(a1)));
      assert Shape(left, h - 1) && Shape(child, h - 1);
      RotatedRightPages(left, s, child, h - 1, Next(a1), Next(Take(a1)), x);
      PagesOf(left, x);
      PagesOf(child, x);
      PairPages(n, i, l, left.kvs[|left.kvs| - 1], c, x);
    }
  }

  lemma RotateLeftBalanced(a: Alloc, n: Tree, i: nat, h: nat, N: nat, x: nat)
    requires h > 0 && Shape(n, h) && i < |n.kvs|
    requires |n.kids[i].kvs| == 1 && |n.kids[i + 1].kvs| >= 2
    ensures StepBalanced(n, a, RotateLeft(Free(a, [n.kids[i].page, n.kids[i + 1].page]), n, i, h), N, x)
  {
    hide Used, Small, Pages, KidPages, Held, Stock, DropFirst, Appended;
    var child, right, s := n.kids[i], n.kids[i + 1], n.kvs[i];
    var a1 := Free(a, [child.page, right.page]);
    var r := RotateLeft(a1, n, i, h);
    CurGrows(a1);
    FreeAccount(a, [child.page, right.page], N, x);
    if r.a.cur <= N && r.st == Ok {
      TakeTwoAccount(a1, N, x);
      SeqOf(child.page, right.page);
      var c, q := Appended(child, s, right, Next(a1)), DropFirst(right, Next(Take(a1)));
      assert Shape(right, h - 1) && Shape(child, h - 1);
      RotatedLeftPages(child, s, right, h - 1, Next(a1), Next(Take(a1)), x);
      PagesOf(right, x);
      PagesOf(child, x);
      PairPages(n, i, c, right.kvs[0], q, x);
    }
  }

  lemma MergeBalanced(a: Alloc, n: Tree, i: nat, h: nat, N: nat, x: nat)
    requires h > 0 && Shape(n, h) && i < |n.kvs|
    requires |n.kids[i].kvs| == 1 && |n.kids[i + 1].kvs| == 1
    ensures StepBalanced(n, a, Merge(Free(a, [n.kids[i].page, n.kids[i + 1].page]), n, i, h), N, x)
  {
    hide Used, Small, Pages, KidPages, Held, Stock, Joined;
    var l, r := n.kids[i], n.kids[i + 1];
    var a1 := Free(a, [l.page, r.page]);
    CurGrows(a1);
    FreeAccount(a, [l.page, r.page], N, x);
    SeqOf(l.page, r.page);
    if Take(a1).cur <= N {
      TakeAccount(a1, N, x);
      JoinedPages(l, n.kvs[i], r, Next(a1), x);
      PagesOf(l, x);
      PagesOf(r, x);
      MergedPages(n, i, Joined(l, n.kvs[i], r, Next(a1)), x);
    }
  }

  lemma FillChildBalanced(a: Alloc, n: Tree, i: nat, h: nat, N: nat, x: nat)
    requires h > 0 && Shape(n, h) && Fillable(n) && i <= |n.kvs|
    ensures StepBalanced(n, a, FillChild(a, n, i, h), N, x)
  {
    hide Used, Small, StepBalanced, RotateLeft, RotateRight, Merge;
    if !Underfull(n.kids[i]) {
      NothingBalanced(n, a, N, x);
    } else if i > 0 && !Underfull(n.kids[i - 1]) {
      RotateRightBalanced(a, n, i - 1, h, N, x);
    } else if i < |n.kvs| && !Underfull(n.kids[i + 1]) {
      RotateLeftBalanced(a, n, i, h, N, x);
    } else if i > 0 {
      MergeBalanced(a, n, i - 1, h, N, x);
    } else {
      MergeBalanced(a, n, i, h, N, x);
    }
  }

  lemma NothingBalanced(n: Tree, a: Alloc, N: nat, x: nat)
    ensures StepBalanced(n, a, Res(Ok, a, n), N, x)
  {
  }

  // ---- a whole descent balances

  /** As StepBalanced, for an operation that also stores the node: r.t is on a page. */
  ghost predicate NodeBalanced(n: Tree, a: Alloc, r: Res, N: nat, x: nat) {
    && a.cur <= r.a.cur
    && (r.a.cur <= N ==> Stock(r.a, N)[x] == Stock(a, N)[x])
    && (r.a.cur <= N && r.st == Ok ==>
          Pages(r.t)[x] + Held(r.a, N)[x] == KidPages(n.kids)[x] + Held(a, N)[x])
  }

  lemma StoreBalanced(a: Alloc, t: Tree, N: nat, x: nat)
    ensures NodeBalanced(t, a, Store(a, t), N, x)
  {
    hide Pages, KidPages, Held, Stock;
    CurGrows(a);
    PagesOf(Store(a, t).t, x);
    if Take(a).cur <= N {
      TakeAccount(a, N, x);
    }
  }

  /** Descend into child i, free its page, put the new child in its place, store the node. */
  lemma DescentBalanced(n: Tree, a: Alloc, i: nat, b: Alloc, s: Res, t: Tree, c: Alloc, N: nat, x: nat)
    requires |n.kids| == |n.kvs| + 1 && i <= |n.kvs|
    requires NodeBalanced(n.kids[i], b, s, N, x) && s.st == Ok
    requires (b == Free(a, [n.kids[i].page]) && c == s.a) || (b == a && c == Free(s.a, [n.kids[i].page]))
    requires t.kids == n.kids[i := s.t]
    ensures NodeBalanced(n, a, Store(c, t), N, x)
  {
    hide Pages, KidPages, Held, Stock;
    var k := n.kids[i];
    StoreBalanced(c, t, N, x);
    FreeAccount(a, [k.page], N, x);
    FreeAccount(s.a, [k.page], N, x);
    SeqOf(k.page, 0);
    PagesOf(k, x);
    ReplacedPages(n.kids, i, s.t, x);
  }

  lemma {:induction false} InsertNodeBalanced(a: Alloc, n: Tree, h: nat, e: KV, N: nat, x: nat)
    requires Shape(n, h) && (h > 0 ==> |n.kvs| >= 1) && Footprint(e) <= MAX_KV_LEN + 10
    ensures NodeBalanced(n, a, InsertNode(a, n, h, e), N, x)
    decreases h
  {
    hide Used, Small, Pages, KidPages, Held, Stock, LB, Ins, SplitChild;
    if |n.kids| == 0 {
      StoreBalanced(a, n.(kvs := Ins(n.kvs, e)), N, x);
    } else {
      var r := SplitChild(a, n, LB(n.kvs, e.key), h);
      SplitChildBalanced(a, n, LB(n.kvs, e.key), h, N, x);
      if r.st == Ok {
        var i := LB(r.t.kvs, e.key);
        var c := r.t.kids[i];
        var b := Free(r.a, [c.page]);
        InsertNodeBalanced(b, c, h - 1, e, N, x);
        FreeAccount(r.a, [c.page], N, x);
        var s := InsertNode(b, c, h - 1, e);
        if s.st == Ok {
          DescentBalanced(r.t, r.a, i, b, s, r.t.(kids := r.t.kids[i := s.t]), s.a, N, x);
        }
      }
    }
  }

  lemma {:induction false} DeleteNodeBalanced(a: Alloc, n: Tree, h: nat, k: seq<byte>, N: nat, x: nat)
    requires Shape(n, h) && Fillable(n)
    ensures NodeBalanced(n, a, DeleteNode(a, n, h, k), N, x)
    decreases h, |n.kvs|, 2
  {
    hide Used, Small, Pages, KidPages, Held, Stock, LB, FillChild;
    if |n.kids| == 0 {
      if Holds(n.kvs, k) {
        StoreBalanced(a, n.(kvs := Del(n.kvs, k)), N, x);
      }
    } else if Holds(n.kvs, k) {
      DeleteHereBalanced(a, n, h, k, N, x);
    } else {
      var r := FillChild(a, n, LB(n.kvs, k), h);
      FillChildBalanced(a, n, LB(n.kvs, k), h, N, x);
      if r.st == Ok {
        DeleteBelowBalanced(r.a, r.t, h, k, N, x);
      }
    }
  }

  lemma {:induction false} DeleteBelowBalanced(a: Alloc, n: Tree, h: nat, k: seq<byte>, N: nat, x: nat)
    requires h > 0 && Shape(n, h)
    ensures NodeBalanced(n, a, DeleteBelow(a, n, h, k), N, x)
    decreases h, |n.kvs|, 1
  {
    hide Used, Small, Pages, KidPages, Held, Stock, LB;
    if Holds(n.kvs, k) {
      DeleteHereBalanced(a, n, h, k, N, x);
    } else {
      var i := LB(n.kvs, k);
      DeleteNodeBalanced(a, n.kids[i], h - 1, k, N, x);
      var s := DeleteNode(a, n.kids[i], h - 1, k);
      if s.st == Ok {
        DescentBalanced(n, a, i, a, s, n.(kids := n.kids[i := s.t]), Free(s.a, [n.kids[i].page]), N, x);
      }
    }
  }

  lemma {:induction false} DeleteHereBalanced(a: Alloc, n: Tree, h: nat, k: seq<byte>, N: nat, x: nat)
    requires h > 0 && Shape(n, h) && Holds(n.kvs, k)
    ensures NodeBalanced(n, a, DeleteHere(a, n, h, k), N, x)
    decreases h, |n.kvs|, 0
  {
    hide Used, Small, Pages, KidPages, Held, Stock, LB, Merge, LastKV, FirstKV;
    var i := LB(n.kvs, k);
    var left, right := n.kids[i], n.kids[i + 1];
    if !Underfull(left) {
      var pred := LastKV(left, h - 1);
      BorrowBalanced(a, n, i, i, h, pred, N, x);
    } else if !Underfull(right) {
      var succ := FirstKV(right, h - 1);
      BorrowBalanced(a, n, i, i + 1, h, succ, N, x);
    } else {
      MergeBalanced(a, n, i, h, N, x);
      var m := Merge(Free(a, [left.page, right.page]), n, i, h);
      DeleteNodeBalanced(m.a, m.t, h, k, N, x);
    }
  }

  lemma {:induction false} BorrowBalanced(a: Alloc, n: Tree, i: nat, j: nat, h: nat, e: KV, N: nat, x: nat)
    requires h > 0 && Shape(n, h) && i < |n.kvs| && j <= |n.kvs| && !Underfull(n.kids[j])
    ensures var b := Free(a, [n.kids[j].page]);
            var s := DeleteNode(b, n.kids[j], h - 1, e.key);
            && a.cur <= s.a.cur
            && (s.a.cur <= N ==> Stock(s.a, N)[x] == Stock(a, N)[x])
            && (s.st == Ok ==> NodeBalanced(n, a, Store(s.a, Tree(n.page, n.kvs[i := e], n.kids[j := s.t])), N, x))
    decreases h, 0, 0
  {
    hide Used, Small, Pages, KidPages, Held, Stock, LB, DeleteNode;
    var c := n.kids[j];
    var b := Free(a, [c.page]);
    DeleteNodeBalanced(b, c, h - 1, e.key, N, x);
    FreeAccount(a, [c.page], N, x);
    var s := DeleteNode(b, c, h - 1, e.key);
    if s.st == Ok {
      DescentBalanced(n, a, j, b, s, Tree(n.page, n.kvs[i := e], n.kids[j := s.t]), s.a, N, x);
    }
  }
}
