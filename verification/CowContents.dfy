/** Contents and shape: what insertion and deletion do to the in-order sequence of a tree. */
module CowContents {
  import opened Bytes
  import opened Entries
  import opened PageCodec
  import opened NodeManager
  import opened Trees
  import opened CowNodes
  import opened CowTree

  // ---- regrouping a tree keeps its contents

  lemma HalvesFlat(c: Tree, h: nat, lp: nat, rp: nat)
    requires Shape(c, h) && |c.kvs| > 0
    ensures Flat(c) == Flat(LeftTree(c, lp)) + [Median(c)] + Flat(RightTree(c, rp))
  {
    hide Used, Weave;
    var m := |c.kvs| / 2;
    assert c.kvs == c.kvs[..m] + [c.kvs[m]] + c.kvs[m + 1..];
    if h > 0 {
      assert c.kids == c.kids[..m + 1] + c.kids[m + 1..];
      WeaveSplit(c.kvs[..m], c.kids[..m + 1], c.kvs[m], c.kvs[m + 1..], c.kids[m + 1..]);
    }
  }

  lemma SplicedFlat(n: Tree, i: nat, l: Tree, m: KV, r: Tree)
    requires |n.kids| == |n.kvs| + 1 && i <= |n.kvs|
    requires Flat(n.kids[i]) == Flat(l) + [m] + Flat(r)
    ensures Flat(Spliced(n, i, l, m, r)) == Flat(n)
  {
    hide Weave, Pre, Post;
    FocusAt(n, i);
    Focus2(n.kvs[..i], n.kids[..i], l, m, r, n.kvs[i..], n.kids[i + 1..]);
    Regroup5(Pre(n.kvs[..i], n.kids[..i]), Flat(l), [m], Flat(r), Post(n.kvs[i..], n.kids[i + 1..]));
  }

  lemma Regroup5(a: seq<KV>, b: seq<KV>, c: seq<KV>, d: seq<KV>, e: seq<KV>)
    ensures a + (b + c + d) + e == a + b + c + d + e
  {
  }

  lemma SplitChildFlat(a: Alloc, n: Tree, i: nat, h: nat)
    requires h > 0 && Shape(n, h) && i <= |n.kvs|
    ensures var r := SplitChild(a, n, i, h); r.st == Ok ==> Flat(r.t) == Flat(n)
  {
    hide Flat, Used;
    var c := n.kids[i];
    if Overflowing(c) {
      OverflowHasThree(c.kvs);
      HalvesFlat(c, h - 1, Next(Take(a)), Next(a));
      SplicedFlat(n, i, LeftTree(c, Next(Take(a))), Median(c), RightTree(c, Next(a)));
    }
  }

  lemma SplitRootFlat(a: Alloc, t: Tree, h: nat)
    requires Shape(t, h) && |t.kvs| >= 3
    ensures Flat(SplitRoot(a, t, h).t) == Flat(t)
  {
    hide Used;
    var r, l := RightTree(t, Next(a)), LeftTree(t, Next(Take(a)));
    HalvesFlat(t, h, l.page, r.page);
    assert [Median(t)] == [] + [Median(t)] + [] && [l, r] == [l] + [r];
    WeaveSplit([], [l], Median(t), [], [r]);
  }

  /** Where the search for k goes in a node, and that everything beside that child is on its side of k. */
  lemma Bracket(n: Tree, k: seq<byte>)
    requires |n.kids| == |n.kvs| + 1 && Sorted(Flat(n))
    ensures var i := LB(n.kvs, k);
            var p, c, q := Pre(n.kvs[..i], n.kids[..i]), Flat(n.kids[i]), Post(n.kvs[i..], n.kids[i + 1..]);
            && Flat(n) == p + c + q && Sorted(p + c + q) && Sorted(c)
            && (|p| > 0 ==> Less(p[|p| - 1].key, k))
            && (|q| > 0 ==> i < |n.kvs| && !Less(q[0].key, k) && q[0] == n.kvs[i])
            && (|q| == 0 ==> i == |n.kvs|)
  {
    hide Flat, Pre, Post, Sorted, Less;
    var i := LB(n.kvs, k);
    FocusAt(n, i);
    PreLast(n.kvs[..i], n.kids[..i]);
    PostFirst(n.kvs[i..], n.kids[i + 1..]);
    SortedParts(Pre(n.kvs[..i], n.kids[..i]), Flat(n.kids[i]), Post(n.kvs[i..], n.kids[i + 1..]));
  }

  lemma ReplacedKid(n: Tree, i: nat, c: Tree)
    requires |n.kids| == |n.kvs| + 1 && i <= |n.kvs|
    ensures Flat(n.(kids := n.kids[i := c])) ==
            Pre(n.kvs[..i], n.kids[..i]) + Flat(c) + Post(n.kvs[i..], n.kids[i + 1..])
  {
    hide Flat, Pre, Post;
    var t := n.(kids := n.kids[i := c]);
    FocusAt(t, i);
    assert t.kids[..i] == n.kids[..i] && t.kids[i + 1..] == n.kids[i + 1..];
  }

  /** Insertion into a tree of distinct keys puts the entry at its place in the in-order sequence. */
  lemma {:induction false} InsertNodeFlat(a: Alloc, n: Tree, h: nat, e: KV)
    requires Shape(n, h) && (h > 0 ==> |n.kvs| >= 1) && Footprint(e) <= MAX_KV_LEN + 10
    requires Sorted(Flat(n))
    ensures var r := InsertNode(a, n, h, e); r.st == Ok ==> Flat(r.t) == Ins(Flat(n), e)
    decreases h
  {
    hide Used, Sorted, Ins, Pre, Post, Weave, LB, Less, SplitChild;
    if |n.kids| > 0 {
      var r := SplitChild(a, n, LB(n.kvs, e.key), h);
      SplitChildFlat(a, n, LB(n.kvs, e.key), h);
      if r.st == Ok {
        var i := LB(r.t.kvs, e.key);
        var p, q := Pre(r.t.kvs[..i], r.t.kids[..i]), Post(r.t.kvs[i..], r.t.kids[i + 1..]);
        var c := r.t.kids[i];
        var b := Free(r.a, [c.page]);
        Bracket(r.t, e.key);
        InsertNodeFlat(b, c, h - 1, e);
        InsMiddle(p, Flat(c), q, e);
        ReplacedKid(r.t, i, InsertNode(b, c, h - 1, e).t);
      }
    }
  }

  lemma InsertRootFlat(a: Alloc, t: Tree, h: nat, e: KV, early: seq<nat>)
    requires RootShape(t, h) && Sorted(Flat(t))
    ensures var r := InsertRoot(a, t, h, e, early); r.st == Ok ==> Flat(r.t) == Ins(Flat(t), e)
  {
    hide Flat, Used, Sorted, Ins, InsertNode;
    if |e.key| + |e.val| <= MAX_KV_LEN {
      if Overflowing(t) {
        OverflowingRoot(t, h);
        SplitRootFlat(a, t, h);
        var s := SplitRoot(a, t, h);
        InsertNodeFlat(Free(s.a, early), s.t, h + 1, e);
      } else {
        InsertNodeFlat(Free(a, early), t, h, e);
      }
    }
  }

  // ---- deletion: rotations and merges regroup, removal happens at one place

  lemma LastSplits(t: Tree, h: nat, page: nat)
    requires Shape(t, h) && |t.kvs| >= 1
    ensures Flat(t) == Flat(DropLast(t, page)) + [t.kvs[|t.kvs| - 1]] + RightOf(t)
  {
    hide Used, Weave, Small;
    var k := |t.kvs| - 1;
    var b := t.kvs[k];
    assert t.kvs == t.kvs[..k] + [b];
    if h > 0 {
      var g := t.kids[k + 1];
      assert t.kvs == t.kvs[..k] + [b] + [] && t.kids == t.kids[..k + 1] + [g];
      WeaveSplit(t.kvs[..k], t.kids[..k + 1], b, [], [g]);
      WeaveOne(g);
    }
  }

  lemma PrependedIs(left: Tree, s: KV, child: Tree, h: nat, cp: nat)
    requires Shape(left, h) && Shape(child, h) && |left.kvs| >= 1 && |child.kvs| >= 1
    ensures Flat(Prepended(left, s, child, cp)) == RightOf(left) + [s] + Flat(child)
  {
    hide Used, Weave, Small;
    if h > 0 {
      WeaveCons(left.kids[|left.kvs|], s, child.kvs, child.kids);
    }
  }

  lemma PrependedFlat(left: Tree, s: KV, child: Tree, h: nat, lp: nat, cp: nat)
    requires Shape(left, h) && Shape(child, h) && |left.kvs| >= 1 && |child.kvs| >= 1
    ensures Flat(left) + [s] + Flat(child) ==
            Flat(DropLast(left, lp)) + [left.kvs[|left.kvs| - 1]] + Flat(Prepended(left, s, child, cp))
    ensures exists z :: Flat(Prepended(left, s, child, cp)) == RightOf(left) + [s] + z
  {
    hide Flat, DropLast, Prepended, RightOf;
    LastSplits(left, h, lp);
    PrependedIs(left, s, child, h, cp);
  }

  /** What lies right of the last separator of a node. */
  function RightOf(t: Tree): seq<KV> {
    if |t.kids| > 0 then Flat(t.kids[|t.kids| - 1]) else []
  }

  lemma AppendedFlat(child: Tree, s: KV, right: Tree, h: nat, cp: nat, rp: nat)
    requires Shape(right, h) && Shape(child, h) && |right.kvs| >= 1 && |child.kvs| >= 1
    ensures Flat(child) + [s] + Flat(right) ==
            Flat(Appended(child, s, right, cp)) + [right.kvs[0]] + Flat(DropFirst(right, rp))
    ensures exists y, z :: Flat(Appended(child, s, right, cp)) == y + [s] + z
  {
    hide Used, Weave, Small;
    var b := right.kvs[0];
    assert right.kvs == [b] + right.kvs[1..];
    var z := [];
    if h > 0 {
      var g := right.kids[0];
      z := Flat(g);
      assert right.kids == [g] + right.kids[1..] && child.kvs + [s] == child.kvs + [s] + [];
      WeaveCons(g, b, right.kvs[1..], right.kids[1..]);
      WeaveSplit(child.kvs, child.kids, s, [], [g]);
      WeaveOne(g);
    }
    assert Flat(Appended(child, s, right, cp)) == Flat(child) + [s] + z;
  }

  lemma JoinedFlat(l: Tree, s: KV, r: Tree, h: nat, page: nat)
    requires Shape(l, h) && Shape(r, h)
    ensures Flat(Joined(l, s, r, page)) == Flat(l) + [s] + Flat(r)
  {
    hide Used, Weave, Small;
    if h > 0 {
      WeaveSplit(l.kvs, l.kids, s, r.kvs, r.kids);
    }
  }

  lemma WithPairFlat(n: Tree, i: nat, l: Tree, m: KV, r: Tree)
    requires |n.kids| == |n.kvs| + 1 && i < |n.kvs|
    requires Flat(n.kids[i]) + [n.kvs[i]] + Flat(n.kids[i + 1]) == Flat(l) + [m] + Flat(r)
    ensures Flat(WithPair(n, i, l, m, r)) == Flat(n)
    ensures Flat(n) == Pre(n.kvs[..i], n.kids[..i]) + Flat(l) + [m] + Flat(r) + Post(n.kvs[i + 1..], n.kids[i + 2..])
  {
    hide Weave, Pre, Post;
    var p, q := Pre(n.kvs[..i], n.kids[..i]), Post(n.kvs[i + 1..], n.kids[i + 2..]);
    Focus2At(n, i);
    Focus2(n.kvs[..i], n.kids[..i], l, m, r, n.kvs[i + 1..], n.kids[i + 2..]);
    Regroup5(p, Flat(n.kids[i]), [n.kvs[i]], Flat(n.kids[i + 1]), q);
    Regroup5(p, Flat(l), [m], Flat(r), q);
  }

  lemma WithMergedFlat(n: Tree, i: nat, c: Tree)
    requires |n.kids| == |n.kvs| + 1 && i < |n.kvs|
    requires Flat(c) == Flat(n.kids[i]) + [n.kvs[i]] + Flat(n.kids[i + 1])
    ensures Flat(WithMerged(n, i, c)) == Flat(n)
  {
    hide Weave, Pre, Post;
    Focus2At(n, i);
    Focus(n.kvs[..i], n.kids[..i], c, n.kvs[i + 1..], n.kids[i + 2..]);
    Regroup5(Pre(n.kvs[..i], n.kids[..i]), Flat(n.kids[i]), [n.kvs[i]], Flat(n.kids[i + 1]),
             Post(n.kvs[i + 1..], n.kids[i + 2..]));
  }

  lemma RotateRightFlat(a: Alloc, n: Tree, i: nat, h: nat)
    requires h > 0 && Shape(n, h) && i < |n.kvs|
    requires |n.kids[i].kvs| >= 2 && |n.kids[i + 1].kvs| == 1
    ensures var r := RotateRight(a, n, i, h); r.st == Ok ==> Flat(r.t) == Flat(n)
    ensures var r := RotateRight(a, n, i, h);
            r.st == Ok && Sorted(Flat(n)) ==> Less(r.t.kvs[i].key, n.kvs[i].key)
  {
    hide Used, Sorted, Flat, Less, Pre, Post, DropLast, Prepended;
    var left, child, s := n.kids[i], n.kids[i + 1], n.kvs[i];
    assert Shape(left, h - 1) && Shape(child, h - 1);
    var b := left.kvs[|left.kvs| - 1];
    var l, c := DropLast(left, Next(a)), Prepended(left, s, child, Next(Take(a)));
    PrependedFlat(left, s, child, h - 1, l.page, c.page);
    assert l.page == Next(a) && c.page == Next(Take(a)) by { DropPages(left, s, child, Next(a), Next(Take(a))); }
    WithPairFlat(n, i, l, b, c);
    if Sorted(Flat(n)) {
      var z :| Flat(c) == RightOf(left) + [s] + z;
      OrderedIn(Pre(n.kvs[..i], n.kids[..i]) + Flat(l), b, RightOf(left), s, z,
                Post(n.kvs[i + 1..], n.kids[i + 2..]), Flat(n));
    }
  }

  lemma DropPages(l: Tree, s: KV, c: Tree, p: nat, q: nat)
    requires |l.kvs| > 0
    ensures DropLast(l, p).page == DropFirst(l, p).page == p
    ensures Prepended(l, s, c, q).page == Appended(c, s, l, q).page == q
  {
  }

  lemma OrderedIn(x: seq<KV>, p: KV, y: seq<KV>, q: KV, z: seq<KV>, w: seq<KV>, all: seq<KV>)
    requires all == x + [p] + (y + [q] + z) + w && Sorted(all)
    ensures Less(p.key, q.key)
  {
    assert all[|x|] == p && all[|x| + 1 + |y|] == q;
  }

  lemma OrderedIn2(x: seq<KV>, p: KV, y: seq<KV>, q: KV, w: seq<KV>, all: seq<KV>)
    requires all == (x + [p] + y) + [q] + w && Sorted(all)
    ensures Less(p.key, q.key)
  {
    assert all[|x|] == p && all[|x| + 1 + |y|] == q;
  }

  lemma RotateLeftFlat(a: Alloc, n: Tree, i: nat, h: nat)
    requires h > 0 && Shape(n, h) && i < |n.kvs|
    requires |n.kids[i].kvs| == 1 && |n.kids[i + 1].kvs| >= 2
    ensures var r := RotateLeft(a, n, i, h); r.st == Ok ==> Flat(r.t) == Flat(n)
    ensures var r := RotateLeft(a, n, i, h);
            r.st == Ok && Sorted(Flat(n)) ==> Less(n.kvs[i].key, r.t.kvs[i].key)
  {
    hide Used, Sorted, Flat, Less, Pre, Post, DropFirst, Appended;
    var child, right, s := n.kids[i], n.kids[i + 1], n.kvs[i];
    assert Shape(right, h - 1) && Shape(child, h - 1);
    var b := right.kvs[0];
    var c, r := Appended(child, s, right, Next(a)), DropFirst(right, Next(Take(a)));
    AppendedFlat(child, s, right, h - 1, Next(a), Next(Take(a)));
    WithPairFlat(n, i, c, b, r);
    if Sorted(Flat(n)) {
      var y, z :| Flat(c) == y + [s] + z;
      var p, q := Pre(n.kvs[..i], n.kids[..i]), Post(n.kvs[i + 1..], n.kids[i + 2..]);
      assert Flat(n) == (p + y + [s] + z) + [b] + (Flat(r) + q);
      OrderedIn2(p + y, s, z, b, Flat(r) + q, Flat(n));
    }
  }

  lemma MergeFlat(a: Alloc, n: Tree, i: nat, h: nat)
    requires h > 0 && Shape(n, h) && i < |n.kvs|
    requires |n.kids[i].kvs| == 1 && |n.kids[i + 1].kvs| == 1
    ensures Flat(Merge(a, n, i, h).t) == Flat(n)
  {
    hide Used, Flat;
    assert Shape(n.kids[i], h - 1) && Shape(n.kids[i + 1], h - 1);
    JoinedFlat(n.kids[i], n.kvs[i], n.kids[i + 1], h - 1, Next(a));
    WithMergedFlat(n, i, Joined(n.kids[i], n.kvs[i], n.kids[i + 1], Next(a)));
  }

  // ---- which child the search enters once it has been given a second key

  /** Where the search goes on after a child has been split around m. */
  lemma SplicedPlace(s: seq<KV>, m: KV, k: seq<byte>, i: nat)
    requires i == LB(s, k) && Sorted(s) && Sorted(s[..i] + [m] + s[i..])
    ensures LB(s[..i] + [m] + s[i..], k) == if Less(m.key, k) then i + 1 else i
  {
    hide Less;
    var t := s[..i] + [m] + s[i..];
    assert forall j | 0 <= j < i :: t[j] == s[j];
    assert t[i] == m && (i < |s| ==> t[i + 1] == s[i]);
    SplitAtLB(t, k, if Less(m.key, k) then i + 1 else i);
  }

  lemma SwapLB(s: seq<KV>, t: seq<KV>, k: seq<byte>, i: nat, j: nat)
    requires Sorted(s) && Sorted(t) && |s| == |t| && i == LB(s, k) && j < |s|
    requires t == s[..j] + [t[j]] + s[j + 1..]
    requires if j < i then Less(t[j].key, k) else Less(k, t[j].key)
    requires !Holds(s, k)
    ensures LB(t, k) == i && !Holds(t, k)
  {
    assert forall x | 0 <= x < |s| && x != j :: t[x] == s[x];
    if j >= i {
      LessTotal(k, t[j].key);
    }
    SplitAtLB(t, k, i);
  }

  lemma DropLB(s: seq<KV>, k: seq<byte>, i: nat, j: nat)
    requires Sorted(s) && i == LB(s, k) && j < |s| && (j == i - 1 || j == i) && !Holds(s, k)
    ensures var t := s[..j] + s[j + 1..]; LB(t, k) == j && !Holds(t, k)
  {
    hide LB, Sorted;
    var t := s[..j] + s[j + 1..];
    assert s == s[..j] + [s[j]] + s[j + 1..];
    SortedGap(s[..j], s[j], s[j + 1..]);
    assert j > 0 ==> t[j - 1] == s[j - 1];
    if j < |t| {
      assert t[j] == s[j + 1];
      if j == i {
        NextAbove(s, k, i);
      }
    }
    SplitAtLB(t, k, j);
  }

  lemma NextAbove(s: seq<KV>, k: seq<byte>, i: nat)
    requires Sorted(s) && i == LB(s, k) && i + 1 < |s|
    ensures !Less(s[i + 1].key, k) && s[i + 1].key != k
  {
    LessTotal(s[i].key, k);
    if s[i].key != k {
      LessTransitive(k, s[i].key, s[i + 1].key);
    }
    LessTotal(s[i + 1].key, k);
  }

  /** A rotation around separator j replaces it by an entry on the same side of k. */
  lemma AfterRotation(n: Tree, r: Tree, k: seq<byte>, j: nat)
    requires |n.kids| == |n.kvs| + 1 && Sorted(Flat(n)) && Flat(r) == Flat(n) && |r.kvs| == |n.kvs|
    requires j < |n.kvs| && r.kvs == n.kvs[..j] + [r.kvs[j]] + n.kvs[j + 1..]
    requires !Holds(n.kvs, k)
    requires if j < LB(n.kvs, k) then Less(r.kvs[j].key, n.kvs[j].key) else Less(n.kvs[j].key, r.kvs[j].key)
    ensures LB(r.kvs, k) == LB(n.kvs, k) && !Holds(r.kvs, k)
  {
    hide Flat, Sorted, Less;
    KeysSorted(n);
    KeysSorted(r);
    var i := LB(n.kvs, k);
    if j < i {
      LessTransitive(r.kvs[j].key, n.kvs[j].key, k);
    } else {
      Above(n.kvs, k, j);
      LessTransitive(k, n.kvs[j].key, r.kvs[j].key);
    }
    SwapLB(n.kvs, r.kvs, k, i, j);
  }

  lemma Above(s: seq<KV>, k: seq<byte>, j: nat)
    requires Sorted(s) && !Holds(s, k) && LB(s, k) <= j < |s|
    ensures Less(k, s[j].key)
  {
    var i := LB(s, k);
    LessTotal(k, s[i].key);
    if j > i {
      LessTransitive(k, s[i].key, s[j].key);
    }
  }

  /** fillChild keeps the contents, and the child the search then enters has at least two keys. */
  lemma FillChildFlat(a: Alloc, n: Tree, h: nat, k: seq<byte>)
    requires h > 0 && Shape(n, h) && Fillable(n) && Sorted(Flat(n)) && !Holds(n.kvs, k)
    ensures var r := FillChild(a, n, LB(n.kvs, k), h);
            r.st == Ok ==> && Flat(r.t) == Flat(n) && !Holds(r.t.kvs, k)
                           && LB(r.t.kvs, k) < |r.t.kids| && |r.t.kids[LB(r.t.kvs, k)].kvs| >= 2
  {
    hide Used, Flat, Sorted, Less, LB;
    var i := LB(n.kvs, k);
    if !Underfull(n.kids[i]) {
    } else if i > 0 && !Underfull(n.kids[i - 1]) {
      RotatedRight(Free(a, [n.kids[i - 1].page, n.kids[i].page]), n, h, k);
    } else if i < |n.kvs| && !Underfull(n.kids[i + 1]) {
      RotatedLeft(Free(a, [n.kids[i].page, n.kids[i + 1].page]), n, h, k);
    } else if i > 0 {
      MergedAt(Free(a, [n.kids[i - 1].page, n.kids[i].page]), n, h, k, i - 1);
    } else {
      MergedAt(Free(a, [n.kids[i].page, n.kids[i + 1].page]), n, h, k, i);
    }
  }

  lemma RotatedRight(a: Alloc, n: Tree, h: nat, k: seq<byte>)
    requires h > 0 && Shape(n, h) && Sorted(Flat(n)) && !Holds(n.kvs, k)
    requires var i := LB(n.kvs, k); i > 0 && |n.kids[i - 1].kvs| >= 2 && |n.kids[i].kvs| == 1
    ensures var i := LB(n.kvs, k);
            var r := RotateRight(a, n, i - 1, h);
            r.st == Ok ==> && Flat(r.t) == Flat(n) && !Holds(r.t.kvs, k)
                           && LB(r.t.kvs, k) == i && |r.t.kids[i].kvs| == 2
  {
    hide Used, Flat, Sorted, Less, LB;
    var i := LB(n.kvs, k);
    var r := RotateRight(a, n, i - 1, h);
    RotateRightFlat(a, n, i - 1, h);
    if r.st == Ok {
      AfterRotation(n, r.t, k, i - 1);
    }
  }

  lemma RotatedLeft(a: Alloc, n: Tree, h: nat, k: seq<byte>)
    requires h > 0 && Shape(n, h) && Sorted(Flat(n)) && !Holds(n.kvs, k)
    requires var i := LB(n.kvs, k); i < |n.kvs| && |n.kids[i].kvs| == 1 && |n.kids[i + 1].kvs| >= 2
    ensures var i := LB(n.kvs, k);
            var r := RotateLeft(a, n, i, h);
            r.st == Ok ==> && Flat(r.t) == Flat(n) && !Holds(r.t.kvs, k)
                           && LB(r.t.kvs, k) == i && |r.t.kids[i].kvs| == 2
  {
    hide Used, Flat, Sorted, Less, LB;
    var i := LB(n.kvs, k);
    var r := RotateLeft(a, n, i, h);
    RotateLeftFlat(a, n, i, h);
    if r.st == Ok {
      AfterRotation(n, r.t, k, i);
    }
  }

  lemma MergedAt(a: Alloc, n: Tree, h: nat, k: seq<byte>, j: nat)
    requires h > 0 && Shape(n, h) && Sorted(Flat(n)) && !Holds(n.kvs, k)
    requires j < |n.kvs| && (j == LB(n.kvs, k) - 1 || j == LB(n.kvs, k))
    requires |n.kids[j].kvs| == 1 && |n.kids[j + 1].kvs| == 1
    ensures var r := Merge(a, n, j, h);
            && Flat(r.t) == Flat(n) && !Holds(r.t.kvs, k)
            && LB(r.t.kvs, k) == j && |r.t.kids[j].kvs| == 3
  {
    hide Used, Flat, Sorted, Less, LB;
    MergeFlat(a, n, j, h);
    KeysSorted(n);
    DropLB(n.kvs, k, LB(n.kvs, k), j);
  }

  // ---- the ends of a subtree

  lemma {:induction false} LastIsLast(t: Tree, h: nat)
    requires Shape(t, h) && |t.kvs| >= 1
    ensures |Flat(t)| >= 1 && Flat(t)[|Flat(t)| - 1] == LastKV(t, h)
    decreases h
  {
    hide Used, Weave, Pre;
    if h > 0 {
      var n := |t.kvs|;
      LastIsLast(t.kids[n], h - 1);
      FocusAt(t, n);
    }
  }

  lemma {:induction false} FirstIsFirst(t: Tree, h: nat)
    requires Shape(t, h) && |t.kvs| >= 1
    ensures |Flat(t)| >= 1 && Flat(t)[0] == FirstKV(t, h)
    decreases h
  {
    hide Used, Weave, Post;
    if h > 0 {
      FirstIsFirst(t.kids[0], h - 1);
      FocusAt(t, 0);
    }
  }

  lemma {:induction false} LastIsSmall(t: Tree, h: nat)
    requires Shape(t, h) && |t.kvs| >= 1
    ensures Footprint(LastKV(t, h)) <= MAX_KV_LEN + 10
    ensures Footprint(FirstKV(t, h)) <= MAX_KV_LEN + 10
    decreases h
  {
    hide Used;
    if h > 0 {
      LastIsSmall(t.kids[|t.kvs|], h - 1);
      LastIsSmall(t.kids[0], h - 1);
    } else {
      SmallAt(t.kvs, |t.kvs| - 1);
      SmallAt(t.kvs, 0);
    }
  }

  lemma DelEnds(s: seq<KV>)
    requires Sorted(s) && |s| >= 1
    ensures Holds(s, s[|s| - 1].key) && Del(s, s[|s| - 1].key) == s[..|s| - 1]
    ensures Holds(s, s[0].key) && Del(s, s[0].key) == s[1..]
  {
    hide Sorted, Del, Less;
    var n := |s| - 1;
    assert s == s[..n] + [s[n]] + [] && s == [] + [s[0]] + s[1..];
    HoldsAt(s[..n], s[n], []);
    HoldsAt([], s[0], s[1..]);
    assert s[..n] + [] == s[..n] && [] + s[1..] == s[1..];
  }

  // ---- removal

  /** The page number is no part of contents or shape. */
  lemma Relabelled(t: Tree, p: nat, h: nat)
    ensures Flat(t.(page := p)) == Flat(t)
    ensures Shape(t, h) ==> Shape(t.(page := p), h)
  {
  }

  lemma SeparatorHeld(n: Tree, k: seq<byte>)
    requires |n.kids| == |n.kvs| + 1 && Sorted(Flat(n)) && Holds(n.kvs, k)
    ensures Holds(Flat(n), k)
  {
    hide Flat, Sorted, Pre, Post, Del;
    var i := LB(n.kvs, k);
    Focus2At(n, i);
    RemoveMiddle(Pre(n.kvs[..i], n.kids[..i]) + Flat(n.kids[i]), n.kvs[i], Flat(n.kids[i + 1]),
                 Post(n.kvs[i + 1..], n.kids[i + 2..]), Flat(n));
  }

  lemma SplitLast(s: seq<KV>)
    requires |s| > 0
    ensures s == s[..|s| - 1] + [s[|s| - 1]]
  {
  }

  /** Replacing an entry by its predecessor, taken out of the left subtree, removes the entry. */
  lemma PredecessorRemoves(n: Tree, i: nat, l: Tree, k: seq<byte>)
    requires |n.kids| == |n.kvs| + 1 && i < |n.kvs| && Sorted(Flat(n)) && n.kvs[i].key == k
    requires var f := Flat(n.kids[i]); |f| >= 1 && Flat(l) == f[..|f| - 1]
    ensures var f := Flat(n.kids[i]);
            && Holds(Flat(n), k)
            && Flat(Tree(n.page, n.kvs[i := f[|f| - 1]], n.kids[i := l])) == Del(Flat(n), k)
  {
    hide Flat, Sorted, Pre, Post, Holds, Del;
    var f, r := Flat(n.kids[i]), n.kids[i + 1];
    var m := f[|f| - 1];
    var p, q := Pre(n.kvs[..i], n.kids[..i]), Post(n.kvs[i + 1..], n.kids[i + 2..]);
    var t := Tree(n.page, n.kvs[i := m], n.kids[i := l]);
    Focus2At(n, i);
    Focus2At(t, i);
    assert t.kvs[..i] == n.kvs[..i] && t.kids[..i] == n.kids[..i];
    assert t.kvs[i + 1..] == n.kvs[i + 1..] && t.kids[i + 2..] == n.kids[i + 2..];
    SplitLast(f);
    RemoveMiddle(p + f, n.kvs[i], Flat(r), q, Flat(n));
    assert Flat(t) == p + (f[..|f| - 1] + [m]) + Flat(r) + q;
  }

  lemma RemoveMiddle(x: seq<KV>, e: KV, y: seq<KV>, z: seq<KV>, all: seq<KV>)
    requires all == x + [e] + y + z && Sorted(all)
    ensures Holds(all, e.key) && Del(all, e.key) == x + y + z
  {
    hide Sorted, Holds, Del;
    assert all == x + [e] + (y + z);
    HoldsAt(x, e, y + z);
    assert x + (y + z) == x + y + z;
  }

  /** Replacing an entry by its successor, taken out of the right subtree, removes the entry. */
  lemma SuccessorRemoves(n: Tree, i: nat, r: Tree, k: seq<byte>)
    requires |n.kids| == |n.kvs| + 1 && i < |n.kvs| && Sorted(Flat(n)) && n.kvs[i].key == k
    requires var f := Flat(n.kids[i + 1]); |f| >= 1 && Flat(r) == f[1..]
    ensures var f := Flat(n.kids[i + 1]);
            && Holds(Flat(n), k)
            && Flat(Tree(n.page, n.kvs[i := f[0]], n.kids[i + 1 := r])) == Del(Flat(n), k)
  {
    hide Flat, Sorted, Pre, Post, Holds, Del;
    var l, f := n.kids[i], Flat(n.kids[i + 1]);
    var p, q := Pre(n.kvs[..i], n.kids[..i]), Post(n.kvs[i + 1..], n.kids[i + 2..]);
    var t := Tree(n.page, n.kvs[i := f[0]], n.kids[i + 1 := r]);
    Focus2At(n, i);
    Focus2At(t, i);
    assert t.kvs[..i] == n.kvs[..i] && t.kids[..i] == n.kids[..i];
    assert t.kvs[i + 1..] == n.kvs[i + 1..] && t.kids[i + 2..] == n.kids[i + 2..];
    assert f == [f[0]] + f[1..];
    RemoveMiddle(p + Flat(l), n.kvs[i], f, q, Flat(n));
    assert Flat(t) == p + Flat(l) + ([f[0]] + f[1..]) + q;
  }

  lemma KidSorted(n: Tree, i: nat)
    requires |n.kids| == |n.kvs| + 1 && i <= |n.kvs| && Sorted(Flat(n))
    ensures Sorted(Flat(n.kids[i]))
  {
    hide Flat, Sorted, Pre, Post;
    FocusAt(n, i);
    SortedParts(Pre(n.kvs[..i], n.kids[..i]), Flat(n.kids[i]), Post(n.kvs[i..], n.kids[i + 1..]));
  }

  /** The search for a key that is not in the node goes on in one child, and only there. */
  lemma BelowHolds(n: Tree, k: seq<byte>, c: Tree)
    requires |n.kids| == |n.kvs| + 1 && Sorted(Flat(n)) && !Holds(n.kvs, k)
    ensures var i := LB(n.kvs, k);
            && Holds(Flat(n), k) == Holds(Flat(n.kids[i]), k)
            && Lookup(Flat(n), k) == Lookup(Flat(n.kids[i]), k)
            && (Holds(Flat(n), k) && Flat(c) == Del(Flat(n.kids[i]), k) ==>
                  Flat(n.(kids := n.kids[i := c])) == Del(Flat(n), k))
  {
    hide Flat, Sorted, Pre, Post, Less, Lookup, Del;
    var i := LB(n.kvs, k);
    Bracket(n, k);
    var p, f, q := Pre(n.kvs[..i], n.kids[..i]), Flat(n.kids[i]), Post(n.kvs[i..], n.kids[i + 1..]);
    if |q| > 0 {
      LessTotal(k, q[0].key);
    }
    HoldsMiddle(p, f, q, k);
    ReplacedKid(n, i, c);
  }

  /** What deletion from node n must come to. */
  ghost predicate Removed(n: Tree, r: Res, h: nat, k: seq<byte>) {
    && (r.st == Ok ==> Shape(r.t, h) && Holds(Flat(n), k) && Flat(r.t) == Del(Flat(n), k))
    && (r.st == NotFound ==> !Holds(Flat(n), k))
  }

  /** Deletion removes exactly the key, reports a missing key as such, and costs the node at most one key. */
  lemma {:induction false} DeleteNodeFlat(a: Alloc, n: Tree, h: nat, k: seq<byte>)
    requires Shape(n, h) && Fillable(n) && Sorted(Flat(n))
    ensures var r := DeleteNode(a, n, h, k); Removed(n, r, h, k) && (r.st == Ok ==> |r.t.kvs| >= |n.kvs| - 1)
    decreases h, |n.kvs|, 2
  {
    hide Used, Sorted, Less, LB, Weave, FillChild;
    if h == 0 {
      if Holds(n.kvs, k) {
        LeafRemoved(n, k);
      }
    } else if Holds(n.kvs, k) {
      DeleteHereFlat(a, n, h, k);
    } else {
      FillChildFlat(a, n, h, k);
      var r := FillChild(a, n, LB(n.kvs, k), h);
      if r.st == Ok {
        DeleteBelowFlat(r.a, r.t, h, k);
      }
    }
  }

  lemma LeafRemoved(n: Tree, k: seq<byte>)
    requires Shape(n, 0) && Holds(n.kvs, k)
    ensures Shape(n.(kvs := Del(n.kvs, k)), 0) && |Del(n.kvs, k)| == |n.kvs| - 1
  {
    hide Area, LB;
    UsedAt(n.kvs, LB(n.kvs, k));
  }

  lemma {:induction false} DeleteBelowFlat(a: Alloc, n: Tree, h: nat, k: seq<byte>)
    requires h > 0 && Shape(n, h) && Sorted(Flat(n)) && !Holds(n.kvs, k)
    requires |n.kids[LB(n.kvs, k)].kvs| >= 2
    ensures var r := DeleteBelow(a, n, h, k); Removed(n, r, h, k) && (r.st == Ok ==> |r.t.kvs| == |n.kvs|)
    decreases h, |n.kvs|, 1
  {
    hide Used, Sorted, Less, LB, Flat, Del, DeleteNode;
    var i := LB(n.kvs, k);
    var c := n.kids[i];
    var s := DeleteNode(a, c, h - 1, k);
    KidSorted(n, i);
    assert Shape(c, h - 1);
    DeleteNodeFlat(a, c, h - 1, k);
    BelowHolds(n, k, s.t);
    if s.st == Ok {
      KidShape(n, h, i, s.t);
      Relabelled(n.(kids := n.kids[i := s.t]), DeleteBelow(a, n, h, k).t.page, h);
    }
  }

  lemma {:induction false} DeleteHereFlat(a: Alloc, n: Tree, h: nat, k: seq<byte>)
    requires h > 0 && Shape(n, h) && Sorted(Flat(n)) && Holds(n.kvs, k)
    ensures var r := DeleteHere(a, n, h, k); Removed(n, r, h, k) && (r.st == Ok ==> |r.t.kvs| >= |n.kvs| - 1)
    decreases h, |n.kvs|, 0
  {
    hide Used, Sorted, Less, LB, Flat;
    var i := LB(n.kvs, k);
    if !Underfull(n.kids[i]) {
      ByPredecessor(a, n, h, k);
    } else if !Underfull(n.kids[i + 1]) {
      BySuccessor(a, n, h, k);
    } else {
      var b := Free(a, [n.kids[i].page, n.kids[i + 1].page]);
      ByMerging(b, n, h, k);
    }
  }

  lemma {:induction false} ByPredecessor(a: Alloc, n: Tree, h: nat, k: seq<byte>)
    requires h > 0 && Shape(n, h) && Sorted(Flat(n)) && Holds(n.kvs, k)
    requires !Underfull(n.kids[LB(n.kvs, k)])
    ensures var r := DeleteHere(a, n, h, k); Removed(n, r, h, k) && (r.st == Ok ==> |r.t.kvs| == |n.kvs|)
    decreases h, 0, 0
  {
    hide Used, Sorted, Less, LB, Flat, Del, DeleteNode;
    var i := LB(n.kvs, k);
    var left := n.kids[i];
    assert Shape(left, h - 1);
    var pred := LastKV(left, h - 1);
    KidSorted(n, i);
    LastIsLast(left, h - 1);
    LastIsSmall(left, h - 1);
    DelEnds(Flat(left));
    var s := DeleteNode(Free(a, [left.page]), left, h - 1, pred.key);
    DeleteNodeFlat(Free(a, [left.page]), left, h - 1, pred.key);
    if UpdateFits(n, i, pred) && s.st == Ok {
      PredecessorRemoves(n, i, s.t, k);
      UpdateShape(n, h, i, pred);
      KidShape(n.(kvs := n.kvs[i := pred]), h, i, s.t);
      Relabelled(Tree(n.page, n.kvs[i := pred], n.kids[i := s.t]), DeleteHere(a, n, h, k).t.page, h);
    }
  }

  lemma {:induction false} BySuccessor(a: Alloc, n: Tree, h: nat, k: seq<byte>)
    requires h > 0 && Shape(n, h) && Sorted(Flat(n)) && Holds(n.kvs, k)
    requires Underfull(n.kids[LB(n.kvs, k)]) && !Underfull(n.kids[LB(n.kvs, k) + 1])
    ensures var r := DeleteHere(a, n, h, k); Removed(n, r, h, k) && (r.st == Ok ==> |r.t.kvs| == |n.kvs|)
    decreases h, 0, 0
  {
    hide Used, Sorted, Less, LB, Flat, Del, DeleteNode;
    var i := LB(n.kvs, k);
    var right := n.kids[i + 1];
    assert Shape(right, h - 1);
    var succ := FirstKV(right, h - 1);
    KidSorted(n, i + 1);
    FirstIsFirst(right, h - 1);
    LastIsSmall(right, h - 1);
    DelEnds(Flat(right));
    var s := DeleteNode(Free(a, [right.page]), right, h - 1, succ.key);
    DeleteNodeFlat(Free(a, [right.page]), right, h - 1, succ.key);
    if UpdateFits(n, i, succ) && s.st == Ok {
      SuccessorRemoves(n, i, s.t, k);
      UpdateShape(n, h, i, succ);
      KidShape(n.(kvs := n.kvs[i := succ]), h, i + 1, s.t);
      Relabelled(Tree(n.page, n.kvs[i := succ], n.kids[i + 1 := s.t]), DeleteHere(a, n, h, k).t.page, h);
    }
  }

  lemma {:induction false} ByMerging(b: Alloc, n: Tree, h: nat, k: seq<byte>)
    requires h > 0 && Shape(n, h) && Sorted(Flat(n)) && Holds(n.kvs, k)
    requires Underfull(n.kids[LB(n.kvs, k)]) && Underfull(n.kids[LB(n.kvs, k) + 1])
    ensures var m := Merge(b, n, LB(n.kvs, k), h);
            var r := DeleteNode(m.a, m.t, h, k);
            Removed(n, r, h, k) && (r.st == Ok ==> |r.t.kvs| == |n.kvs| - 1)
    decreases h, |n.kvs|, -1
  {
    hide Used, Sorted, Less, LB, Flat, Del, DeleteBelow;
    var i := LB(n.kvs, k);
    var m := Merge(b, n, i, h);
    MergeFlat(b, n, i, h);
    KeysSorted(n);
    DropHeld(n.kvs, k);
    DeleteBelowFlat(m.a, m.t, h, k);
  }

  lemma DropHeld(s: seq<KV>, k: seq<byte>)
    requires Sorted(s) && Holds(s, k)
    ensures var i := LB(s, k); var t := s[..i] + s[i + 1..]; LB(t, k) == i && !Holds(t, k)
  {
    DelLB(s, k);
  }
}
