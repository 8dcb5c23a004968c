/** When nodes are split, filled up or left alone, in bytes and keys, and which pages that takes and frees, in order. */
module CowMoves {
  import opened Bytes
  import opened CowContents
  import opened CowNodes
  import opened CowTree
  import opened Entries
  import opened NodeManager
  import opened PageCodec
  import opened Runs
  import opened Trees

  // ---- splits

  /** A child is split exactly when it uses more than 2752 of its 4096 bytes. The right half is written first, then the
      left; the old page of the child is freed. */
  lemma SplitChildMoves(a: Alloc, n: Tree, i: nat, h: nat)
    requires h > 0 && Shape(n, h) && i <= |n.kvs|
    ensures var r, c := SplitChild(a, n, i, h), n.kids[i];
            var m := |c.kvs| / 2;
            && (Used(c.kvs) <= 2752 ==> r == Res(Ok, a, n))
            && (Used(c.kvs) > 2752 && r.st == Ok ==>
                  && r.t.kvs == n.kvs[..i] + [c.kvs[m]] + n.kvs[i..] && |r.t.kids| == |n.kids| + 1
                  && r.t.kids[i].kvs == c.kvs[..m] && r.t.kids[i + 1].kvs == c.kvs[m + 1..]
                  && r.t.kids[..i] == n.kids[..i] && r.t.kids[i + 2..] == n.kids[i + 1..]
                  && r.a.got == a.got + [r.t.kids[i + 1].page, r.t.kids[i].page]
                  && r.a.pend == a.pend + [c.page])
  {
    hide Used, Small;
  }

  /** The children on the way to k that use more than 2752 bytes. */
  function SplitsBelow(n: Tree, ghost h: nat, k: seq<byte>): nat
    requires Shape(n, h)
    decreases h
  {
    if |n.kids| == 0 then 0
    else
      var c := n.kids[LB(n.kvs, k)];
      (if Used(c.kvs) > 2752 then 1 else 0) + SplitsBelow(c, h - 1, k)
  }

  /** The pages on the way to k below a node, from above. */
  function Down(n: Tree, ghost h: nat, k: seq<byte>): seq<nat>
    requires Shape(n, h)
    decreases h
  {
    if |n.kids| == 0 then []
    else
      var c := n.kids[LB(n.kvs, k)];
      [c.page] + Down(c, h - 1, k)
  }

  /** The half of a split node the search for k goes on in leads to the same child as the whole node. */
  lemma HalfLeadsOn(c: Tree, h: nat, k: seq<byte>, lp: nat, rp: nat)
    requires Shape(c, h) && |c.kvs| >= 3 && Sorted(c.kvs)
    ensures var d := if Less(Median(c).key, k) then RightTree(c, rp) else LeftTree(c, lp);
            && Shape(d, h)
            && (h > 0 ==> LB(d.kvs, k) < |d.kids| && d.kids[LB(d.kvs, k)] == c.kids[LB(c.kvs, k)])
  {
    hide Used, Small, Less, LB;
    HalvesShape(c, h, lp, rp);
    HalfPlace(c.kvs, k);
  }

  lemma HalfPlace(s: seq<KV>, k: seq<byte>)
    requires |s| > 0 && Sorted(s)
    ensures var m := |s| / 2;
            if Less(s[m].key, k) then LB(s, k) == m + 1 + LB(s[m + 1..], k) else LB(s, k) == LB(s[..m], k)
  {
    hide Less, LB;
    var m := |s| / 2;
    var x, y := s[..m], s[m + 1..];
    if Less(s[m].key, k) {
      assert s == (x + [s[m]]) + y + [];
      LBMiddle(x + [s[m]], y, [], k);
    } else {
      assert s == [] + x + ([s[m]] + y);
      LBMiddle([], x, [s[m]] + y, k);
    }
  }

  lemma HalfSplits(c: Tree, h: nat, k: seq<byte>, lp: nat, rp: nat)
    requires Shape(c, h) && |c.kvs| >= 3 && Sorted(c.kvs)
    ensures var d := if Less(Median(c).key, k) then RightTree(c, rp) else LeftTree(c, lp);
            Shape(d, h) && SplitsBelow(d, h, k) == SplitsBelow(c, h, k)
  {
    hide Used, Small, Less, LB, LeftTree, RightTree;
    HalfLeadsOn(c, h, k, lp, rp);
    HalvesShape(c, h, lp, rp);
  }

  /** The child the insertion enters after splitChild, and what is left to split below it. */
  lemma EnteredSplits(a: Alloc, n: Tree, h: nat, k: seq<byte>)
    requires h > 0 && Shape(n, h) && Sorted(Flat(n)) && SplitChild(a, n, LB(n.kvs, k), h).st == Ok
    ensures var r, c := SplitChild(a, n, LB(n.kvs, k), h), n.kids[LB(n.kvs, k)];
            && LB(r.t.kvs, k) < |r.t.kids| && Shape(r.t.kids[LB(r.t.kvs, k)], h - 1)
            && SplitsBelow(r.t.kids[LB(r.t.kvs, k)], h - 1, k) == SplitsBelow(c, h - 1, k)
            && |r.a.got| == |a.got| + (if Used(c.kvs) > 2752 then 2 else 0)
            && (Used(c.kvs) <= 2752 ==> r == Res(Ok, a, n))
  {
    hide Used, Small, Less, LB, Flat, Sorted, SplitsBelow, LeftTree, RightTree;
    var i := LB(n.kvs, k);
    var c := n.kids[i];
    var r := SplitChild(a, n, i, h);
    SplitChildMoves(a, n, i, h);
    if Used(c.kvs) > 2752 {
      OverflowHasThree(c.kvs);
      KidSorted(n, i);
      KeysSorted(c);
      SplitChildFlat(a, n, i, h);
      KeysSorted(n);
      KeysSorted(r.t);
      SplicedPlace(n.kvs, Median(c), k, i);
      HalfSplits(c, h - 1, k, Next(Take(a)), Next(a));
      assert Overflowing(c);
    }
  }

  /** An insertion writes one page for every level below a node and two more for every child it splits. If it splits
      none it frees the pages on its way, from above. */
  lemma {:induction false} InsertTakesPages(a: Alloc, n: Tree, h: nat, e: KV)
    requires Shape(n, h) && (h > 0 ==> |n.kvs| >= 1) && Footprint(e) <= MAX_KV_LEN + 10 && Sorted(Flat(n))
    requires InsertNode(a, n, h, e).st == Ok
    ensures var r := InsertNode(a, n, h, e);
            && |r.a.got| == |a.got| + h + 1 + 2 * SplitsBelow(n, h, e.key)
            && (SplitsBelow(n, h, e.key) == 0 ==> r.a.pend == a.pend + Down(n, h, e.key))
    decreases h
  {
    hide Used, Small, Less, LB, Flat, Sorted, SplitChild, RoomFor, NodeSize;
    if h > 0 {
      var k := e.key;
      var r := SplitChild(a, n, LB(n.kvs, k), h);
      EnteredSplits(a, n, h, k);
      SplitChildFlat(a, n, LB(n.kvs, k), h);
      var i := LB(r.t.kvs, k);
      var c := r.t.kids[i];
      KidSorted(r.t, i);
      InsertTakesPages(Free(r.a, [c.page]), c, h - 1, e);
    }
  }

  /** The same with the root. A root that uses more than 2752 bytes is split, and then its half again if that still uses
      more; the height grows with a split of the root, and only then. */
  function SplitsAt(t: Tree, ghost h: nat, k: seq<byte>): nat
    requires RootShape(t, h)
  {
    if Used(t.kvs) <= 2752 || |t.kvs| == 0 then SplitsBelow(t, h, k)
    else
      var m := |t.kvs| / 2;
      var half := if Less(t.kvs[m].key, k) then t.kvs[m + 1..] else t.kvs[..m];
      1 + (if Used(half) > 2752 then 1 else 0) + SplitsBelow(t, h, k)
  }

  lemma RootHalf(l: Tree, m: KV, r: Tree, k: seq<byte>)
    ensures LB([m], k) == (if Less(m.key, k) then 1 else 0)
    ensures [l, r][LB([m], k)] == if Less(m.key, k) then r else l
  {
    hide Less;
    LBUnique([m], k, if Less(m.key, k) then 1 else 0);
  }

  lemma RootSplits(a: Alloc, t: Tree, h: nat, k: seq<byte>)
    requires RootShape(t, h) && |t.kvs| >= 3 && Sorted(Flat(t))
    ensures var m := |t.kvs| / 2;
            var half := if Less(t.kvs[m].key, k) then t.kvs[m + 1..] else t.kvs[..m];
            SplitsBelow(SplitRoot(a, t, h).t, h + 1, k) ==
            (if Used(half) > 2752 then 1 else 0) + SplitsBelow(t, h, k)
    ensures var s := SplitRoot(a, t, h);
            && s.a.got == a.got + [s.t.kids[1].page, s.t.kids[0].page] && s.a.pend == a.pend
            && s.t.kvs == [t.kvs[|t.kvs| / 2]]
  {
    hide Used, Small, Less, LB, Flat, Sorted;
    KeysSorted(t);
    var l, r := LeftTree(t, Next(Take(a))), RightTree(t, Next(a));
    RootHalf(l, Median(t), r, k);
    HalfSplits(t, h, k, l.page, r.page);
  }

  /** A whole insertion up to the commit. */
  lemma InsertRootTakesPages(a: Alloc, t: Tree, h: nat, e: KV, early: seq<nat>)
    requires RootShape(t, h) && Sorted(Flat(t)) && InsertRoot(a, t, h, e, early).st == Ok
    ensures var r := InsertRoot(a, t, h, e, early);
            var g := if Used(t.kvs) > 2752 then h + 1 else h;
            && RootShape(r.t, g)
            && |r.a.got| == |a.got| + g + 1 + 2 * SplitsAt(t, h, e.key)
            && (SplitsAt(t, h, e.key) == 0 ==> r.a.pend == a.pend + early + Down(t, h, e.key))
  {
    hide Used, Small, Less, LB, Flat, Sorted, InsertNode, SplitRoot, SplitsBelow, Down;
    UsedOfNone();
    if Overflowing(t) {
      OverflowingRoot(t, h);
      SplitRootFlat(a, t, h);
      RootSplits(a, t, h, e.key);
      var s := SplitRoot(a, t, h);
      InsertTakesPages(Free(s.a, early), s.t, h + 1, e);
    } else {
      InsertTakesPages(Free(a, early), t, h, e);
    }
  }

  // ---- filling a child up

  /** One entry from the left sibling through the separator into child i. */
  ghost predicate FromLeft(a: Alloc, n: Tree, i: nat, r: Res)
    requires 0 < i < |n.kids| == |n.kvs| + 1 && |n.kids[i - 1].kvs| > 0
  {
    var l, c := n.kids[i - 1], n.kids[i];
    && r.t.kvs == n.kvs[i - 1 := l.kvs[|l.kvs| - 1]] && |r.t.kids| == |n.kids|
    && r.t.kids[i - 1].kvs == l.kvs[..|l.kvs| - 1] && r.t.kids[i].kvs == [n.kvs[i - 1]] + c.kvs
    && (forall j | 0 <= j < |n.kids| && j != i - 1 && j != i :: r.t.kids[j] == n.kids[j])
    && r.a.pend == a.pend + [l.page, c.page] && r.a.got == a.got + [r.t.kids[i - 1].page, r.t.kids[i].page]
  }

  /** One entry from the right sibling through the separator into child i. */
  ghost predicate FromRight(a: Alloc, n: Tree, i: nat, r: Res)
    requires i + 1 < |n.kids| == |n.kvs| + 1 && |n.kids[i + 1].kvs| > 0
  {
    var c, s := n.kids[i], n.kids[i + 1];
    && r.t.kvs == n.kvs[i := s.kvs[0]] && |r.t.kids| == |n.kids|
    && r.t.kids[i].kvs == c.kvs + [n.kvs[i]] && r.t.kids[i + 1].kvs == s.kvs[1..]
    && (forall j | 0 <= j < |n.kids| && j != i && j != i + 1 :: r.t.kids[j] == n.kids[j])
    && r.a.pend == a.pend + [c.page, s.page] && r.a.got == a.got + [r.t.kids[i].page, r.t.kids[i + 1].page]
  }

  /** Children j and j + 1 and the separator between them in one node. */
  ghost predicate TwoInOne(a: Alloc, n: Tree, j: nat, r: Res)
    requires j + 1 < |n.kids| == |n.kvs| + 1
  {
    var l, s := n.kids[j], n.kids[j + 1];
    && r.t.kvs == n.kvs[..j] + n.kvs[j + 1..] && |r.t.kids| == |n.kids| - 1
    && r.t.kids[j].kvs == l.kvs + [n.kvs[j]] + s.kvs && r.t.kids[j].kids == l.kids + s.kids
    && r.t.kids[..j] == n.kids[..j] && r.t.kids[j + 1..] == n.kids[j + 2..]
    && r.a.pend == a.pend + [l.page, s.page] && r.a.got == a.got + [r.t.kids[j].page]
  }

  lemma PairParts(n: Tree, i: nat, l: Tree, m: KV, r: Tree)
    requires |n.kids| == |n.kvs| + 1 && i < |n.kvs|
    ensures var t := WithPair(n, i, l, m, r);
            && t.kvs == n.kvs[i := m] && |t.kids| == |n.kids| && t.kids[i] == l && t.kids[i + 1] == r
            && forall j | 0 <= j < |n.kids| && j != i && j != i + 1 :: t.kids[j] == n.kids[j]
  {
  }

  lemma MergedParts(n: Tree, i: nat, c: Tree)
    requires |n.kids| == |n.kvs| + 1 && i < |n.kvs|
    ensures var t := WithMerged(n, i, c);
            && t.kvs == n.kvs[..i] + n.kvs[i + 1..] && |t.kids| == |n.kids| - 1 && t.kids[i] == c
            && t.kids[..i] == n.kids[..i] && t.kids[i + 1..] == n.kids[i + 2..]
  {
  }

  lemma RightRotationMoves(a: Alloc, n: Tree, i: nat)
    requires |n.kids| == |n.kvs| + 1 && 0 < i < |n.kids| && |n.kids[i - 1].kvs| > 0
    ensures var r := RightRotated(Free(a, [n.kids[i - 1].page, n.kids[i].page]), n, i - 1);
            r.st == Ok ==> FromLeft(a, n, i, r)
  {
    hide UpdateFits, WithPair;
    var b := Free(a, [n.kids[i - 1].page, n.kids[i].page]);
    var l, c := n.kids[i - 1], n.kids[i];
    PairParts(n, i - 1, DropLast(l, Next(b)), l.kvs[|l.kvs| - 1], Prepended(l, n.kvs[i - 1], c, Next(Take(b))));
    assert Take(Take(b)).got == a.got + [Next(b), Next(Take(b))];
  }

  lemma LeftRotationMoves(a: Alloc, n: Tree, i: nat)
    requires |n.kids| == |n.kvs| + 1 && i + 1 < |n.kids| && |n.kids[i + 1].kvs| > 0
    ensures var r := LeftRotated(Free(a, [n.kids[i].page, n.kids[i + 1].page]), n, i);
            r.st == Ok ==> FromRight(a, n, i, r)
  {
    hide UpdateFits, WithPair;
    var b := Free(a, [n.kids[i].page, n.kids[i + 1].page]);
    var c, s := n.kids[i], n.kids[i + 1];
    PairParts(n, i, Appended(c, n.kvs[i], s, Next(b)), s.kvs[0], DropFirst(s, Next(Take(b))));
    assert Take(Take(b)).got == a.got + [Next(b), Next(Take(b))];
  }

  lemma MergeMoves(a: Alloc, n: Tree, j: nat)
    requires |n.kids| == |n.kvs| + 1 && j + 1 < |n.kids|
    ensures TwoInOne(a, n, j, Merged(Free(a, [n.kids[j].page, n.kids[j + 1].page]), n, j))
  {
    hide WithMerged;
    var b := Free(a, [n.kids[j].page, n.kids[j + 1].page]);
    MergedParts(n, j, Joined(n.kids[j], n.kvs[j], n.kids[j + 1], Next(b)));
  }

  /** fillChild acts exactly on a child of one key. It takes the last entry of the left sibling if that has two keys,
      else the first of the right sibling if that has two, else it merges with the left sibling, and with the right one
      for the first child. */
  lemma FillChildMoves(a: Alloc, n: Tree, h: nat, i: nat)
    requires h > 0 && Shape(n, h) && Fillable(n) && i <= |n.kvs| && FillChild(a, n, i, h).st == Ok
    ensures var r, c := FillChild(a, n, i, h), n.kids[i];
            && (|c.kvs| >= 2 ==> r == Res(Ok, a, n))
            && (|c.kvs| == 1 && i > 0 && |n.kids[i - 1].kvs| >= 2 ==> FromLeft(a, n, i, r))
            && (|c.kvs| == 1 && (i > 0 ==> |n.kids[i - 1].kvs| == 1) && i < |n.kvs| && |n.kids[i + 1].kvs| >= 2 ==>
                  FromRight(a, n, i, r))
            && (|c.kvs| == 1 && (i > 0 ==> |n.kids[i - 1].kvs| == 1) && (i < |n.kvs| ==> |n.kids[i + 1].kvs| == 1) ==>
                  |n.kvs| >= 1 && TwoInOne(a, n, if i > 0 then i - 1 else 0, r))
  {
    hide Used, Small, RightRotated, LeftRotated, Merged, FromLeft, FromRight, TwoInOne;
    var c := n.kids[i];
    assert |c.kvs| >= 1;
    if |c.kvs| == 1 {
      if i > 0 && |n.kids[i - 1].kvs| >= 2 {
        RightRotationMoves(a, n, i);
      } else if i < |n.kvs| && |n.kids[i + 1].kvs| >= 2 {
        LeftRotationMoves(a, n, i);
      } else if i > 0 {
        MergeMoves(a, n, i - 1);
      } else {
        MergeMoves(a, n, 0);
      }
    }
  }

  // ---- deletion

  /** On the way to k no inner node holds it and no node entered has a single key. */
  ghost predicate Plain(n: Tree, h: nat, k: seq<byte>)
    requires Shape(n, h)
    decreases h
  {
    h > 0 ==> !Holds(n.kvs, k) && |n.kids[LB(n.kvs, k)].kvs| >= 2 && Plain(n.kids[LB(n.kvs, k)], h - 1, k)
  }

  function Reversed(s: seq<nat>): seq<nat> {
    if |s| == 0 then [] else Reversed(s[1..]) + [s[0]]
  }

  /** A deletion that moves nothing on its way writes one page for every level, keeps every other node, and frees the
      pages on its way, from below. */
  lemma {:induction false} PlainDeleteTakesPages(a: Alloc, n: Tree, h: nat, k: seq<byte>)
    requires Shape(n, h) && Fillable(n) && Plain(n, h, k) && DeleteNode(a, n, h, k).st == Ok
    ensures var r := DeleteNode(a, n, h, k);
            |r.a.got| == |a.got| + h + 1 && r.a.pend == a.pend + Reversed(Down(n, h, k))
    decreases h
  {
    hide Used, Small, LB;
    if h > 0 {
      var c := n.kids[LB(n.kvs, k)];
      var s := DeleteNode(a, c, h - 1, k);
      assert FillChild(a, n, LB(n.kvs, k), h) == Res(Ok, a, n);
      PlainDeleteTakesPages(a, c, h - 1, k);
      assert ([c.page] + Down(c, h - 1, k))[1..] == Down(c, h - 1, k);
    }
  }

  /** A key the node holds is replaced by its predecessor if the left child has two keys, else by its successor if the
      right child has two; only with one key on both sides do the children merge. */
  lemma DeleteHereMoves(a: Alloc, n: Tree, h: nat, k: seq<byte>)
    requires h > 0 && Shape(n, h) && Sorted(Flat(n)) && Holds(n.kvs, k) && DeleteHere(a, n, h, k).st == Ok
    ensures var r, i := DeleteHere(a, n, h, k), LB(n.kvs, k);
            var f, g := Flat(n.kids[i]), Flat(n.kids[i + 1]);
            && (|n.kids[i].kvs| >= 2 ==>
                  && |f| > 0 && r.t.kvs == n.kvs[i := f[|f| - 1]] && |r.t.kids| == |n.kids|
                  && Flat(r.t.kids[i]) == f[..|f| - 1]
                  && forall j | 0 <= j < |n.kids| && j != i :: r.t.kids[j] == n.kids[j])
            && (|n.kids[i].kvs| == 1 && |n.kids[i + 1].kvs| >= 2 ==>
                  && |g| > 0 && r.t.kvs == n.kvs[i := g[0]] && |r.t.kids| == |n.kids|
                  && Flat(r.t.kids[i + 1]) == g[1..]
                  && forall j | 0 <= j < |n.kids| && j != i + 1 :: r.t.kids[j] == n.kids[j])
            && (|n.kids[i].kvs| == 1 && |n.kids[i + 1].kvs| == 1 ==>
                  && r.t.kvs == n.kvs[..i] + n.kvs[i + 1..] && |r.t.kids| == |n.kids| - 1
                  && r.t.kids[..i] == n.kids[..i] && r.t.kids[i + 1..] == n.kids[i + 2..])
  {
    hide Used, Small, Less, LB, Flat, Sorted, DeleteNode, Del;
    var i := LB(n.kvs, k);
    var left, right := n.kids[i], n.kids[i + 1];
    if !Underfull(left) {
      KidSorted(n, i);
      LastIsLast(left, h - 1);
      DelEnds(Flat(left));
      DeleteNodeFlat(Free(a, [left.page]), left, h - 1, LastKV(left, h - 1).key);
    } else if !Underfull(right) {
      KidSorted(n, i + 1);
      FirstIsFirst(right, h - 1);
      DelEnds(Flat(right));
      DeleteNodeFlat(Free(a, [right.page]), right, h - 1, FirstKV(right, h - 1).key);
    } else {
      MergedMoves(Free(a, [left.page, right.page]), n, h, k);
    }
  }

  lemma MergedMoves(a: Alloc, n: Tree, h: nat, k: seq<byte>)
    requires h > 0 && Shape(n, h) && Sorted(Flat(n)) && Holds(n.kvs, k)
    requires |n.kids[LB(n.kvs, k)].kvs| == 1 && |n.kids[LB(n.kvs, k) + 1].kvs| == 1
    requires var m := Merge(a, n, LB(n.kvs, k), h); DeleteNode(m.a, m.t, h, k).st == Ok
    ensures var i := LB(n.kvs, k);
            var m := Merge(a, n, i, h);
            var r := DeleteNode(m.a, m.t, h, k);
            && r.t.kvs == n.kvs[..i] + n.kvs[i + 1..] && |r.t.kids| == |n.kids| - 1
            && r.t.kids[..i] == n.kids[..i] && r.t.kids[i + 1..] == n.kids[i + 2..]
  {
    hide Used, Small, Less, LB, Flat, Sorted;
    var i := LB(n.kvs, k);
    var m := Merge(a, n, i, h);
    KeysSorted(n);
    DropHeld(n.kvs, k);
    assert m.t.kvs == n.kvs[..i] + n.kvs[i + 1..];
    assert FillChild(m.a, m.t, i, h) == Res(Ok, m.a, m.t);
    assert DeleteNode(m.a, m.t, h, k) == DeleteBelow(m.a, m.t, h, k);
  }

  /** A node that holds the key frees the child it turns to, or both it merges, before anything below; on the way to a
      key further down, the child entered is freed after everything below. */
  lemma DeleteFreesInOrder(a: Alloc, n: Tree, h: nat, k: seq<byte>)
    requires h > 0 && Shape(n, h)
    ensures Holds(n.kvs, k) && DeleteHere(a, n, h, k).st == Ok ==>
              var i, q := LB(n.kvs, k), DeleteHere(a, n, h, k).a.pend;
              var l, r := n.kids[i], n.kids[i + 1];
              a.pend + (if |l.kvs| >= 2 then [l.page] else if |r.kvs| >= 2 then [r.page] else [l.page, r.page]) <= q
    ensures !Holds(n.kvs, k) && DeleteBelow(a, n, h, k).st == Ok ==>
              var q := DeleteBelow(a, n, h, k).a.pend;
              |q| > |a.pend| && a.pend <= q && q[|q| - 1] == n.kids[LB(n.kvs, k)].page
  {
    hide Used, Small, LB, LastKV, FirstKV, DeleteNode, UpdateFits;
    var i := LB(n.kvs, k);
    if Holds(n.kvs, k) {
      var left, right := n.kids[i], n.kids[i + 1];
      if !Underfull(left) {
        DeleteOnlyAdds(Free(a, [left.page]), left, h - 1, LastKV(left, h - 1).key);
      } else if !Underfull(right) {
        DeleteOnlyAdds(Free(a, [right.page]), right, h - 1, FirstKV(right, h - 1).key);
      } else {
        var m := Merge(Free(a, [left.page, right.page]), n, i, h);
        DeleteOnlyAdds(m.a, m.t, h, k);
      }
    } else {
      DeleteOnlyAdds(a, n.kids[i], h - 1, k);
    }
  }
}
