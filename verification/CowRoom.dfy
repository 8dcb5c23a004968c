/** When operations do not run into the panic of InsertKV. */
module CowRoom {
  import opened Bytes
  import opened Entries
  import opened PageCodec
  import opened NodeManager
  import opened Trees
  import opened CowNodes
  import opened CowTree
  import opened CowContents

  // ---- the reserve of 1344 bytes

  /** Three entries that leave a node of 2752 bytes: by Overflow it still has room for any entry. */
  const FULL: seq<KV> := [KV([1], Zeros(1343)), KV([2], Zeros(1343)), KV([3], Zeros(25))]

  function FullLeaf(): Tree {
    Tree(1, FULL, [])
  }

  function TinyLeaf(p: nat, k: seq<byte>): Tree {
    Tree(p, [KV(k, [])], [])
  }

  /** A parent of four tiny leaves with the same three separators. */
  function FullParent(): Tree {
    Tree(1, FULL, [TinyLeaf(2, [0]), TinyLeaf(3, [1, 0]), TinyLeaf(4, [2, 0]), TinyLeaf(5, [3, 0])])
  }

  lemma FullSize()
    ensures Small(FULL) && Used(FULL) == 2752
  {
    hide Zeros, Area;
    assert Footprint(FULL[0]) == Footprint(FULL[1]) == 1354 && Footprint(FULL[2]) == 36;
    assert FULL[..2] == [FULL[0], FULL[1]] && FULL[2..] == [FULL[2]];
    UsedBounds(FULL[..2], 1354, 1354);
    UsedBounds(FULL[2..], 36, 36);
    UsedSplit(FULL, 2);
  }

  lemma FullParentFlat()
    ensures var a, b, c, d: KV := KV([0], []), KV([1, 0], []), KV([2, 0], []), KV([3, 0], []);
            Flat(FullParent()) == [a, FULL[0], b, FULL[1], c, FULL[2], d]
  {
    hide Zeros;
    var x, y, z, w := TinyLeaf(2, [0]), TinyLeaf(3, [1, 0]), TinyLeaf(4, [2, 0]), TinyLeaf(5, [3, 0]);
    WeaveOne(w);
    WeaveCons(z, FULL[2], [], [w]);
    WeaveCons(y, FULL[1], [FULL[2]], [z, w]);
    WeaveCons(x, FULL[0], [FULL[1], FULL[2]], [y, z, w]);
    assert FULL == [FULL[0]] + [FULL[1], FULL[2]] && [FULL[1], FULL[2]] == [FULL[1]] + [FULL[2]];
    assert [FULL[2]] == [FULL[2]] + [] && [z, w] == [z] + [w] && [y, z, w] == [y] + [z, w];
    assert FullParent().kids == [x] + [y, z, w];
  }

  lemma FullNodes()
    ensures Shape(FullLeaf(), 0) && Sorted(Flat(FullLeaf())) && NodeSize(FullLeaf()) == 2752
    ensures Shape(FullParent(), 1) && Sorted(Flat(FullParent())) && NodeSize(FullParent()) == 2752
  {
    hide Used, Flat, Zeros, Small;
    FullSize();
    FullParentFlat();
    LeafFlat(FullLeaf());
    forall i | 0 <= i < 4
      ensures Shape(FullParent().kids[i], 0) && |FullParent().kids[i].kvs| == 1
    {
      TinyLeafShape(FullParent().kids[i]);
    }
  }

  lemma LeafFlat(t: Tree)
    requires |t.kids| == 0 && |t.kvs| > 0
    ensures Flat(t) == t.kvs
  {
  }

  lemma TinyLeafShape(t: Tree)
    requires |t.kvs| == 1 && |t.kvs[0].key| <= 2 && t.kvs[0].val == [] && t.kids == []
    ensures Shape(t, 0)
  {
    UsedBounds(t.kvs, 0, 12);
  }

  /** Every node of some height from lo to hi that has a key and does not overflow can take e. */
  ghost predicate Reserved(e: KV, lo: nat, hi: nat) {
    forall t, h: nat | lo <= h <= hi && Shape(t, h) && |t.kvs| >= 1 && Sorted(Flat(t)) && !Overflowing(t) ::
      RoomFor(NodeSize(t), e)
  }

  /** Overflow promises room for one more entry in every node that does not overflow. For leaves as for parents
      that take a median, the promise is kept exactly for the entries of at most 1333 bytes, although 1344 are
      accepted. */
  lemma ReserveIff(e: KV, top: nat)
    requires |e.key| + |e.val| <= MAX_KV_LEN
    ensures Reserved(e, 0, 0) <==> |e.key| + |e.val| <= 1333
    ensures top >= 1 ==> (Reserved(e, 1, top) <==> |e.key| + |e.val| <= 1333)
  {
    hide Shape, Flat;
    FullNodes();
    if |e.key| + |e.val| > 1333 {
      assert !Overflowing(FullLeaf()) && !RoomFor(NodeSize(FullLeaf()), e);
      assert !Overflowing(FullParent()) && !RoomFor(NodeSize(FullParent()), e);
    }
  }

  /** The whole tree, and the entry to come, hold entries of footprint lo to hi. */
  ghost predicate Within(s: seq<KV>, lo: nat, hi: nat) {
    forall e | e in s :: lo <= Footprint(e) <= hi
  }

  /** Halving by count leaves at most two thirds of the bytes on a side when footprints differ by at most
      a factor of two. */
  lemma HalfBound(s: seq<KV>, i: nat, j: nat, lo: nat, hi: nat)
    requires Within(s, lo, hi) && hi <= 2 * lo && Used(s) < PAGE_SIZE
    requires i <= j <= |s| && 2 * (j - i) <= |s|
    ensures Used(s[i..j]) <= 2732
  {
    hide Area;
    var a, b, c := s[..i], s[i..j], s[j..];
    UsedSplit(s, j);
    UsedSplit(s[..j], i);
    assert s[..j][..i] == a && s[..j][i..] == b;
    UsedBounds(a, lo, hi);
    UsedBounds(b, lo, hi);
    UsedBounds(c, lo, hi);
    Thirds(|a|, |b|, |c|, Used(a), Used(b), Used(c), lo, hi);
  }

  lemma Thirds(a: nat, b: nat, c: nat, ua: nat, ub: nat, uc: nat, lo: nat, hi: nat)
    requires hi <= 2 * lo && 2 * b <= a + b + c
    requires ua >= 8 + lo * a && ub <= 8 + hi * b && uc >= 8 + lo * c
    requires ua + ub + uc - 16 < PAGE_SIZE
    ensures ub <= 2732
  {
    assert hi * b <= (2 * lo) * b == 2 * (lo * b) by { MulLe(hi, 2 * lo, b); }
    assert lo * b <= lo * (a + c) == lo * a + lo * c by { MulLe(b, a + c, lo); }
  }

  lemma MulLe(x: nat, y: nat, z: nat)
    requires x <= y
    ensures x * z <= y * z && z * x <= z * y
  {
  }

  // ---- insertion under the factor-of-two bound

  lemma HalvesRoom(c: Tree, h: nat, lp: nat, rp: nat, lo: nat, hi: nat)
    requires Shape(c, h) && |c.kvs| >= 3 && Within(c.kvs, lo, hi) && hi <= 2 * lo
    ensures !Overflowing(LeftTree(c, lp)) && !Overflowing(RightTree(c, rp))
  {
    hide Used, Small, Within;
    var m := |c.kvs| / 2;
    HalvesShape(c, h, lp, rp);
    HalfBound(c.kvs, 0, m, lo, hi);
    HalfBound(c.kvs, m + 1, |c.kvs|, lo, hi);
    assert c.kvs[0..m] == c.kvs[..m] && c.kvs[m + 1..|c.kvs|] == c.kvs[m + 1..];
  }

  /** The entries of a node and of its subtrees are among the contents of the tree. */
  lemma PartsWithin(n: Tree, h: nat, i: nat, lo: nat, hi: nat)
    requires Shape(n, h) && h > 0 && i <= |n.kvs| && Within(Flat(n), lo, hi)
    ensures Within(Flat(n.kids[i]), lo, hi)
    ensures i < |n.kvs| ==> lo <= Footprint(n.kvs[i]) <= hi
  {
    hide Flat, Pre, Post, Used, Small, Footprint;
    FocusAt(n, i);
    forall e | e in Flat(n.kids[i])
      ensures e in Flat(n)
    {
    }
    if i < |n.kvs| {
      Focus2At(n, i);
      assert n.kvs[i] in Flat(n);
    }
  }

  lemma KeysWithin(n: Tree, h: nat, lo: nat, hi: nat)
    requires Shape(n, h) && Within(Flat(n), lo, hi)
    ensures Within(n.kvs, lo, hi)
  {
    hide Used, Small, Weave, Footprint;
    if h > 0 {
      forall i | 0 <= i < |n.kvs|
        ensures lo <= Footprint(n.kvs[i]) <= hi
      {
        PartsWithin(n, h, i, lo, hi);
      }
    }
  }

  /** After splitChild the child that the insertion enters does not overflow. */
  lemma SplitChildRoom(a: Alloc, n: Tree, h: nat, k: seq<byte>, lo: nat, hi: nat)
    requires h > 0 && Shape(n, h) && !Overflowing(n) && |n.kvs| >= 1 && Sorted(Flat(n))
    requires Within(Flat(n), lo, hi) && hi <= 2 * lo && hi <= 1343
    ensures var r := SplitChild(a, n, LB(n.kvs, k), h);
            r.st == Ok && LB(r.t.kvs, k) < |r.t.kids| && !Overflowing(r.t.kids[LB(r.t.kvs, k)])
  {
    hide Used, Small, Flat, Within, Sorted, LB, LeftTree, RightTree, Less;
    var i := LB(n.kvs, k);
    var c := n.kids[i];
    var r := SplitChild(a, n, i, h);
    assert Shape(c, h - 1);
    if Overflowing(c) {
      OverflowHasThree(c.kvs);
      PartsWithin(n, h, i, lo, hi);
      KeysWithin(c, h - 1, lo, hi);
      MedianWithin(c, lo, hi);
      HalvesRoom(c, h - 1, Next(Take(a)), Next(a), lo, hi);
      SplitChildFlat(a, n, i, h);
      KeysSorted(n);
      KeysSorted(r.t);
      SplicedPlace(n.kvs, Median(c), k, i);
    }
  }

  lemma MedianWithin(c: Tree, lo: nat, hi: nat)
    requires |c.kvs| > 0 && Within(c.kvs, lo, hi)
    ensures lo <= Footprint(Median(c)) <= hi
  {
    assert Median(c) in c.kvs;
  }

  /** Entries of at most 1333 bytes whose footprints differ by at most a factor of two are always accepted. */
  lemma {:induction false} InsertNodeHasRoom(a: Alloc, n: Tree, h: nat, e: KV, lo: nat, hi: nat)
    requires Shape(n, h) && (h > 0 ==> |n.kvs| >= 1) && !Overflowing(n) && Sorted(Flat(n))
    requires Within(Flat(n), lo, hi) && lo <= Footprint(e) <= hi && hi <= 2 * lo && hi <= 1343
    ensures InsertNode(a, n, h, e).st == Ok
    decreases h
  {
    hide Used, Small, Flat, Within, Sorted, LB, SplitChild;
    if h > 0 {
      var r := SplitChild(a, n, LB(n.kvs, e.key), h);
      SplitChildRoom(a, n, h, e.key, lo, hi);
      SplitChildFlat(a, n, LB(n.kvs, e.key), h);
      var i := LB(r.t.kvs, e.key);
      var c := r.t.kids[i];
      assert Shape(c, h - 1);
      PartsWithin(r.t, h, i, lo, hi);
      KidSorted(r.t, i);
      InsertNodeHasRoom(Free(r.a, [c.page]), c, h - 1, e, lo, hi);
    }
  }

  lemma InsertRootHasRoom(a: Alloc, t: Tree, h: nat, e: KV, early: seq<nat>, lo: nat, hi: nat)
    requires RootShape(t, h) && Sorted(Flat(t))
    requires Within(Flat(t), lo, hi) && lo <= Footprint(e) <= hi && hi <= 2 * lo && hi <= 1343
    ensures InsertRoot(a, t, h, e, early).st == Ok
  {
    hide Used, Small, Flat, Within, Sorted, InsertNode;
    if Overflowing(t) {
      OverflowingRoot(t, h);
      SplitRootFlat(a, t, h);
      var s := SplitRoot(a, t, h);
      NewRootIsSmall(s.t, h + 1);
      InsertNodeHasRoom(Free(s.a, early), s.t, h + 1, e, lo, hi);
    } else {
      InsertNodeHasRoom(Free(a, early), t, h, e, lo, hi);
    }
  }

  lemma NewRootIsSmall(t: Tree, h: nat)
    requires Shape(t, h) && |t.kvs| == 1
    ensures !Overflowing(t)
  {
    UsedBounds(t.kvs, 0, MAX_KV_LEN + 10);
  }

  // ---- deletion: every replacement of a separator fits

  /** Any separator of any node can be exchanged for an entry of footprint hi. */
  ghost predicate Slack(n: Tree, h: nat, hi: nat)
    requires Shape(n, h)
    decreases h
  {
    h > 0 ==>
      && (forall i | 0 <= i < |n.kvs| :: Used(n.kvs) - Footprint(n.kvs[i]) + hi < PAGE_SIZE)
      && (forall i | 0 <= i < |n.kids| :: Slack(n.kids[i], h - 1, hi))
  }

  lemma SlackFits(n: Tree, h: nat, i: nat, e: KV, hi: nat)
    requires h > 0 && Shape(n, h) && i < |n.kvs| && |n.kvs| >= 2 && Slack(n, h, hi) && Footprint(e) <= hi
    ensures UpdateFits(n, i, e)
  {
    hide Area;
    UsedAt(n.kvs, i);
  }

  /** Nodes of up to three small entries have slack of their own. */
  lemma ThreeHaveSlack(n: Tree, h: nat, hi: nat)
    requires Shape(n, h) && |n.kvs| <= 3 && hi <= MAX_KV_LEN + 10
    requires forall i | 0 <= i < |n.kids| :: h > 0 && Slack(n.kids[i], h - 1, hi)
    ensures Slack(n, h, hi)
  {
    hide Area;
    forall i | 0 <= i < |n.kvs|
      ensures Used(n.kvs) - Footprint(n.kvs[i]) + hi < PAGE_SIZE
    {
      var rest := n.kvs[..i] + n.kvs[i + 1..];
      UsedAt(n.kvs, i);
      UsedBounds(rest, 0, MAX_KV_LEN + 10);
    }
  }

  lemma EndsWithin(t: Tree, h: nat, hi: nat)
    requires Shape(t, h) && |t.kvs| >= 1 && Within(Flat(t), 0, hi)
    ensures Footprint(LastKV(t, h)) <= hi && Footprint(FirstKV(t, h)) <= hi
  {
    hide Flat, Used, Small, Footprint;
    LastIsLast(t, h);
    FirstIsFirst(t, h);
  }

  /** The guard of UpdateKV is all that can stop a rotation. */
  lemma RotationsRun(a: Alloc, n: Tree, h: nat, i: nat)
    requires h > 0 && Shape(n, h) && i < |n.kvs|
    ensures |n.kids[i].kvs| >= 2 && |n.kids[i + 1].kvs| == 1 ==>
              (RotateRight(a, n, i, h).st == Ok <==> UpdateFits(n, i, n.kids[i].kvs[|n.kids[i].kvs| - 1]))
    ensures |n.kids[i].kvs| == 1 && |n.kids[i + 1].kvs| >= 2 ==>
              (RotateLeft(a, n, i, h).st == Ok <==> UpdateFits(n, i, n.kids[i + 1].kvs[0]))
  {
    hide Used, Small, UpdateFits;
  }

  lemma KidSlack(n: Tree, h: nat, i: nat, hi: nat)
    requires h > 0 && Shape(n, h) && Slack(n, h, hi) && i <= |n.kvs|
    ensures Shape(n.kids[i], h - 1) && Slack(n.kids[i], h - 1, hi)
    ensures forall j | 0 <= j < |n.kids[i].kids| ::
            h > 1 && Shape(n.kids[i].kids[j], h - 2) && Slack(n.kids[i].kids[j], h - 2, hi)
  {
    hide Used, Footprint;
  }

  lemma KidKeyWithin(n: Tree, h: nat, i: nat, j: nat, hi: nat)
    requires h > 0 && Shape(n, h) && i <= |n.kvs| && j < |n.kids[i].kvs| && Within(Flat(n), 0, hi)
    ensures Footprint(n.kids[i].kvs[j]) <= hi
  {
    hide Used, Small, Flat, Footprint;
    PartsWithin(n, h, i, 0, hi);
    KeysWithin(n.kids[i], h - 1, 0, hi);
  }

  lemma RotatedRightSlack(a: Alloc, n: Tree, h: nat, i: nat, hi: nat)
    requires h > 0 && Shape(n, h) && i < |n.kvs|
    requires |n.kids[i].kvs| >= 2 && |n.kids[i + 1].kvs| == 1 && RotateRight(a, n, i, h).st == Ok
    requires Slack(n, h, hi) && hi <= MAX_KV_LEN + 10
    ensures var c := RotateRight(a, n, i, h).t.kids[i + 1]; Shape(c, h - 1) && Slack(c, h - 1, hi)
  {
    hide Used, Small, Footprint, Slack, DropLast;
    KidSlack(n, h, i, hi);
    KidSlack(n, h, i + 1, hi);
    ThreeHaveSlack(RotateRight(a, n, i, h).t.kids[i + 1], h - 1, hi);
  }

  lemma RotatedLeftSlack(a: Alloc, n: Tree, h: nat, i: nat, hi: nat)
    requires h > 0 && Shape(n, h) && i < |n.kvs|
    requires |n.kids[i].kvs| == 1 && |n.kids[i + 1].kvs| >= 2 && RotateLeft(a, n, i, h).st == Ok
    requires Slack(n, h, hi) && hi <= MAX_KV_LEN + 10
    ensures var c := RotateLeft(a, n, i, h).t.kids[i]; Shape(c, h - 1) && Slack(c, h - 1, hi)
  {
    hide Used, Small, Footprint, Slack;
    KidSlack(n, h, i, hi);
    KidSlack(n, h, i + 1, hi);
    ThreeHaveSlack(RotateLeft(a, n, i, h).t.kids[i], h - 1, hi);
  }

  lemma MergedSlack(a: Alloc, n: Tree, h: nat, i: nat, hi: nat)
    requires h > 0 && Shape(n, h) && i < |n.kvs| && Slack(n, h, hi) && hi <= MAX_KV_LEN + 10
    requires |n.kids[i].kvs| == 1 && |n.kids[i + 1].kvs| == 1
    ensures var c := Merge(a, n, i, h).t.kids[i]; Shape(c, h - 1) && Slack(c, h - 1, hi)
  {
    hide Used, Small, Footprint, Slack;
    KidSlack(n, h, i, hi);
    KidSlack(n, h, i + 1, hi);
    ThreeHaveSlack(Merge(a, n, i, h).t.kids[i], h - 1, hi);
  }

  // ---- which deletions panic

  /** A separator and the entry that takes its place. */
  datatype Exchange = NoExchange | Exchange(i: nat, e: KV)

  /** The exchange a deletion makes in the node it starts from, by the guards it meets there: for the predecessor or
      the successor if the node holds k, for an entry lifted out of a sibling if the child to enter has one key. */
  ghost function FirstExchange(n: Tree, h: nat, k: seq<byte>): (x: Exchange)
    requires Shape(n, h)
    ensures x.Exchange? ==> h > 0 && x.i < |n.kvs|
  {
    if h == 0 then NoExchange
    else
      var i := LB(n.kvs, k);
      if Holds(n.kvs, k) then
        if !Underfull(n.kids[i]) then Exchange(i, LastKV(n.kids[i], h - 1))
        else if !Underfull(n.kids[i + 1]) then Exchange(i, FirstKV(n.kids[i + 1], h - 1))
        else NoExchange
      else if !Underfull(n.kids[i]) then NoExchange
      else if i > 0 && !Underfull(n.kids[i - 1]) then Exchange(i - 1, n.kids[i - 1].kvs[|n.kids[i - 1].kvs| - 1])
      else if i < |n.kvs| && !Underfull(n.kids[i + 1]) then Exchange(i, n.kids[i + 1].kvs[0])
      else NoExchange
  }

  ghost predicate Fitting(n: Tree, h: nat, x: Exchange)
    requires Shape(n, h) && (x.Exchange? ==> h > 0 && x.i < |n.kvs|)
  {
    x.Exchange? ==> UpdateFits(n, x.i, x.e)
  }

  lemma ExchangeWithin(n: Tree, h: nat, k: seq<byte>, hi: nat)
    requires Shape(n, h) && Within(Flat(n), 0, hi)
    ensures var x := FirstExchange(n, h, k); x.Exchange? ==> Footprint(x.e) <= hi
  {
    hide Used, Small, Flat, LB, Within, Footprint;
    if h > 0 {
      var i := LB(n.kvs, k);
      if Holds(n.kvs, k) {
        PartsWithin(n, h, i, 0, hi);
        PartsWithin(n, h, i + 1, 0, hi);
        EndsWithin(n.kids[i], h - 1, hi);
        EndsWithin(n.kids[i + 1], h - 1, hi);
      } else {
        if i > 0 {
          KidKeyWithin(n, h, i - 1, |n.kids[i - 1].kvs| - 1, hi);
        }
        if i < |n.kvs| {
          KidKeyWithin(n, h, i + 1, 0, hi);
        }
      }
    }
  }

  /** A node with two separators has room for any exchange. */
  lemma ManyFit(n: Tree, h: nat, k: seq<byte>, hi: nat)
    requires Shape(n, h) && |n.kvs| >= 2 && Slack(n, h, hi) && Within(Flat(n), 0, hi)
    ensures Fitting(n, h, FirstExchange(n, h, k))
  {
    hide Slack, Flat, Within, FirstExchange, UpdateFits, Used, Footprint;
    ExchangeWithin(n, h, k, hi);
    var x := FirstExchange(n, h, k);
    if x.Exchange? {
      SlackFits(n, h, x.i, x.e, hi);
    }
  }

  lemma FillChildPanicsIff(a: Alloc, n: Tree, h: nat, k: seq<byte>, hi: nat)
    requires h > 0 && Shape(n, h) && Fillable(n) && Sorted(Flat(n)) && !Holds(n.kvs, k)
    requires Slack(n, h, hi) && hi <= MAX_KV_LEN + 10
    ensures var r := FillChild(a, n, LB(n.kvs, k), h);
            && (r.st == Panic <==> !Fitting(n, h, FirstExchange(n, h, k)))
            && (r.st == Ok ==> && LB(r.t.kvs, k) < |r.t.kids| && Shape(r.t.kids[LB(r.t.kvs, k)], h - 1)
                               && Slack(r.t.kids[LB(r.t.kvs, k)], h - 1, hi))
  {
    hide Used, Small, Flat, Sorted, Less, LB, Within, Footprint, Slack, RotateRight, RotateLeft, Merge, UpdateFits;
    var i := LB(n.kvs, k);
    if !Underfull(n.kids[i]) {
      KidSlack(n, h, i, hi);
    } else if i > 0 && !Underfull(n.kids[i - 1]) {
      var b := Free(a, [n.kids[i - 1].page, n.kids[i].page]);
      RotationsRun(b, n, h, i - 1);
      RotatedRight(b, n, h, k);
      if RotateRight(b, n, i - 1, h).st == Ok {
        RotatedRightSlack(b, n, h, i - 1, hi);
      }
    } else if i < |n.kvs| && !Underfull(n.kids[i + 1]) {
      var b := Free(a, [n.kids[i].page, n.kids[i + 1].page]);
      RotationsRun(b, n, h, i);
      RotatedLeft(b, n, h, k);
      if RotateLeft(b, n, i, h).st == Ok {
        RotatedLeftSlack(b, n, h, i, hi);
      }
    } else {
      var j := if i > 0 then i - 1 else i;
      var b := Free(a, [n.kids[j].page, n.kids[j + 1].page]);
      MergedAt(b, n, h, k, j);
      MergedSlack(b, n, h, j, hi);
    }
  }

  /** With slack in every inner node, a deletion panics exactly when the one exchange it makes in the node it starts
      from does not fit. */
  lemma {:induction false} DeletePanicsIff(a: Alloc, n: Tree, h: nat, k: seq<byte>, hi: nat)
    requires Shape(n, h) && Fillable(n) && Sorted(Flat(n)) && Within(Flat(n), 0, hi) && hi <= MAX_KV_LEN + 10
    requires Slack(n, h, hi)
    ensures var x := FirstExchange(n, h, k);
            DeleteNode(a, n, h, k).st == Panic <==> x.Exchange? && !UpdateFits(n, x.i, x.e)
    decreases h, |n.kvs|, 2
  {
    hide Used, Small, Flat, Sorted, Less, LB, Within, Footprint, Slack, FillChild, UpdateFits, FirstExchange;
    if h > 0 {
      if Holds(n.kvs, k) {
        DeleteHerePanicsIff(a, n, h, k, hi);
      } else {
        var r := FillChild(a, n, LB(n.kvs, k), h);
        FillChildPanicsIff(a, n, h, k, hi);
        FillChildFlat(a, n, h, k);
        if r.st == Ok {
          DeleteBelowHasRoom(r.a, r.t, h, k, hi);
        }
      }
    }
  }

  lemma {:induction false} DeleteBelowHasRoom(a: Alloc, n: Tree, h: nat, k: seq<byte>, hi: nat)
    requires h > 0 && Shape(n, h) && Sorted(Flat(n)) && Within(Flat(n), 0, hi) && hi <= MAX_KV_LEN + 10
    requires !Holds(n.kvs, k) && |n.kids[LB(n.kvs, k)].kvs| >= 2 && Shape(n.kids[LB(n.kvs, k)], h - 1)
    requires Slack(n.kids[LB(n.kvs, k)], h - 1, hi)
    ensures DeleteBelow(a, n, h, k).st != Panic
    decreases h, |n.kvs|, 1
  {
    hide Used, Small, Flat, Sorted, Less, LB, Within, Footprint, Slack, DeleteNode, FirstExchange;
    var i := LB(n.kvs, k);
    KidSorted(n, i);
    PartsWithin(n, h, i, 0, hi);
    ManyFit(n.kids[i], h - 1, k, hi);
    DeletePanicsIff(a, n.kids[i], h - 1, k, hi);
  }

  lemma {:induction false} DeleteHerePanicsIff(a: Alloc, n: Tree, h: nat, k: seq<byte>, hi: nat)
    requires h > 0 && Shape(n, h) && Sorted(Flat(n)) && Within(Flat(n), 0, hi) && hi <= MAX_KV_LEN + 10
    requires Holds(n.kvs, k) && Slack(n, h, hi)
    ensures DeleteHere(a, n, h, k).st == Panic <==> !Fitting(n, h, FirstExchange(n, h, k))
    decreases h, |n.kvs|, 0
  {
    hide Used, Small, Flat, Sorted, Less, LB, Within, Footprint, Slack, DeleteBelow, UpdateFits;
    var i := LB(n.kvs, k);
    var left, right := n.kids[i], n.kids[i + 1];
    if !Underfull(left) {
      EndRoom(Free(a, [left.page]), n, h, i, LastKV(left, h - 1).key, hi);
    } else if !Underfull(right) {
      EndRoom(Free(a, [right.page]), n, h, i + 1, FirstKV(right, h - 1).key, hi);
    } else {
      var b := Free(a, [left.page, right.page]);
      var m := Merge(b, n, i, h);
      MergeFlat(b, n, i, h);
      KeysSorted(n);
      DropHeld(n.kvs, k);
      MergedSlack(b, n, h, i, hi);
      DeleteBelowHasRoom(m.a, m.t, h, k, hi);
    }
  }

  /** Taking an entry out of a child with two keys. */
  lemma {:induction false} EndRoom(a: Alloc, n: Tree, h: nat, i: nat, k: seq<byte>, hi: nat)
    requires h > 0 && Shape(n, h) && Sorted(Flat(n)) && Within(Flat(n), 0, hi) && hi <= MAX_KV_LEN + 10
    requires i <= |n.kvs| && !Underfull(n.kids[i]) && Slack(n, h, hi)
    ensures Shape(n.kids[i], h - 1) && DeleteNode(a, n.kids[i], h - 1, k).st != Panic
    decreases h, 0, 0
  {
    hide Used, Small, Flat, Sorted, Less, LB, Within, Footprint, Slack, DeleteNode, FirstExchange;
    KidSlack(n, h, i, hi);
    KidSorted(n, i);
    PartsWithin(n, h, i, 0, hi);
    ManyFit(n.kids[i], h - 1, k, hi);
    DeletePanicsIff(a, n.kids[i], h - 1, k, hi);
  }

  /** So only a node with a single separator can panic, and then because of a page number: without its separator the
      node is measured by the number of its right child, read as a size. */
  lemma DeletePanicsByPageNumber(a: Alloc, n: Tree, h: nat, k: seq<byte>, hi: nat)
    requires Shape(n, h) && Fillable(n) && Sorted(Flat(n)) && Within(Flat(n), 0, hi) && hi <= MAX_KV_LEN + 10
    requires Slack(n, h, hi)
    ensures var x := FirstExchange(n, h, k);
            DeleteNode(a, n, h, k).st == Panic <==>
              && x.Exchange? && |n.kvs| == 1
              && ((12 + n.kids[1].page % 0x1_0000) % 0x1_0000 + Footprint(x.e)) % 0x1_0000 >= PAGE_SIZE
  {
    hide Slack, Flat, Within, FirstExchange, Used, Footprint, Sorted, DeleteNode;
    DeletePanicsIff(a, n, h, k, hi);
    if |n.kvs| >= 2 {
      ManyFit(n, h, k, hi);
    }
  }

  /** A tree whose root has two keys, or whose pages have small numbers, is never in that case. */
  lemma DeleteHasRoom(a: Alloc, n: Tree, h: nat, k: seq<byte>, hi: nat)
    requires Shape(n, h) && Fillable(n) && Sorted(Flat(n)) && Within(Flat(n), 0, hi) && hi <= MAX_KV_LEN + 10
    requires Slack(n, h, hi) && (|n.kvs| == 1 && h > 0 ==> n.kids[1].page + hi < PAGE_SIZE - 12)
    ensures DeleteNode(a, n, h, k).st != Panic
  {
    hide Slack, Flat, Within, FirstExchange, Used, Footprint, Sorted, DeleteNode;
    DeletePanicsByPageNumber(a, n, h, k, hi);
    ExchangeWithin(n, h, k, hi);
  }

  /** Entries of one size leave slack everywhere. */
  lemma {:induction false} EqualSlack(n: Tree, h: nat, hi: nat)
    requires Shape(n, h) && Within(Flat(n), hi, hi)
    ensures Slack(n, h, hi)
    decreases h
  {
    hide Used, Small, Flat, Within, Footprint;
    if h > 0 {
      forall i | 0 <= i < |n.kvs|
        ensures Used(n.kvs) - Footprint(n.kvs[i]) + hi < PAGE_SIZE
      {
        PartsWithin(n, h, i, hi, hi);
      }
      forall i | 0 <= i < |n.kids|
        ensures Slack(n.kids[i], h - 1, hi)
      {
        PartsWithin(n, h, i, hi, hi);
        EqualSlack(n.kids[i], h - 1, hi);
      }
    }
  }

  // ---- the page number that stands in for a size

  /** A tree of three tiny entries whose right child lies on page p. */
  function TinyTree(p: nat): Tree {
    Tree(1, [KV([2], [])],
         [Tree(2, [KV([0], []), KV([1], [])], []), Tree(p, [KV([3], [])], [])])
  }

  lemma TinyFlat(p: nat)
    ensures Flat(TinyTree(p)) == [KV([0], []), KV([1], []), KV([2], []), KV([3], [])]
  {
    var t := TinyTree(p);
    var a, b, c, d: KV := KV([0], []), KV([1], []), KV([2], []), KV([3], []);
    assert Flat(t.kids[0]) == [a, b] && Flat(t.kids[1]) == [d];
    WeaveCons(t.kids[0], c, [], [t.kids[1]]);
    WeaveOne(t.kids[1]);
    assert [c] + [] == [c] && [t.kids[0]] + [t.kids[1]] == t.kids;
  }

  lemma TinyTreeShape(p: nat)
    ensures RootShape(TinyTree(p), 1) && Sorted(Flat(TinyTree(p))) && Within(Flat(TinyTree(p)), 11, 11)
    ensures Holds(Flat(TinyTree(p)), [3])
  {
    hide Flat, Used;
    var t := TinyTree(p);
    var a, b, c, d: KV := KV([0], []), KV([1], []), KV([2], []), KV([3], []);
    TinyFlat(p);
    UsedBounds([a, b], 0, 11);
    UsedBounds([c], 0, 11);
    UsedBounds([d], 0, 11);
    HoldsIndex([a, b, c, d], 3);
  }

  lemma TinyExchange(p: nat)
    requires Shape(TinyTree(p), 1)
    ensures FirstExchange(TinyTree(p), 1, [3]) == Exchange(0, KV([1], []))
  {
    hide Shape;
    assert LB([KV([2], [])], [3]) == 1;
  }

  /** The input: deleting a present key among four tiny entries panics or not depending only on the page its leaf
      lies on; page 4073 is the first where it does. */
  lemma TinyDeletePanics(a: Alloc, p: nat)
    ensures Shape(TinyTree(p), 1) && Fillable(TinyTree(p)) && Holds(Flat(TinyTree(p)), [3])
    ensures DeleteNode(a, TinyTree(p), 1, [3]).st == Panic <==>
            ((12 + p % 0x1_0000) % 0x1_0000 + 11) % 0x1_0000 >= PAGE_SIZE
    ensures p == 4073 ==> DeleteNode(a, TinyTree(p), 1, [3]).st == Panic
    ensures p < 4073 ==> DeleteNode(a, TinyTree(p), 1, [3]).st != Panic
  {
    hide Shape, Flat, Slack, FirstExchange, DeleteNode, Within;
    TinyTreeShape(p);
    TinyExchange(p);
    EqualSlack(TinyTree(p), 1, 11);
    WithinWider(Flat(TinyTree(p)), 11, 11);
    DeletePanicsByPageNumber(a, TinyTree(p), 1, [3], 11);
  }

  lemma WithinWider(s: seq<KV>, lo: nat, hi: nat)
    requires Within(s, lo, hi)
    ensures Within(s, 0, hi)
  {
  }
}
