/** Searching a tree, and how high a tree can be. */
module CowSearch {
  import opened Bytes
  import opened Entries
  import opened PageCodec
  import opened NodeManager
  import opened Trees
  import opened CowNodes
  import opened CowTree
  import opened CowContents

  /** search */
  function Find(t: Tree, ghost h: nat, k: seq<byte>): Option<seq<byte>>
    requires Shape(t, h)
    decreases h
  {
    var i := LB(t.kvs, k);
    if i < |t.kvs| && t.kvs[i].key == k then Some(t.kvs[i].val)
    else if |t.kids| == 0 then None
    else Find(t.kids[i], h - 1, k)
  }

  /** The search agrees with lookup in the flattened tree. */
  lemma {:induction false} FindIsLookup(t: Tree, h: nat, k: seq<byte>)
    requires Shape(t, h) && Sorted(Flat(t))
    ensures Find(t, h, k) == Lookup(Flat(t), k)
    decreases h
  {
    hide Used, Small, LB, Weave, Less;
    var i := LB(t.kvs, k);
    if h > 0 {
      if Holds(t.kvs, k) {
        HeldLookup(t, k);
      } else {
        KidSorted(t, i);
        FindIsLookup(t.kids[i], h - 1, k);
        BelowHolds(t, k, t.kids[i]);
      }
    }
  }

  lemma HeldLookup(n: Tree, k: seq<byte>)
    requires |n.kids| == |n.kvs| + 1 && Sorted(Flat(n)) && Holds(n.kvs, k)
    ensures Lookup(Flat(n), k) == Some(n.kvs[LB(n.kvs, k)].val)
  {
    hide Flat, Sorted, Pre, Post, Lookup;
    var i := LB(n.kvs, k);
    Focus2At(n, i);
    var x, y := Pre(n.kvs[..i], n.kids[..i]) + Flat(n.kids[i]),
                Flat(n.kids[i + 1]) + Post(n.kvs[i + 1..], n.kids[i + 2..]);
    assert Flat(n) == x + [n.kvs[i]] + y;
    HoldsAt(x, n.kvs[i], y);
  }

  /** The pages of nodes on a way down from the root, each a child of the one before. */
  ghost predicate Way(t: Tree, h: nat, ps: seq<nat>)
    decreases h
  {
    && |ps| > 0 && ps[0] == t.page
    && (|ps| > 1 ==> h > 0 && exists i | 0 <= i < |t.kids| :: Way(t.kids[i], h - 1, ps[1..]))
  }

  lemma WayStarts(t: Tree, h: nat)
    ensures Way(t, h, [t.page])
  {
  }

  lemma WayOn(t: Tree, h: nat, i: nat, ps: seq<nat>)
    requires h > 0 && i < |t.kids| && Way(t.kids[i], h - 1, ps)
    ensures Way(t, h, [t.page] + ps)
  {
    assert ([t.page] + ps)[1..] == ps;
  }

  lemma {:induction false} WayIsShort(t: Tree, h: nat, ps: seq<nat>)
    requires Way(t, h, ps)
    ensures |ps| <= h + 1
    decreases h
  {
    if |ps| > 1 {
      var i :| 0 <= i < |t.kids| && Way(t.kids[i], h - 1, ps[1..]);
      WayIsShort(t.kids[i], h - 1, ps[1..]);
    }
  }

  function Pow2(n: nat): nat {
    if n == 0 then 1 else 2 * Pow2(n - 1)
  }

  /** The powers of two. */
  lemma {:induction false} Pow2Law(m: nat, n: nat)
    ensures Pow2(0) == 1 && Pow2(1) == 2 && Pow2(m + n) == Pow2(m) * Pow2(n)
    decreases m
  {
    if m > 0 {
      Pow2Law(m - 1, n);
      assert Pow2(m + n) == 2 * Pow2(m - 1 + n);
    }
  }

  /** A tree of height h with at least one key in every node holds at least 2^(h+1) - 1 entries. */
  lemma {:induction false} EnoughKeys(t: Tree, h: nat)
    requires Shape(t, h) && |t.kvs| >= 1
    ensures |Flat(t)| + 1 >= Pow2(h + 1)
    decreases h
  {
    hide Used, Small, Weave, Pre, Post;
    if h > 0 {
      EnoughKeys(t.kids[0], h - 1);
      EnoughKeys(t.kids[1], h - 1);
      Focus2At(t, 0);
    }
  }

  /** A way down has at most log2(n + 1) nodes in a tree with n entries, and one node in an empty tree. */
  lemma SearchIsLogarithmic(t: Tree, h: nat, ps: seq<nat>)
    requires RootShape(t, h) && Way(t, h, ps)
    ensures |Flat(t)| > 0 ==> Pow2(|ps|) <= |Flat(t)| + 1
    ensures |Flat(t)| == 0 ==> |ps| == 1
  {
    hide Used, Small, Weave;
    WayIsShort(t, h, ps);
    if |t.kvs| > 0 {
      EnoughKeys(t, h);
      Pow2Grows(|ps|, h + 1);
      Pow2Grows(1, h + 1);
    }
  }

  lemma {:induction false} Pow2Grows(m: nat, n: nat)
    requires m <= n
    ensures Pow2(m) <= Pow2(n)
    decreases n
  {
    if m < n {
      Pow2Grows(m, n - 1);
    }
  }

  // ---- inserting a key that is already there

  /** No inner node on the way holds k, once the children on the way have been split. */
  ghost predicate Reaches(a: Alloc, n: Tree, h: nat, e: KV)
    requires Shape(n, h) && (h > 0 ==> |n.kvs| >= 1) && Footprint(e) <= MAX_KV_LEN + 10
    decreases h
  {
    hide Used, Small, LB;
    h > 0 ==>
      var r := SplitChild(a, n, LB(n.kvs, e.key), h);
      r.st == Ok ==>
        var i := LB(r.t.kvs, e.key);
        !Holds(r.t.kvs, e.key) && Reaches(Free(r.a, [r.t.kids[i].page]), r.t.kids[i], h - 1, e)
  }

  /** An insertion stores a second entry for a key that is there. A search then finds the new value exactly when the
      descent met the key in no inner node; otherwise it still finds the old one. */
  lemma {:induction false} PresentKeySeenIff(a: Alloc, n: Tree, h: nat, e: KV)
    requires Shape(n, h) && (h > 0 ==> |n.kvs| >= 1) && Footprint(e) <= MAX_KV_LEN + 10 && Sorted(Flat(n))
    requires InsertNode(a, n, h, e).st == Ok
    ensures var t := InsertNode(a, n, h, e).t;
            && (Reaches(a, n, h, e) ==> Find(t, h, e.key) == Some(e.val))
            && (!Reaches(a, n, h, e) ==> Holds(Flat(n), e.key) && Find(t, h, e.key) == Lookup(Flat(n), e.key))
    decreases h
  {
    hide Used, Small, LB, Flat, Sorted, Less, SplitChild;
    if h == 0 {
      InsertedIsFirst(n.kvs, e);
    } else {
      var r := SplitChild(a, n, LB(n.kvs, e.key), h);
      SplitChildFlat(a, n, LB(n.kvs, e.key), h);
      var i := LB(r.t.kvs, e.key);
      var c := r.t.kids[i];
      if Holds(r.t.kvs, e.key) {
        HeldLookup(r.t, e.key);
        SeparatorHeld(r.t, e.key);
      } else {
        KidSorted(r.t, i);
        PresentKeySeenIff(Free(r.a, [c.page]), c, h - 1, e);
        BelowHolds(r.t, e.key, c);
      }
    }
  }

  lemma InsertedIsFirst(s: seq<KV>, e: KV)
    ensures LB(Ins(s, e), e.key) == LB(s, e.key) && Ins(s, e)[LB(s, e.key)] == e
  {
    var i := LB(s, e.key);
    LessTotal(e.key, e.key);
    LBUnique(Ins(s, e), e.key, i);
  }
}
