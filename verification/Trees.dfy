/** The tree a page number stands for: each node with its page, its entries and its subtrees. */
module Trees {
  import opened Bytes
  import opened Entries
  import opened PageCodec
  import opened NodeManager

  datatype Tree = Tree(page: nat, kvs: seq<KV>, kids: seq<Tree>)

  /** Shape of a node at height h: all leaves at depth h below it, one child more than keys, small entries
      that fit their page, and at least one key in every node except perhaps this one. */
  ghost predicate Shape(t: Tree, h: nat)
    decreases h
  {
    && Small(t.kvs) && Used(t.kvs) < PAGE_SIZE
    && if h == 0 then t.kids == []
       else |t.kids| == |t.kvs| + 1 && forall i | 0 <= i < |t.kids| :: |t.kids[i].kvs| >= 1 && Shape(t.kids[i], h - 1)
  }

  /** In-order contents. */
  function Flat(t: Tree): seq<KV>
    decreases t, 1
  {
    if |t.kids| == |t.kvs| + 1 then Weave(t.kvs, t.kids) else t.kvs
  }

  /** Contents of subtrees with the separators between them. */
  function Weave(ks: seq<KV>, cs: seq<Tree>): seq<KV>
    requires |cs| == |ks| + 1
    decreases cs, 0
  {
    if |ks| == 0 then Flat(cs[0]) else Flat(cs[0]) + [ks[0]] + Weave(ks[1..], cs[1..])
  }

  /** What precedes child |a|: the subtrees before it, each followed by its separator. */
  function Pre(a: seq<KV>, as_: seq<Tree>): seq<KV>
    requires |a| == |as_|
  {
    if |a| == 0 then [] else Weave(a[..|a| - 1], as_) + [a[|a| - 1]]
  }

  /** What follows a child: separators, each followed by its subtree. */
  function Post(b: seq<KV>, bs: seq<Tree>): seq<KV>
    requires |b| == |bs|
  {
    if |b| == 0 then [] else [b[0]] + Weave(b[1..], bs)
  }

  lemma {:induction false} WeaveSplit(a: seq<KV>, as_: seq<Tree>, m: KV, b: seq<KV>, bs: seq<Tree>)
    requires |as_| == |a| + 1 && |bs| == |b| + 1
    ensures Weave(a + [m] + b, as_ + bs) == Weave(a, as_) + [m] + Weave(b, bs)
    decreases |a|
  {
    var ks, cs := a + [m] + b, as_ + bs;
    if |a| == 0 {
      assert ks[0] == m && ks[1..] == b && cs[0] == as_[0] && cs[1..] == bs;
    } else {
      assert ks[0] == a[0] && ks[1..] == a[1..] + [m] + b && cs[0] == as_[0] && cs[1..] == as_[1..] + bs;
      WeaveSplit(a[1..], as_[1..], m, b, bs);
    }
  }

  lemma WeaveOne(c: Tree)
    ensures Weave([], [c]) == Flat(c)
  {
  }

  lemma WeaveCons(c: Tree, m: KV, b: seq<KV>, bs: seq<Tree>)
    requires |bs| == |b| + 1
    ensures Weave([m] + b, [c] + bs) == Flat(c) + [m] + Weave(b, bs)
  {
    hide Flat;
    assert ([m] + b)[1..] == b && ([c] + bs)[1..] == bs;
  }

  lemma WeavePre(a: seq<KV>, as_: seq<Tree>, c: Tree)
    requires |as_| == |a|
    ensures Weave(a, as_ + [c]) == Pre(a, as_) + Flat(c)
  {
    hide Flat, Weave;
    WeaveOne(c);
    if |a| == 0 {
      assert as_ + [c] == [c];
    } else {
      var n := |a| - 1;
      assert a == a[..n] + [a[n]] + [];
      WeaveSplit(a[..n], as_, a[n], [], [c]);
    }
  }

  lemma WeavePost(c: Tree, b: seq<KV>, bs: seq<Tree>)
    requires |bs| == |b|
    ensures Weave(b, [c] + bs) == Flat(c) + Post(b, bs)
  {
    hide Flat, Weave;
    WeaveOne(c);
    if |b| == 0 {
      assert [c] + bs == [c];
    } else {
      assert b == [b[0]] + b[1..];
      WeaveCons(c, b[0], b[1..], bs);
    }
  }

  /** A node seen from one of its children. */
  lemma Focus(a: seq<KV>, as_: seq<Tree>, c: Tree, b: seq<KV>, bs: seq<Tree>)
    requires |as_| == |a| && |bs| == |b|
    ensures Weave(a + b, as_ + [c] + bs) == Pre(a, as_) + Flat(c) + Post(b, bs)
  {
    hide Flat, Weave, Pre;
    WeavePre(a, as_, c);
    if |b| == 0 {
      assert a + b == a && as_ + [c] + bs == as_ + [c];
    } else {
      assert a + b == a + [b[0]] + b[1..];
      WeaveSplit(a, as_ + [c], b[0], b[1..], bs);
    }
  }

  /** A node seen from two neighbouring children and the separator between them. */
  lemma Focus2(a: seq<KV>, as_: seq<Tree>, l: Tree, m: KV, r: Tree, b: seq<KV>, bs: seq<Tree>)
    requires |as_| == |a| && |bs| == |b|
    ensures Weave(a + [m] + b, as_ + [l, r] + bs) == Pre(a, as_) + Flat(l) + [m] + Flat(r) + Post(b, bs)
  {
    hide Flat, Weave, Pre, Post;
    WeavePre(a, as_, l);
    WeavePost(r, b, bs);
    WeaveSplit(a, as_ + [l], m, b, [r] + bs);
    assert as_ + [l, r] + bs == (as_ + [l]) + ([r] + bs);
  }

  /** The same, by index. */
  lemma FocusAt(t: Tree, i: nat)
    requires |t.kids| == |t.kvs| + 1 && i <= |t.kvs|
    ensures Flat(t) == Pre(t.kvs[..i], t.kids[..i]) + Flat(t.kids[i]) + Post(t.kvs[i..], t.kids[i + 1..])
  {
    hide Weave, Pre, Post;
    Focus(t.kvs[..i], t.kids[..i], t.kids[i], t.kvs[i..], t.kids[i + 1..]);
    assert t.kvs == t.kvs[..i] + t.kvs[i..] && t.kids == t.kids[..i] + [t.kids[i]] + t.kids[i + 1..];
  }

  lemma Focus2At(t: Tree, i: nat)
    requires |t.kids| == |t.kvs| + 1 && i < |t.kvs|
    ensures Flat(t) == Pre(t.kvs[..i], t.kids[..i]) + Flat(t.kids[i]) + [t.kvs[i]] + Flat(t.kids[i + 1]) +
                       Post(t.kvs[i + 1..], t.kids[i + 2..])
  {
    hide Weave, Pre, Post;
    Focus2(t.kvs[..i], t.kids[..i], t.kids[i], t.kvs[i], t.kids[i + 1], t.kvs[i + 1..], t.kids[i + 2..]);
    assert t.kvs == t.kvs[..i] + [t.kvs[i]] + t.kvs[i + 1..];
    assert t.kids == t.kids[..i] + [t.kids[i], t.kids[i + 1]] + t.kids[i + 2..];
  }

  lemma PreLast(a: seq<KV>, as_: seq<Tree>)
    requires |a| == |as_|
    ensures |a| == 0 ==> Pre(a, as_) == []
    ensures |a| > 0 ==> |Pre(a, as_)| > 0 && Pre(a, as_)[|Pre(a, as_)| - 1] == a[|a| - 1]
  {
  }

  lemma PostFirst(b: seq<KV>, bs: seq<Tree>)
    requires |b| == |bs|
    ensures |b| == 0 ==> Post(b, bs) == []
    ensures |b| > 0 ==> |Post(b, bs)| > 0 && Post(b, bs)[0] == b[0]
  {
  }

  lemma Ordered(x: seq<KV>, p: KV, y: seq<KV>, q: KV, z: seq<KV>)
    requires Sorted(x + [p] + y + [q] + z)
    ensures Less(p.key, q.key)
  {
    var s := x + [p] + y + [q] + z;
    assert s[|x|] == p && s[|x| + 1 + |y|] == q;
  }

  /** The separators of a sorted tree are sorted. */
  lemma KeysSorted(t: Tree)
    requires Sorted(Flat(t))
    ensures Sorted(t.kvs)
  {
    if |t.kids| == |t.kvs| + 1 {
      forall i, j | 0 <= i < j < |t.kvs|
        ensures Less(t.kvs[i].key, t.kvs[j].key)
      {
        KeysOrdered(t, i, j);
      }
    }
  }

  lemma KeysOrdered(t: Tree, i: nat, j: nat)
    requires Sorted(Flat(t)) && |t.kids| == |t.kvs| + 1 && i < j < |t.kvs|
    ensures Less(t.kvs[i].key, t.kvs[j].key)
  {
    hide Sorted, Less, Pre, Post;
    var a, as_, b, bs := t.kvs[..i], t.kids[..i + 1], t.kvs[i + 1..], t.kids[i + 1..];
    assert t.kvs == a + [t.kvs[i]] + b && t.kids == as_ + bs;
    WeaveSplit(a, as_, t.kvs[i], b, bs);
    var c, cs, d, ds := b[..j - i - 1], bs[..j - i], b[j - i..], bs[j - i..];
    assert b == c + [t.kvs[j]] + d && bs == cs + ds;
    WeaveSplit(c, cs, t.kvs[j], d, ds);
    assert Flat(t) == Weave(a, as_) + [t.kvs[i]] + Weave(c, cs) + [t.kvs[j]] + Weave(d, ds);
    Ordered(Weave(a, as_), t.kvs[i], Weave(c, cs), t.kvs[j], Weave(d, ds));
  }

  // ---- the pages of a tree

  /** Every page of the tree, as often as it occurs. */
  function Pages(t: Tree): (m: multiset<nat>)
    ensures t.page in m
    decreases t, 1
  {
    multiset{t.page} + KidPages(t.kids)
  }

  function KidPages(cs: seq<Tree>): multiset<nat>
    decreases cs, 0
  {
    if |cs| == 0 then multiset{} else Pages(cs[0]) + KidPages(cs[1..])
  }

  lemma {:induction false} KidPagesAppend(a: seq<Tree>, b: seq<Tree>)
    ensures KidPages(a + b) == KidPages(a) + KidPages(b)
    decreases |a|
  {
    if |a| == 0 {
      assert a + b == b;
    } else {
      assert (a + b)[1..] == a[1..] + b && (a + b)[0] == a[0];
      KidPagesAppend(a[1..], b);
    }
  }

  lemma KidPagesOne(c: Tree)
    ensures KidPages([c]) == Pages(c)
  {
    assert [c][1..] == [];
  }

  lemma KidPagesAround(a: seq<Tree>, c: Tree, b: seq<Tree>)
    ensures KidPages(a + [c] + b) == KidPages(a) + Pages(c) + KidPages(b)
  {
    hide Pages, KidPages;
    KidPagesAppend(a + [c], b);
    KidPagesAppend(a, [c]);
    KidPagesOne(c);
  }

  lemma KidPagesAround2(a: seq<Tree>, l: Tree, r: Tree, b: seq<Tree>)
    ensures KidPages(a + [l, r] + b) == KidPages(a) + Pages(l) + Pages(r) + KidPages(b)
  {
    hide Pages, KidPages;
    KidPagesAround(a, l, [r] + b);
    KidPagesAppend([r], b);
    KidPagesOne(r);
    assert a + [l, r] + b == a + [l] + ([r] + b);
  }

  lemma KidPagesAt(cs: seq<Tree>, i: nat)
    requires i < |cs|
    ensures KidPages(cs) == KidPages(cs[..i]) + Pages(cs[i]) + KidPages(cs[i + 1..])
    ensures Pages(cs[i]) <= KidPages(cs)
  {
    hide Pages, KidPages;
    KidPagesAround(cs[..i], cs[i], cs[i + 1..]);
    assert cs == cs[..i] + [cs[i]] + cs[i + 1..];
  }

  lemma KidPagesAt2(cs: seq<Tree>, i: nat)
    requires i + 1 < |cs|
    ensures KidPages(cs) == KidPages(cs[..i]) + Pages(cs[i]) + Pages(cs[i + 1]) + KidPages(cs[i + 2..])
  {
    hide Pages, KidPages;
    KidPagesAround2(cs[..i], cs[i], cs[i + 1], cs[i + 2..]);
    assert cs == cs[..i] + [cs[i], cs[i + 1]] + cs[i + 2..];
  }
}
