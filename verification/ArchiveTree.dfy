/** The in-memory ancestor (archive/btree.go): heap nodes, the trees they form, and what regrouping does to a tree. */
module ArchiveTree {
  import opened Bytes

  class Node {
    var keys: seq<u16>
    var children: seq<Node>
    const isLeaf: bool

    /** createNode */
    constructor (isLeaf: bool)
      ensures this.isLeaf == isLeaf && keys == [] && children == []
    {
      this.isLeaf := isLeaf;
      keys, children := [], [];
    }
  }

  /** A heap node with its fields and its subtrees, as values. */
  datatype Shadow = Shadow(node: Node, keys: seq<u16>, kids: seq<Shadow>)

  // ---- the nodes of a tree

  function Bag(s: Shadow): (m: multiset<Node>)
    ensures s.node in m
    decreases s, 1
  {
    multiset{s.node} + KidBag(s.kids)
  }

  function KidBag(cs: seq<Shadow>): multiset<Node>
    decreases cs, 0
  {
    if |cs| == 0 then multiset{} else Bag(cs[0]) + KidBag(cs[1..])
  }

  ghost function Nodes(s: Shadow): set<Node> {
    set x | x in Bag(s)
  }

  lemma {:induction false} KidBagAppend(a: seq<Shadow>, b: seq<Shadow>)
    ensures KidBag(a + b) == KidBag(a) + KidBag(b)
    decreases |a|
  {
    if |a| == 0 {
      assert a + b == b;
    } else {
      assert (a + b)[1..] == a[1..] + b && (a + b)[0] == a[0];
      KidBagAppend(a[1..], b);
    }
  }

  lemma KidBagOne(c: Shadow)
    ensures KidBag([c]) == Bag(c)
  {
    assert [c][1..] == [];
  }

  lemma KidBagAround(a: seq<Shadow>, c: Shadow, b: seq<Shadow>)
    ensures KidBag(a + [c] + b) == KidBag(a) + Bag(c) + KidBag(b)
  {
    hide Bag, KidBag;
    KidBagAppend(a + [c], b);
    KidBagAppend(a, [c]);
    KidBagOne(c);
  }

  lemma KidBagAround2(a: seq<Shadow>, l: Shadow, r: Shadow, b: seq<Shadow>)
    ensures KidBag(a + [l, r] + b) == KidBag(a) + Bag(l) + Bag(r) + KidBag(b)
  {
    hide Bag, KidBag;
    KidBagAround(a, l, [r] + b);
    KidBagAppend([r], b);
    KidBagOne(r);
    assert a + [l, r] + b == a + [l] + ([r] + b);
  }

  lemma KidBagAt(cs: seq<Shadow>, i: nat)
    requires i < |cs|
    ensures KidBag(cs) == KidBag(cs[..i]) + Bag(cs[i]) + KidBag(cs[i + 1..])
  {
    hide Bag, KidBag;
    KidBagAround(cs[..i], cs[i], cs[i + 1..]);
    assert cs == cs[..i] + [cs[i]] + cs[i + 1..];
  }

  lemma KidBagAt2(cs: seq<Shadow>, i: nat)
    requires i + 1 < |cs|
    ensures KidBag(cs) == KidBag(cs[..i]) + Bag(cs[i]) + Bag(cs[i + 1]) + KidBag(cs[i + 2..])
  {
    hide Bag, KidBag;
    KidBagAround2(cs[..i], cs[i], cs[i + 1], cs[i + 2..]);
    assert cs == cs[..i] + [cs[i], cs[i + 1]] + cs[i + 2..];
  }

  lemma BagIs(s: Shadow)
    ensures Bag(s) == multiset{s.node} + KidBag(s.kids)
  {
  }

  /** No heap node occurs twice. */
  ghost predicate Distinct(s: Shadow) {
    forall x | x in Bag(s) :: Bag(s)[x] == 1
  }

  lemma OneApart(s: Shadow, i: nat)
    requires Distinct(s) && i < |s.kids|
    ensures s.node !in Nodes(s.kids[i]) && Distinct(s.kids[i]) && Nodes(s.kids[i]) <= Nodes(s)
  {
    hide Bag, KidBag;
    BagIs(s);
    KidBagAt(s.kids, i);
    forall x | x in Bag(s.kids[i])
      ensures Bag(s.kids[i])[x] == 1 && x in Bag(s)
    {
      assert Bag(s)[x] >= Bag(s.kids[i])[x];
    }
  }

  lemma TwoApart(s: Shadow, i: nat, j: nat)
    requires Distinct(s) && i < j < |s.kids|
    ensures Nodes(s.kids[i]) !! Nodes(s.kids[j])
  {
    hide Bag, KidBag;
    BagIs(s);
    KidBagAt(s.kids, i);
    KidBagAt(s.kids[i + 1..], j - i - 1);
    assert s.kids[i + 1..][j - i - 1] == s.kids[j];
    forall x | x in Nodes(s.kids[i])
      ensures x !in Nodes(s.kids[j])
    {
      assert Bag(s)[x] >= Bag(s.kids[i])[x] + Bag(s.kids[j])[x];
    }
  }

  /** The subtrees of a node do not share heap nodes, and none contains the node itself. */
  lemma Apart(s: Shadow)
    requires Distinct(s)
    ensures forall i | 0 <= i < |s.kids| ::
              s.node !in Nodes(s.kids[i]) && Distinct(s.kids[i]) && Nodes(s.kids[i]) <= Nodes(s)
    ensures forall i, j | 0 <= i < j < |s.kids| :: Nodes(s.kids[i]) !! Nodes(s.kids[j])
  {
    hide Nodes, Distinct;
    forall i | 0 <= i < |s.kids|
      ensures s.node !in Nodes(s.kids[i]) && Distinct(s.kids[i]) && Nodes(s.kids[i]) <= Nodes(s)
    {
      OneApart(s, i);
    }
    forall i, j | 0 <= i < j < |s.kids|
      ensures Nodes(s.kids[i]) !! Nodes(s.kids[j])
    {
      TwoApart(s, i, j);
    }
  }

  function Refs(cs: seq<Shadow>): (ns: seq<Node>)
    ensures |ns| == |cs|
  {
    seq(|cs|, i requires 0 <= i < |cs| => cs[i].node)
  }

  /** The fields of the node are as the tree has them. */
  ghost predicate Fits(s: Shadow)
    reads s.node
  {
    s.node.keys == s.keys && s.node.isLeaf == (s.kids == []) && s.node.children == Refs(s.kids)
  }

  /** The heap holds the tree. */
  ghost predicate Matches(s: Shadow)
    reads Nodes(s)
    decreases s
  {
    && s.node in Nodes(s) && Fits(s)
    && forall i | 0 <= i < |s.kids| :: Nodes(s.kids[i]) <= Nodes(s) && Matches(s.kids[i])
  }

  // ---- shape and contents

  /** All leaves at depth h, one child more than keys, between t - 1 and 2t - 1 keys below the root. */
  ghost predicate Shape(s: Shadow, h: nat, t: nat)
    decreases h
  {
    && |s.keys| <= 2 * t - 1
    && if h == 0 then s.kids == []
       else |s.kids| == |s.keys| + 1 && forall i | 0 <= i < |s.kids| ::
            t - 1 <= |s.kids[i].keys| && Shape(s.kids[i], h - 1, t)
  }

  /** In-order keys. */
  function Flat(s: Shadow): seq<u16>
    decreases s, 1
  {
    if |s.kids| == |s.keys| + 1 then Weave(s.keys, s.kids) else s.keys
  }

  function Weave(ks: seq<u16>, cs: seq<Shadow>): seq<u16>
    requires |cs| == |ks| + 1
    decreases cs, 0
  {
    if |ks| == 0 then Flat(cs[0]) else Flat(cs[0]) + [ks[0]] + Weave(ks[1..], cs[1..])
  }

  function Pre(a: seq<u16>, as_: seq<Shadow>): seq<u16>
    requires |a| == |as_|
  {
    if |a| == 0 then [] else Weave(a[..|a| - 1], as_) + [a[|a| - 1]]
  }

  function Post(b: seq<u16>, bs: seq<Shadow>): seq<u16>
    requires |b| == |bs|
  {
    if |b| == 0 then [] else [b[0]] + Weave(b[1..], bs)
  }

  ghost predicate Ascending(s: seq<u16>) {
    forall i, j | 0 <= i < j < |s| :: s[i] < s[j]
  }

  lemma {:induction false} WeaveSplit(a: seq<u16>, as_: seq<Shadow>, m: u16, b: seq<u16>, bs: seq<Shadow>)
    requires |as_| == |a| + 1 && |bs| == |b| + 1
    ensures Weave(a + [m] + b, as_ + bs) == Weave(a, as_) + [m] + Weave(b, bs)
    decreases |a|
  {
    var ks, cs := a + [m] + b, as_ + bs;
    if |a| == 0 {
      assert ks[0] == m && ks[1..] == b && cs[0] == as_[0] && cs[1..] == bs;
    } else {
      assert ks[0] == a[0] && ks[1..] == a[1..] + [m] + b && cs[0] == as_[0] && cs[1..] == as_[1..] + bs;
      WeaveSplit(a[1..], as_[1..], m, b, bs);
    }
  }

  lemma WeavePre(a: seq<u16>, as_: seq<Shadow>, c: Shadow)
    requires |as_| == |a|
    ensures Weave(a, as_ + [c]) == Pre(a, as_) + Flat(c)
  {
    hide Flat;
    if |a| == 0 {
      assert as_ + [c] == [c];
    } else {
      var n := |a| - 1;
      assert a == a[..n] + [a[n]] + [];
      WeaveSplit(a[..n], as_, a[n], [], [c]);
    }
  }

  lemma Focus(a: seq<u16>, as_: seq<Shadow>, c: Shadow, b: seq<u16>, bs: seq<Shadow>)
    requires |as_| == |a| && |bs| == |b|
    ensures Weave(a + b, as_ + [c] + bs) == Pre(a, as_) + Flat(c) + Post(b, bs)
  {
    hide Flat, Weave, Pre;
    WeavePre(a, as_, c);
    if |b| == 0 {
      assert a + b == a && as_ + [c] + bs == as_ + [c];
    } else {
      assert a + b == a + [b[0]] + b[1..];
      WeaveSplit(a, as_ + [c], b[0], b[1..], bs);
    }
  }

  lemma Focus2(a: seq<u16>, as_: seq<Shadow>, l: Shadow, m: u16, r: Shadow, b: seq<u16>, bs: seq<Shadow>)
    requires |as_| == |a| && |bs| == |b|
    ensures Weave(a + [m] + b, as_ + [l, r] + bs) == Pre(a, as_) + (Flat(l) + [m] + Flat(r)) + Post(b, bs)
  {
    hide Flat, Weave, Pre, Post;
    WeavePre(a, as_, l);
    Focus([], [], r, b, bs);
    NoPre();
    assert [] + b == b && [] + [r] + bs == [r] + bs;
    WeaveSplit(a, as_ + [l], m, b, [r] + bs);
    assert as_ + [l, r] + bs == (as_ + [l]) + ([r] + bs);
    Regroup(Pre(a, as_), Flat(l), [m], Flat(r), Post(b, bs));
  }

  lemma Regroup(p: seq<u16>, x: seq<u16>, m: seq<u16>, y: seq<u16>, q: seq<u16>)
    ensures (p + x) + m + ([] + y + q) == p + (x + m + y) + q
  {
  }

  lemma NoPre()
    ensures Pre([], []) == []
  {
  }

  lemma FocusAt(s: Shadow, i: nat)
    requires |s.kids| == |s.keys| + 1 && i <= |s.keys|
    ensures Flat(s) == Pre(s.keys[..i], s.kids[..i]) + Flat(s.kids[i]) + Post(s.keys[i..], s.kids[i + 1..])
  {
    hide Weave, Pre, Post;
    Focus(s.keys[..i], s.kids[..i], s.kids[i], s.keys[i..], s.kids[i + 1..]);
    assert s.keys == s.keys[..i] + s.keys[i..] && s.kids == s.kids[..i] + [s.kids[i]] + s.kids[i + 1..];
  }

  lemma Focus2At(s: Shadow, i: nat)
    requires |s.kids| == |s.keys| + 1 && i < |s.keys|
    ensures Flat(s) == Pre(s.keys[..i], s.kids[..i]) + (Flat(s.kids[i]) + [s.keys[i]] + Flat(s.kids[i + 1])) +
                       Post(s.keys[i + 1..], s.kids[i + 2..])
  {
    hide Weave, Pre, Post;
    Focus2(s.keys[..i], s.kids[..i], s.kids[i], s.keys[i], s.kids[i + 1], s.keys[i + 1..], s.kids[i + 2..]);
    assert s.keys == s.keys[..i] + [s.keys[i]] + s.keys[i + 1..];
    assert s.kids == s.kids[..i] + [s.kids[i], s.kids[i + 1]] + s.kids[i + 2..];
  }

  lemma ReplacedKid(s: Shadow, i: nat, c: Shadow)
    requires |s.kids| == |s.keys| + 1 && i <= |s.keys|
    ensures Flat(s.(kids := s.kids[i := c])) ==
            Pre(s.keys[..i], s.kids[..i]) + Flat(c) + Post(s.keys[i..], s.kids[i + 1..])
  {
    hide Flat, Pre, Post;
    var u := s.(kids := s.kids[i := c]);
    FocusAt(u, i);
    assert u.kids[..i] == s.kids[..i] && u.kids[i + 1..] == s.kids[i + 1..];
  }

  lemma PreLast(a: seq<u16>, as_: seq<Shadow>)
    requires |a| == |as_|
    ensures |a| == 0 ==> Pre(a, as_) == []
    ensures |a| > 0 ==> |Pre(a, as_)| > 0 && Pre(a, as_)[|Pre(a, as_)| - 1] == a[|a| - 1]
  {
  }

  lemma PostFirst(b: seq<u16>, bs: seq<Shadow>)
    requires |b| == |bs|
    ensures |b| == 0 ==> Post(b, bs) == []
    ensures |b| > 0 ==> |Post(b, bs)| > 0 && Post(b, bs)[0] == b[0]
  {
  }

  /** The keys of a node are in order. */
  lemma KeysAscending(s: Shadow)
    requires Ascending(Flat(s))
    ensures Ascending(s.keys)
  {
    if |s.kids| == |s.keys| + 1 {
      forall i, j | 0 <= i < j < |s.keys|
        ensures s.keys[i] < s.keys[j]
      {
        KeysOrdered(s, i, j);
      }
    }
  }

  lemma KeysOrdered(s: Shadow, i: nat, j: nat)
    requires Ascending(Flat(s)) && |s.kids| == |s.keys| + 1 && i < j < |s.keys|
    ensures s.keys[i] < s.keys[j]
  {
    hide Pre, Post, Weave;
    FocusAt(s, j);
    var a, as_ := s.keys[..j], s.kids[..j];
    var p := Pre(a, as_);
    InPre(a, as_, i);
    var x :| 0 <= x < |p| && p[x] == s.keys[i];
    PostFirst(s.keys[j..], s.kids[j + 1..]);
    var q := Post(s.keys[j..], s.kids[j + 1..]);
    var f := Flat(s);
    assert f[x] == s.keys[i] && f[|p| + |Flat(s.kids[j])|] == q[0] == s.keys[j];
  }

  lemma InPre(a: seq<u16>, as_: seq<Shadow>, i: nat)
    requires |a| == |as_| && i < |a|
    ensures a[i] in Pre(a, as_)
  {
    hide Weave, Flat;
    var n := |a| - 1;
    if i < n {
      var b := a[..n];
      assert b == b[..i] + [b[i]] + b[i + 1..] && as_ == as_[..i + 1] + as_[i + 1..];
      WeaveSplit(b[..i], as_[..i + 1], b[i], b[i + 1..], as_[i + 1..]);
    }
  }

  // ---- where a key belongs

  /** calculateAppropriateIdx: how many keys are below k. */
  ghost predicate IsIndex(keys: seq<u16>, k: u16, i: nat) {
    i <= |keys| && (forall j | 0 <= j < i :: keys[j] < k) && (i < |keys| ==> k <= keys[i])
  }

  /** Everything before child i is below k and everything after it above, when k is not a key of the node. */
  lemma Bracket(s: Shadow, k: u16, i: nat)
    requires |s.kids| == |s.keys| + 1 && Ascending(Flat(s)) && IsIndex(s.keys, k, i) && k !in s.keys
    ensures var p, c, q := Pre(s.keys[..i], s.kids[..i]), Flat(s.kids[i]), Post(s.keys[i..], s.kids[i + 1..]);
            && Flat(s) == p + c + q && Ascending(c)
            && (|p| > 0 ==> p[|p| - 1] < k) && (|q| > 0 ==> k < q[0])
  {
    hide Flat, Pre, Post;
    FocusAt(s, i);
    PreLast(s.keys[..i], s.kids[..i]);
    PostFirst(s.keys[i..], s.kids[i + 1..]);
    Middle(Pre(s.keys[..i], s.kids[..i]), Flat(s.kids[i]), Post(s.keys[i..], s.kids[i + 1..]));
  }

  lemma Middle(p: seq<u16>, c: seq<u16>, q: seq<u16>)
    requires Ascending(p + c + q)
    ensures Ascending(p) && Ascending(c) && Ascending(q)
  {
    var s := p + c + q;
    assert forall i | 0 <= i < |p| :: s[i] == p[i];
    assert forall i | 0 <= i < |c| :: s[|p| + i] == c[i];
    assert forall i | 0 <= i < |q| :: s[|p| + |c| + i] == q[i];
  }

  ghost function SetOf(s: seq<u16>): set<u16> {
    set k | k in s
  }

  /** Replacing the middle part by one with the same elements, one more or one less keeps the order. */
  lemma MiddleReplaced(p: seq<u16>, c: seq<u16>, q: seq<u16>, c': seq<u16>, k: u16)
    requires Ascending(p + c + q) && Ascending(c') && SetOf(c') <= SetOf(c) + {k}
    requires (|p| > 0 ==> p[|p| - 1] < k) && (|q| > 0 ==> k < q[0])
    ensures Ascending(p + c' + q)
    ensures k !in p && k !in q
  {
    Middle(p, c, q);
    var s, u := p + c + q, p + c' + q;
    assert forall i | 0 <= i < |p| :: p[i] < k;
    assert forall i | 0 <= i < |q| :: k < q[i];
    forall x | x in c
      ensures forall i | 0 <= i < |p| :: p[i] < x
      ensures forall i | 0 <= i < |q| :: x < q[i]
    {
      var n :| 0 <= n < |c| && c[n] == x;
      assert s[|p| + n] == x;
      assert forall i | 0 <= i < |p| :: s[i] == p[i];
      assert forall i | 0 <= i < |q| :: s[|p| + |c| + i] == q[i];
    }
    forall i, j | 0 <= i < j < |u|
      ensures u[i] < u[j]
    {
      Between(p, c, q, c', k, i, j);
    }
  }

  lemma Between(p: seq<u16>, c: seq<u16>, q: seq<u16>, c': seq<u16>, k: u16, i: nat, j: nat)
    requires Ascending(p) && Ascending(q) && Ascending(c') && SetOf(c') <= SetOf(c) + {k}
    requires forall n | 0 <= n < |p| :: p[n] < k
    requires forall n | 0 <= n < |q| :: k < q[n]
    requires forall x | x in c :: forall n | 0 <= n < |p| :: p[n] < x
    requires forall x | x in c :: forall n | 0 <= n < |q| :: x < q[n]
    requires i < j < |p + c' + q|
    ensures (p + c' + q)[i] < (p + c' + q)[j]
  {
    var a, b := |p|, |p| + |c'|;
    if i < a && a <= j < b {
      assert c'[j - a] in SetOf(c');
    } else if a <= i < b && b <= j {
      assert c'[i - a] in SetOf(c');
    }
  }
}
