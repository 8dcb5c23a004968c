/** Splits, rotations, merges and replacements on in-memory trees: contents, shape and heap nodes before and after. */
module ArchiveSteps {
  import opened Bytes
  import opened ArchiveTree

  // ---- slices.Sort

  function Place(s: seq<u16>, k: u16): (r: seq<u16>)
    ensures multiset(r) == multiset(s) + multiset{k}
  {
    if |s| == 0 || k <= s[0] then [k] + s
    else
      assert s == [s[0]] + s[1..];
      [s[0]] + Place(s[1..], k)
  }

  /** slices.Sort, by its meaning: the ascending rearrangement. */
  function Sort(s: seq<u16>): (r: seq<u16>)
    ensures multiset(r) == multiset(s)
  {
    if |s| == 0 then []
    else
      var n := |s| - 1;
      assert s == s[..n] + [s[n]];
      Place(Sort(s[..n]), s[n])
  }

  ghost predicate Rising(s: seq<u16>) {
    forall i, j | 0 <= i < j < |s| :: s[i] <= s[j]
  }

  lemma HeadFirst(h: u16, r: seq<u16>)
    requires Rising(r) && forall i | 0 <= i < |r| :: h <= r[i]
    ensures Rising([h] + r)
  {
  }

  lemma {:induction false} PlaceRising(s: seq<u16>, k: u16)
    requires Rising(s)
    ensures Rising(Place(s, k))
  {
    if |s| > 0 && k > s[0] {
      hide Rising;
      TailRising(s);
      PlaceRising(s[1..], k);
      var r := Place(s[1..], k);
      forall i | 0 <= i < |r|
        ensures s[0] <= r[i]
      {
        assert r[i] in multiset(r);
        assert r[i] in s[1..] || r[i] == k;
      }
      HeadFirst(s[0], r);
    } else {
      HeadFirst(k, s);
    }
  }

  lemma TailRising(s: seq<u16>)
    requires Rising(s) && |s| > 0
    ensures Rising(s[1..]) && forall x | x in s[1..] :: s[0] <= x
  {
  }

  lemma {:induction false} SortRising(s: seq<u16>)
    ensures Rising(Sort(s))
  {
    if |s| > 0 {
      SortRising(s[..|s| - 1]);
      PlaceRising(Sort(s[..|s| - 1]), s[|s| - 1]);
    }
  }

  lemma TailBag(a: seq<u16>)
    requires |a| > 0
    ensures multiset(a) == multiset{a[0]} + multiset(a[1..])
  {
    assert a == [a[0]] + a[1..];
  }

  lemma SameHead(a: seq<u16>, b: seq<u16>)
    requires Rising(a) && Rising(b) && multiset(a) == multiset(b) && |a| > 0
    ensures |b| > 0 && a[0] == b[0]
  {
    assert a[0] in multiset(b);
    var i :| 0 <= i < |b| && b[i] == a[0];
    assert b[0] in multiset(a);
    var j :| 0 <= j < |a| && a[j] == b[0];
  }

  /** There is only one ascending rearrangement. */
  lemma {:induction false} RisingUnique(a: seq<u16>, b: seq<u16>)
    requires Rising(a) && Rising(b) && multiset(a) == multiset(b)
    ensures a == b
    decreases |a|
  {
    if |a| > 0 {
      SameHead(a, b);
      hide Rising;
      TailRising(a);
      TailRising(b);
      TailBag(a);
      TailBag(b);
      CancelHead(a[0], multiset(a[1..]), multiset(b[1..]));
      RisingUnique(a[1..], b[1..]);
      assert a == [a[0]] + a[1..] && b == [b[0]] + b[1..];
    } else {
      assert |b| == |multiset(b)|;
    }
  }

  lemma CancelHead(h: u16, m: multiset<u16>, n: multiset<u16>)
    requires multiset{h} + m == multiset{h} + n
    ensures m == n
  {
    assert m == (multiset{h} + m) - multiset{h};
    assert n == (multiset{h} + n) - multiset{h};
  }

  lemma SortIs(s: seq<u16>, r: seq<u16>)
    requires Ascending(r) && multiset(s) == multiset(r)
    ensures Sort(s) == r
  {
    SortRising(s);
    RisingUnique(Sort(s), r);
  }

  lemma SortAdds(a: seq<u16>, k: u16, b: seq<u16>)
    requires Ascending(a + [k] + b)
    ensures Sort((a + b) + [k]) == a + [k] + b
  {
    assert multiset((a + b) + [k]) == multiset(a + [k] + b);
    SortIs((a + b) + [k], a + [k] + b);
  }

  /** Overwriting an entry by the last one, cutting the last one off and sorting removes the entry. */
  lemma SortRemoves(s: seq<u16>, i: nat)
    requires Ascending(s) && i < |s|
    ensures var n := |s| - 1; Sort(s[i := s[n]][..n]) == s[..i] + s[i + 1..]
  {
    hide Sort;
    var n := |s| - 1;
    var r := s[..i] + s[i + 1..];
    GapAscending(s, i);
    if i == n {
      assert s[i := s[n]][..n] == r;
    } else {
      var a, b := s[..i], s[i + 1..n];
      assert s[i := s[n]][..n] == a + [s[n]] + b;
      assert r == a + b + [s[n]];
      assert multiset(a + [s[n]] + b) == multiset(a + b + [s[n]]);
    }
    SortIs(s[i := s[n]][..n], r);
  }

  lemma GapAscending(s: seq<u16>, i: nat)
    requires Ascending(s) && i < |s|
    ensures Ascending(s[..i] + s[i + 1..])
  {
    var r := s[..i] + s[i + 1..];
    forall x, y | 0 <= x < y < |r|
      ensures r[x] < r[y]
    {
      assert r[x] == s[if x < i then x else x + 1] && r[y] == s[if y < i then y else y + 1];
    }
  }

  // ---- sets of keys

  lemma SetOfParts(a: seq<u16>, b: seq<u16>)
    ensures SetOf(a + b) == SetOf(a) + SetOf(b)
  {
  }

  lemma SetOf3(a: seq<u16>, b: seq<u16>, c: seq<u16>)
    ensures SetOf(a + b + c) == SetOf(a) + SetOf(b) + SetOf(c)
  {
    SetOfParts(a + b, c);
    SetOfParts(a, b);
  }

  /** A smaller middle part keeps the order. */
  lemma MiddleShrunk(p: seq<u16>, c: seq<u16>, q: seq<u16>, c': seq<u16>)
    requires Ascending(p + c + q) && Ascending(c') && SetOf(c') <= SetOf(c)
    ensures Ascending(p + c' + q)
  {
    hide SetOf;
    var s, u := p + c + q, p + c' + q;
    Middle(p, c, q);
    var a, b := |p|, |p| + |c'|;
    forall i, j | 0 <= i < j < |u|
      ensures u[i] < u[j]
    {
      if i < a && b <= j {
        assert s[i] == u[i] && s[j - |c'| + |c|] == u[j];
      } else if i < a && a <= j < b {
        InMiddle(p, c, q, c', j - a);
        var n :| 0 <= n < |c| && c[n] == c'[j - a];
        assert s[i] == u[i] && s[a + n] == u[j];
      } else if a <= i < b && b <= j {
        InMiddle(p, c, q, c', i - a);
        var n :| 0 <= n < |c| && c[n] == c'[i - a];
        assert s[a + n] == u[i] && s[j - |c'| + |c|] == u[j];
      }
    }
  }

  lemma InMiddle(p: seq<u16>, c: seq<u16>, q: seq<u16>, c': seq<u16>, j: nat)
    requires SetOf(c') <= SetOf(c) && j < |c'|
    ensures exists n :: 0 <= n < |c| && c[n] == c'[j]
  {
    assert c'[j] in SetOf(c');
  }

  // ---- splitting

  function LeftPart(c: Shadow, n: Node): Shadow {
    var m := |c.keys| / 2;
    Shadow(n, c.keys[..m], if |c.kids| == |c.keys| + 1 then c.kids[..m + 1] else [])
  }

  function RightPart(c: Shadow, n: Node): Shadow
    requires |c.keys| > 0
  {
    var m := |c.keys| / 2;
    Shadow(n, c.keys[m + 1..], if |c.kids| == |c.keys| + 1 then c.kids[m + 1..] else [])
  }

  function MedianOf(c: Shadow): u16
    requires |c.keys| > 0
  {
    c.keys[|c.keys| / 2]
  }

  lemma PartsShape(c: Shadow, h: nat, t: nat, n: Node, r: Node)
    requires Shape(c, h, t) && |c.keys| == 2 * t - 1 && t >= 2
    ensures var a, b := LeftPart(c, n), RightPart(c, r);
            && Shape(a, h, t) && Shape(b, h, t) && |a.keys| == |b.keys| == t - 1
            && Flat(c) == Flat(a) + [MedianOf(c)] + Flat(b)
  {
    hide Weave;
    var m := |c.keys| / 2;
    assert c.keys == c.keys[..m] + [c.keys[m]] + c.keys[m + 1..];
    if h > 0 {
      assert c.kids == c.kids[..m + 1] + c.kids[m + 1..];
      WeaveSplit(c.keys[..m], c.kids[..m + 1], c.keys[m], c.keys[m + 1..], c.kids[m + 1..]);
    }
  }

  lemma NoKids()
    ensures KidBag([]) == multiset{}
  {
  }

  lemma PartsBag(c: Shadow, h: nat, t: nat, n: Node, r: Node)
    requires Shape(c, h, t) && |c.keys| > 0
    ensures Bag(LeftPart(c, n)) + Bag(RightPart(c, r)) == multiset{n} + multiset{r} + KidBag(c.kids)
  {
    hide Bag, KidBag;
    var m := |c.keys| / 2;
    BagIs(LeftPart(c, n));
    BagIs(RightPart(c, r));
    NoKids();
    if h > 0 {
      assert c.kids == c.kids[..m + 1] + c.kids[m + 1..];
      KidBagAppend(c.kids[..m + 1], c.kids[m + 1..]);
    }
  }

  /** s with child i replaced by l, m, r. */
  function Spliced(s: Shadow, i: nat, l: Shadow, m: u16, r: Shadow): Shadow
    requires i <= |s.keys| && i < |s.kids|
  {
    Shadow(s.node, s.keys[..i] + [m] + s.keys[i..], s.kids[..i] + [l, r] + s.kids[i + 1..])
  }

  lemma SplicedFacts(s: Shadow, h: nat, t: nat, i: nat, l: Shadow, m: u16, r: Shadow)
    requires h > 0 && Shape(s, h, t) && i <= |s.keys| < 2 * t - 1
    requires Shape(l, h - 1, t) && Shape(r, h - 1, t) && |l.keys| >= t - 1 && |r.keys| >= t - 1
    requires Flat(s.kids[i]) == Flat(l) + [m] + Flat(r)
    ensures var u := Spliced(s, i, l, m, r);
            && Shape(u, h, t) && Flat(u) == Flat(s) && Bag(u) + Bag(s.kids[i]) == Bag(s) + Bag(l) + Bag(r)
  {
    hide Flat, Weave, Pre, Post, Bag, KidBag;
    var u := Spliced(s, i, l, m, r);
    FocusAt(s, i);
    Focus2(s.keys[..i], s.kids[..i], l, m, r, s.keys[i..], s.kids[i + 1..]);
    WeaveIs(u);
    KidBagAt(s.kids, i);
    KidBagAround2(s.kids[..i], l, r, s.kids[i + 1..]);
    BagIs(s);
    BagIs(u);
  }

  lemma WeaveIs(s: Shadow)
    requires |s.kids| == |s.keys| + 1
    ensures Flat(s) == Weave(s.keys, s.kids)
  {
  }

  // ---- rotations

  function WithPair(s: Shadow, i: nat, l: Shadow, m: u16, r: Shadow): Shadow
    requires |s.kids| == |s.keys| + 1 && i < |s.keys|
  {
    Shadow(s.node, s.keys[i := m], s.kids[..i] + [l, r] + s.kids[i + 2..])
  }

  lemma WithPairFacts(s: Shadow, h: nat, t: nat, i: nat, l: Shadow, m: u16, r: Shadow)
    requires h > 0 && Shape(s, h, t) && i < |s.keys|
    requires Shape(l, h - 1, t) && Shape(r, h - 1, t) && |l.keys| >= t - 1 && |r.keys| >= t - 1
    requires Flat(s.kids[i]) + [s.keys[i]] + Flat(s.kids[i + 1]) == Flat(l) + [m] + Flat(r)
    requires Bag(l) + Bag(r) == Bag(s.kids[i]) + Bag(s.kids[i + 1])
    ensures var u := WithPair(s, i, l, m, r); Shape(u, h, t) && Flat(u) == Flat(s) && Bag(u) == Bag(s)
  {
    hide Flat, Weave, Pre, Post, Bag, KidBag;
    var u := WithPair(s, i, l, m, r);
    Focus2At(s, i);
    Focus2(s.keys[..i], s.kids[..i], l, m, r, s.keys[i + 1..], s.kids[i + 2..]);
    assert s.keys[i := m] == s.keys[..i] + [m] + s.keys[i + 1..];
    WeaveIs(u);
    KidBagAt2(s.kids, i);
    KidBagAround2(s.kids[..i], l, r, s.kids[i + 2..]);
    BagIs(s);
    BagIs(u);
    SwapPair(KidBag(s.kids[..i]), Bag(l), Bag(r), Bag(s.kids[i]), Bag(s.kids[i + 1]), KidBag(s.kids[i + 2..]));
  }

  lemma SwapPair(a: multiset<Node>, l: multiset<Node>, r: multiset<Node>, l': multiset<Node>, r': multiset<Node>,
                 c: multiset<Node>)
    requires l + r == l' + r'
    ensures a + l + r + c == a + l' + r' + c
  {
    assert a + l + r + c == a + (l + r) + c && a + l' + r' + c == a + (l' + r') + c;
  }

  function DropLast(l: Shadow): Shadow
    requires |l.keys| > 0
  {
    var n := |l.keys| - 1;
    Shadow(l.node, l.keys[..n], if |l.kids| > 0 then l.kids[..|l.kids| - 1] else [])
  }

  function DropFirst(r: Shadow): Shadow
    requires |r.keys| > 0
  {
    Shadow(r.node, r.keys[1..], if |r.kids| > 0 then r.kids[1..] else [])
  }

  function Prepended(l: Shadow, k: u16, c: Shadow): Shadow {
    Shadow(c.node, [k] + c.keys, if |l.kids| > 0 then [l.kids[|l.kids| - 1]] + c.kids else c.kids)
  }

  function Appended(c: Shadow, k: u16, r: Shadow): Shadow {
    Shadow(c.node, c.keys + [k], if |r.kids| > 0 then c.kids + [r.kids[0]] else c.kids)
  }

  lemma RotateRightFacts(l: Shadow, k: u16, c: Shadow, h: nat, t: nat)
    requires Shape(l, h, t) && Shape(c, h, t) && |l.keys| >= t >= 2 && t - 1 == |c.keys|
    ensures var l', c' := DropLast(l), Prepended(l, k, c);
            && Shape(l', h, t) && Shape(c', h, t) && |l'.keys| >= t - 1 && |c'.keys| == t
            && Flat(l) + [k] + Flat(c) == Flat(l') + [l.keys[|l.keys| - 1]] + Flat(c')
            && Bag(l') + Bag(c') == Bag(l) + Bag(c)
  {
    hide Weave, Bag, KidBag;
    var n := |l.keys| - 1;
    RotateRightBag(l, k, c);
    assert l.keys == l.keys[..n] + [l.keys[n]] + [];
    if h > 0 {
      var g := l.kids[n + 1];
      assert l.kids == l.kids[..n + 1] + [g];
      WeaveSplit(l.keys[..n], l.kids[..n + 1], l.keys[n], [], [g]);
      WeaveSplit([], [g], k, c.keys, c.kids);
      assert [] + [k] + c.keys == [k] + c.keys;
      WeaveOne(g);
    }
  }

  lemma RotateRightBag(l: Shadow, k: u16, c: Shadow)
    requires |l.keys| > 0
    ensures Bag(DropLast(l)) + Bag(Prepended(l, k, c)) == Bag(l) + Bag(c)
  {
    hide Bag, KidBag;
    BagIs(l);
    BagIs(c);
    BagIs(DropLast(l));
    BagIs(Prepended(l, k, c));
    if |l.kids| > 0 {
      var n := |l.kids| - 1;
      assert l.kids == l.kids[..n] + [l.kids[n]];
      KidBagAppend(l.kids[..n], [l.kids[n]]);
      KidBagAppend([l.kids[n]], c.kids);
    }
  }

  lemma WeaveOne(c: Shadow)
    ensures Weave([], [c]) == Flat(c)
  {
  }

  lemma RotateLeftFacts(c: Shadow, k: u16, r: Shadow, h: nat, t: nat)
    requires Shape(r, h, t) && Shape(c, h, t) && |r.keys| >= t >= 2 && t - 1 == |c.keys|
    ensures var c', r' := Appended(c, k, r), DropFirst(r);
            && Shape(r', h, t) && Shape(c', h, t) && |r'.keys| >= t - 1 && |c'.keys| == t
            && Flat(c) + [k] + Flat(r) == Flat(c') + [r.keys[0]] + Flat(r')
            && Bag(c') + Bag(r') == Bag(c) + Bag(r)
  {
    hide Weave, Bag, KidBag;
    var c', r' := Appended(c, k, r), DropFirst(r);
    BagIs(r);
    BagIs(c);
    BagIs(r');
    BagIs(c');
    assert r.keys == [] + [r.keys[0]] + r.keys[1..];
    if h > 0 {
      var g := r.kids[0];
      assert r.kids == [g] + r.kids[1..];
      WeaveSplit([], [g], r.keys[0], r.keys[1..], r.kids[1..]);
      WeaveSplit(c.keys, c.kids, k, [], [g]);
      assert c.keys + [k] + [] == c.keys + [k];
      WeaveOne(g);
      KidBagAppend([g], r.kids[1..]);
      KidBagAppend(c.kids, [g]);
    }
  }

  // ---- merging

  function Joined(l: Shadow, k: u16, r: Shadow, n: Node): Shadow {
    Shadow(n, l.keys + [k] + r.keys, l.kids + r.kids)
  }

  function Fused(s: Shadow, i: nat, n: Node): Shadow
    requires |s.kids| == |s.keys| + 1 && i < |s.keys|
  {
    Shadow(s.node, s.keys[..i] + s.keys[i + 1..],
           s.kids[..i] + [Joined(s.kids[i], s.keys[i], s.kids[i + 1], n)] + s.kids[i + 2..])
  }

  lemma FusedFacts(s: Shadow, h: nat, t: nat, i: nat, n: Node)
    requires h > 0 && Shape(s, h, t) && i < |s.keys| && t >= 2
    requires |s.kids[i].keys| == t - 1 == |s.kids[i + 1].keys|
    requires n == s.kids[i].node || n == s.kids[i + 1].node
    ensures var u := Fused(s, i, n);
            && Shape(u, h, t) && Flat(u) == Flat(s) && Bag(u) <= Bag(s)
            && u.kids[i] == Joined(s.kids[i], s.keys[i], s.kids[i + 1], n) && |u.kids[i].keys| == 2 * t - 1
  {
    hide Flat, Weave, Pre, Post, Bag, KidBag;
    var l, k, r := s.kids[i], s.keys[i], s.kids[i + 1];
    var j, u := Joined(l, k, r, n), Fused(s, i, n);
    assert Shape(l, h - 1, t) && Shape(r, h - 1, t);
    JoinedFacts(l, k, r, n, h - 1, t);
    Focus2At(s, i);
    Focus(s.keys[..i], s.kids[..i], j, s.keys[i + 1..], s.kids[i + 2..]);
    WeaveIs(u);
    KidBagAt2(s.kids, i);
    KidBagAround(s.kids[..i], j, s.kids[i + 2..]);
    BagIs(s);
    BagIs(u);
  }

  lemma JoinedFacts(l: Shadow, k: u16, r: Shadow, n: Node, h: nat, t: nat)
    requires Shape(l, h, t) && Shape(r, h, t) && |l.keys| == t - 1 == |r.keys| && t >= 2
    requires n == l.node || n == r.node
    ensures var j := Joined(l, k, r, n);
            Shape(j, h, t) && Flat(j) == Flat(l) + [k] + Flat(r) && Bag(j) <= Bag(l) + Bag(r)
  {
    hide Weave, Bag, KidBag;
    JoinedBag(l, k, r, n);
    if h > 0 {
      WeaveSplit(l.keys, l.kids, k, r.keys, r.kids);
    }
  }

  lemma JoinedBag(l: Shadow, k: u16, r: Shadow, n: Node)
    requires n == l.node || n == r.node
    ensures Bag(Joined(l, k, r, n)) <= Bag(l) + Bag(r)
  {
    hide Bag, KidBag;
    BagIs(l);
    BagIs(r);
    BagIs(Joined(l, k, r, n));
    KidBagAppend(l.kids, r.kids);
  }

  lemma SmallerDistinct(s: Shadow, u: Shadow)
    requires Distinct(s) && Bag(u) <= Bag(s)
    ensures Distinct(u) && Nodes(u) <= Nodes(s)
  {
    hide Bag;
    forall x | x in Bag(u)
      ensures Bag(u)[x] == 1 && x in Bag(s)
    {
      assert Bag(u)[x] <= Bag(s)[x];
    }
  }

  // ---- replacing a child by one with other contents

  /** Child i, on the search path of k, now holds what it held plus or minus k. */
  lemma DescentFacts(s: Shadow, h: nat, t: nat, i: nat, c: Shadow, k: u16)
    requires h > 0 && Shape(s, h, t) && Ascending(Flat(s)) && IsIndex(s.keys, k, i) && k !in s.keys
    requires Shape(c, h - 1, t) && |c.keys| >= t - 1 && Ascending(Flat(c))
    requires SetOf(Flat(c)) == SetOf(Flat(s.kids[i])) + {k} || SetOf(Flat(c)) == SetOf(Flat(s.kids[i])) - {k}
    ensures var u := s.(kids := s.kids[i := c]);
            && Shape(u, h, t) && Ascending(Flat(u))
            && SetOf(Flat(u)) == if k in SetOf(Flat(c)) then SetOf(Flat(s)) + {k} else SetOf(Flat(s)) - {k}
    ensures k in SetOf(Flat(s)) <==> k in SetOf(Flat(s.kids[i]))
  {
    hide Flat, Pre, Post;
    Bracket(s, k, i);
    ReplacedKid(s, i, c);
    var p, f, q := Pre(s.keys[..i], s.kids[..i]), Flat(s.kids[i]), Post(s.keys[i..], s.kids[i + 1..]);
    MiddleReplaced(p, f, q, Flat(c), k);
    SetOf3(p, f, q);
    SetOf3(p, Flat(c), q);
  }

  lemma ReplacedBag(s: Shadow, i: nat, c: Shadow)
    requires i < |s.kids|
    ensures Bag(s.(kids := s.kids[i := c])) + Bag(s.kids[i]) == Bag(s) + Bag(c)
  {
    hide Bag, KidBag;
    var u := s.(kids := s.kids[i := c]);
    BagIs(s);
    BagIs(u);
    KidBagAt(s.kids, i);
    KidBagAt(u.kids, i);
    assert u.kids[..i] == s.kids[..i] && u.kids[i + 1..] == s.kids[i + 1..];
  }

  /** Nodes that are new or were in the child stay apart from the rest of the tree. */
  lemma ReplacedDistinct(s: Shadow, i: nat, c: Shadow, old_: set<Node>)
    requires Distinct(s) && i < |s.kids| && Distinct(c) && Nodes(s) <= old_
    requires forall x | x in Nodes(c) :: x in Nodes(s.kids[i]) || x !in old_
    ensures Distinct(s.(kids := s.kids[i := c]))
    ensures forall x | x in Nodes(s.(kids := s.kids[i := c])) :: x in Nodes(s) || x in Nodes(c)
  {
    hide Bag, KidBag;
    var u := s.(kids := s.kids[i := c]);
    ReplacedBag(s, i, c);
    OneApart(s, i);
    forall x | x in Bag(u)
      ensures Bag(u)[x] == 1 && (x in Bag(s) || x in Bag(c))
    {
      assert (Bag(u) + Bag(s.kids[i]))[x] == (Bag(s) + Bag(c))[x];
      assert x in Bag(c) ==> x in Nodes(c);
      assert x in Bag(s) ==> x in Nodes(s);
      assert x in Bag(s.kids[i]) <==> x in Nodes(s.kids[i]);
      BagOfKid(s, i, x);
    }
  }

  lemma BagOfKid(s: Shadow, i: nat, x: Node)
    requires i < |s.kids|
    ensures Bag(s.kids[i])[x] <= Bag(s)[x]
  {
    hide Bag, KidBag;
    BagIs(s);
    KidBagAt(s.kids, i);
  }

  // ---- replacing a separator by its predecessor or successor

  ghost predicate LastOf(s: Shadow, e: u16) {
    |Flat(s)| > 0 && Flat(s)[|Flat(s)| - 1] == e
  }

  ghost predicate FirstOf(s: Shadow, e: u16) {
    |Flat(s)| > 0 && Flat(s)[0] == e
  }

  lemma LastDown(s: Shadow, h: nat, t: nat, e: u16)
    requires h > 0 && Shape(s, h, t) && LastOf(s.kids[|s.keys|], e)
    ensures LastOf(s, e)
  {
    hide Flat, Pre, Post;
    FocusAt(s, |s.keys|);
    PostFirst(s.keys[|s.keys|..], s.kids[|s.keys| + 1..]);
  }

  lemma FirstDown(s: Shadow, h: nat, t: nat, e: u16)
    requires h > 0 && Shape(s, h, t) && FirstOf(s.kids[0], e)
    ensures FirstOf(s, e)
  {
    hide Flat, Pre, Post;
    FocusAt(s, 0);
    PreLast(s.keys[..0], s.kids[..0]);
  }

  /** Key i gives way to e, the end of child i or i + 1, and e leaves the child. */
  lemma BorrowFacts(s: Shadow, h: nat, t: nat, i: nat, j: nat, e: u16, c: Shadow)
    requires h > 0 && Shape(s, h, t) && Ascending(Flat(s)) && i < |s.keys|
    requires (j == i && LastOf(s.kids[j], e)) || (j == i + 1 && FirstOf(s.kids[j], e))
    requires Shape(c, h - 1, t) && |c.keys| >= t - 1 && Ascending(Flat(c))
    requires SetOf(Flat(c)) == SetOf(Flat(s.kids[j])) - {e}
    ensures var u := Shadow(s.node, s.keys[i := e], s.kids[j := c]);
            Shape(u, h, t) && Ascending(Flat(u)) && SetOf(Flat(u)) == SetOf(Flat(s)) - {s.keys[i]}
  {
    hide Flat, Pre, Post;
    var u := Shadow(s.node, s.keys[i := e], s.kids[j := c]);
    var p, q := Pre(s.keys[..i], s.kids[..i]), Post(s.keys[i + 1..], s.kids[i + 2..]);
    Focus2At(s, i);
    Focus2At(u, i);
    assert u.keys[..i] == s.keys[..i] && u.kids[..i] == s.kids[..i];
    assert u.keys[i + 1..] == s.keys[i + 1..] && u.kids[i + 2..] == s.kids[i + 2..];
    BorrowOrder(p, Flat(s.kids[i]), s.keys[i], Flat(s.kids[i + 1]), q, j == i, e, Flat(c));
  }

  lemma BorrowOrder(p: seq<u16>, x: seq<u16>, k: u16, y: seq<u16>, q: seq<u16>, left: bool, e: u16, c: seq<u16>)
    requires Ascending(p + (x + [k] + y) + q) && Ascending(c)
    requires if left then |x| > 0 && e == x[|x| - 1] && SetOf(c) == SetOf(x) - {e}
             else |y| > 0 && e == y[0] && SetOf(c) == SetOf(y) - {e}
    ensures var m := if left then c + [e] + y else x + [e] + c;
            Ascending(p + m + q) && SetOf(p + m + q) == SetOf(p + (x + [k] + y) + q) - {k}
  {
    hide Ascending, SetOf;
    var m, m' := x + [k] + y, if left then c + [e] + y else x + [e] + c;
    Middle(p, m, q);
    if left {
      EndTaken(x, k, y, c, e);
    } else {
      StartTaken(x, k, y, c, e);
    }
    MiddleShrunk(p, m, q, m');
    SetOf3(p, m, q);
    SetOf3(p, m', q);
    NotOutside(p, x, k, y, q);
  }

  lemma NotOutside(p: seq<u16>, x: seq<u16>, k: u16, y: seq<u16>, q: seq<u16>)
    requires Ascending(p + (x + [k] + y) + q)
    ensures k !in SetOf(p) && k !in SetOf(q)
  {
    var s := p + (x + [k] + y) + q;
    var n := |p| + |x|;
    assert s[n] == k;
    assert forall i | 0 <= i < |p| :: s[i] == p[i];
    assert forall i | 0 <= i < |q| :: s[n + 1 + |y| + i] == q[i];
  }

  lemma EndTaken(x: seq<u16>, k: u16, y: seq<u16>, x': seq<u16>, e: u16)
    requires Ascending(x + [k] + y) && |x| > 0 && e == x[|x| - 1] && Ascending(x') && SetOf(x') == SetOf(x) - {e}
    ensures Ascending(x' + [e] + y) && SetOf(x' + [e] + y) == SetOf(x + [k] + y) - {k}
  {
    hide SetOf, Ascending;
    Around(x, k, y);
    SetOf3(x, [k], y);
    SetOf3(x', [e], y);
    SetOfOne(k);
    SetOfOne(e);
    LastIn(x, e);
    Outside(x, k, y);
    BelowEnd(x, x', e);
    assert e < k;
    Pieces(x', e, y);
  }

  lemma StartTaken(x: seq<u16>, k: u16, y: seq<u16>, y': seq<u16>, e: u16)
    requires Ascending(x + [k] + y) && |y| > 0 && e == y[0] && Ascending(y') && SetOf(y') == SetOf(y) - {e}
    ensures Ascending(x + [e] + y') && SetOf(x + [e] + y') == SetOf(x + [k] + y) - {k}
  {
    hide SetOf, Ascending;
    Around(x, k, y);
    SetOf3(x, [k], y);
    SetOf3(x, [e], y');
    SetOfOne(k);
    SetOfOne(e);
    FirstIn(y, e);
    Outside(x, k, y);
    AboveStart(y, y', e);
    assert k < e;
    Pieces(x, e, y');
  }

  lemma SetOfOne(k: u16)
    ensures SetOf([k]) == {k}
  {
  }

  lemma LastIn(x: seq<u16>, e: u16)
    requires |x| > 0 && e == x[|x| - 1]
    ensures e in SetOf(x)
  {
  }

  lemma FirstIn(y: seq<u16>, e: u16)
    requires |y| > 0 && e == y[0]
    ensures e in SetOf(y)
  {
  }

  lemma Around(x: seq<u16>, k: u16, y: seq<u16>)
    requires Ascending(x + [k] + y)
    ensures Ascending(x) && Ascending(y)
    ensures forall i | 0 <= i < |x| :: x[i] < k
    ensures forall i | 0 <= i < |y| :: k < y[i]
  {
    var s := x + [k] + y;
    Middle(x, [k], y);
    assert s[|x|] == k;
    assert forall i | 0 <= i < |x| :: s[i] == x[i];
    assert forall i | 0 <= i < |y| :: s[|x| + 1 + i] == y[i];
  }

  lemma Outside(x: seq<u16>, k: u16, y: seq<u16>)
    requires forall i | 0 <= i < |x| :: x[i] < k
    requires forall i | 0 <= i < |y| :: k < y[i]
    ensures k !in SetOf(x) && k !in SetOf(y)
  {
  }

  lemma BelowEnd(x: seq<u16>, x': seq<u16>, e: u16)
    requires Ascending(x) && |x| > 0 && e == x[|x| - 1] && SetOf(x') == SetOf(x) - {e}
    ensures forall i | 0 <= i < |x'| :: x'[i] < e
  {
    forall i | 0 <= i < |x'|
      ensures x'[i] < e
    {
      assert x'[i] in SetOf(x');
      var j :| 0 <= j < |x| && x[j] == x'[i];
    }
  }

  lemma AboveStart(y: seq<u16>, y': seq<u16>, e: u16)
    requires Ascending(y) && |y| > 0 && e == y[0] && SetOf(y') == SetOf(y) - {e}
    ensures forall i | 0 <= i < |y'| :: e < y'[i]
  {
    forall i | 0 <= i < |y'|
      ensures e < y'[i]
    {
      assert y'[i] in SetOf(y');
      var j :| 0 <= j < |y| && y[j] == y'[i];
    }
  }

  lemma Pieces(x: seq<u16>, e: u16, y: seq<u16>)
    requires Ascending(x) && Ascending(y)
    requires forall i | 0 <= i < |x| :: x[i] < e
    requires forall i | 0 <= i < |y| :: e < y[i]
    ensures Ascending(x + [e] + y)
  {
    var s := x + [e] + y;
    forall i, j | 0 <= i < j < |s|
      ensures s[i] < s[j]
    {
      if i < |x| && |x| < j {
        assert s[j] == y[j - |x| - 1];
      }
    }
  }
}
