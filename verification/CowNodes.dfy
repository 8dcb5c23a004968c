/** What the copy-on-write algorithm works with: the allocator, the size a node reports, the nodes that splits,
    rotations and merges produce, and that they have the shape of a node. */
module CowNodes {
  import opened Bytes
  import opened Entries
  import opened PageCodec
  import opened NodeManager
  import opened Trees

  /** Free list of the master page, first page never used, pages freed since the last commit,
      and (for the proofs) the pages handed out so far, in order. */
  datatype Alloc = Alloc(fl: seq<nat>, cur: nat, pend: seq<nat>, got: seq<nat>)

  datatype Status = Ok | NotFound | TooLarge | Panic

  datatype Res = Res(st: Status, a: Alloc, t: Tree)

  function Next(a: Alloc): nat {
    if |a.fl| > 0 then a.fl[0] else a.cur
  }

  /** Allocate: the head of the free list, else the next page never used. */
  function Take(a: Alloc): Alloc {
    if |a.fl| > 0 then Alloc(a.fl[1..], a.cur, a.pend, a.got + [a.fl[0]])
    else Alloc(a.fl, a.cur + 1, a.pend, a.got + [a.cur])
  }

  function Free(a: Alloc, ps: seq<nat>): Alloc {
    a.(pend := a.pend + ps)
  }

  /** copyToNewPage */
  function Store(a: Alloc, t: Tree): Res {
    Res(Ok, Take(a), t.(page := Next(a)))
  }

  // ---- sizes, as the page of a tree node reports them

  function NodeSize(t: Tree): nat {
    if |t.kvs| > 0 then Used(t.kvs) else EmptySizeOf(if |t.kids| > 0 then t.kids[0].page else 0)
  }

  /** GetSize of a node without keys and with the given only pointer. */
  function EmptySizeOf(ptr: nat): nat {
    (12 + ptr % 0x1_0000) % 0x1_0000
  }

  predicate RoomFor(size: nat, e: KV) {
    (size + Footprint(e)) % 0x1_0000 < PAGE_SIZE
  }

  predicate Overflowing(t: Tree) {
    NodeSize(t) > PAGE_SIZE - MAX_KV_LEN
  }

  predicate Underfull(t: Tree) {
    |t.kvs| <= 1
  }

  /** The size of node n once entry i and the pointer left of it are gone. */
  function RestSize(n: Tree, i: nat): nat
    requires |n.kids| == |n.kvs| + 1 && i < |n.kvs|
  {
    if |n.kvs| == 1 then EmptySizeOf(n.kids[1].page) else Used(n.kvs[..i] + n.kvs[i + 1..])
  }

  /** UpdateKV(i, e) does not panic. */
  predicate UpdateFits(n: Tree, i: nat, e: KV)
    requires |n.kids| == |n.kvs| + 1 && i < |n.kvs|
  {
    RoomFor(RestSize(n, i), e)
  }

  // ---- splitting

  function Median(c: Tree): KV
    requires |c.kvs| > 0
  {
    c.kvs[|c.kvs| / 2]
  }

  function LeftTree(c: Tree, page: nat): Tree {
    var m := |c.kvs| / 2;
    Tree(page, c.kvs[..m], if |c.kids| == |c.kvs| + 1 then c.kids[..m + 1] else [])
  }

  function RightTree(c: Tree, page: nat): Tree
    requires |c.kvs| > 0
  {
    var m := |c.kvs| / 2;
    Tree(page, c.kvs[m + 1..], if |c.kids| == |c.kvs| + 1 then c.kids[m + 1..] else [])
  }

  /** n with child i replaced by l, m, r. */
  function Spliced(n: Tree, i: nat, l: Tree, m: KV, r: Tree): Tree
    requires |n.kids| == |n.kvs| + 1 && i <= |n.kvs|
  {
    Tree(n.page, n.kvs[..i] + [m] + n.kvs[i..], n.kids[..i] + [l, r] + n.kids[i + 1..])
  }

  lemma SpliceShape(n: Tree, h: nat, i: nat, l: Tree, m: KV, r: Tree)
    requires h > 0 && Shape(n, h) && i <= |n.kvs|
    requires Shape(l, h - 1) && Shape(r, h - 1) && |l.kvs| >= 1 && |r.kvs| >= 1
    requires Footprint(m) <= MAX_KV_LEN + 10 && Used(n.kvs) + Footprint(m) < PAGE_SIZE
    ensures Shape(Spliced(n, i, l, m, r), h)
  {
    hide Used;
    UsedInsert(n.kvs, i, m);
  }

  lemma SumBound(s: seq<KV>, lo: nat, hi: nat)
    requires |s| > 0 && forall e | e in s :: lo <= Footprint(e) <= hi
    ensures lo + Used(s[1..]) <= Used(s) <= hi + Used(s[1..])
  {
    assert s[0] in s;
  }

  lemma {:induction false} UsedBounds(s: seq<KV>, lo: nat, hi: nat)
    requires forall e | e in s :: lo <= Footprint(e) <= hi
    ensures 8 + lo * |s| <= Used(s) <= 8 + hi * |s|
  {
    if |s| > 0 {
      UsedBounds(s[1..], lo, hi);
      SumBound(s, lo, hi);
      assert lo * |s| == lo * |s[1..]| + lo && hi * |s| == hi * |s[1..]| + hi;
    }
  }

  /** A node of small entries that overflows has three of them. */
  lemma OverflowHasThree(s: seq<KV>)
    requires Small(s) && Used(s) > PAGE_SIZE - MAX_KV_LEN
    ensures |s| >= 3
  {
    UsedBounds(s, 0, MAX_KV_LEN + 10);
  }

  lemma UsedOfNone()
    ensures Used([]) == 8
  {
  }

  lemma UsedPart(s: seq<KV>, lo: nat, hi: nat)
    requires lo <= hi <= |s|
    ensures Used(s[lo..hi]) <= Used(s)
  {
    hide Area;
    UsedSplit(s, hi);
    UsedSplit(s[..hi], lo);
    assert s[..hi][lo..] == s[lo..hi];
  }

  /** Both halves of an overflowing node have the shape of a node with at least one key. */
  lemma HalvesShape(c: Tree, h: nat, lp: nat, rp: nat)
    requires Shape(c, h) && |c.kvs| >= 3
    ensures Shape(LeftTree(c, lp), h) && |LeftTree(c, lp).kvs| >= 1
    ensures Shape(RightTree(c, rp), h) && |RightTree(c, rp).kvs| >= 1
    ensures Footprint(Median(c)) <= MAX_KV_LEN + 10
  {
    hide Used;
    var m := |c.kvs| / 2;
    UsedPart(c.kvs, 0, m);
    UsedPart(c.kvs, m + 1, |c.kvs|);
    assert c.kvs[0..m] == c.kvs[..m] && c.kvs[m + 1..|c.kvs|] == c.kvs[m + 1..];
    assert Median(c) in c.kvs;
  }

  /** Passing the guard of InsertKV means the entry fits. */
  lemma RoomIsReal(n: Tree, e: KV)
    requires Footprint(e) <= MAX_KV_LEN + 10 && Used(n.kvs) < PAGE_SIZE && RoomFor(NodeSize(n), e)
    ensures Used(n.kvs) + Footprint(e) < PAGE_SIZE
  {
    if |n.kvs| == 0 { UsedOfNone(); }
  }

  lemma InsertLeafShape(n: Tree, e: KV)
    requires Shape(n, 0) && RoomFor(NodeSize(n), e) && Footprint(e) <= MAX_KV_LEN + 10
    ensures Shape(n.(kvs := Ins(n.kvs, e)), 0) && |Ins(n.kvs, e)| == |n.kvs| + 1
  {
    hide Used, LB;
    RoomIsReal(n, e);
    UsedInsert(n.kvs, LB(n.kvs, e.key), e);
  }

  lemma KidShape(n: Tree, h: nat, i: nat, c: Tree)
    requires h > 0 && Shape(n, h) && i <= |n.kvs| && Shape(c, h - 1) && |c.kvs| >= 1
    ensures Shape(n.(kids := n.kids[i := c]), h)
  {
  }

  lemma RootOfTwo(l: Tree, m: KV, r: Tree, h: nat)
    requires Shape(l, h) && Shape(r, h) && |l.kvs| >= 1 && |r.kvs| >= 1 && Footprint(m) <= MAX_KV_LEN + 10
    ensures Shape(Tree(0, [m], [l, r]), h + 1)
  {
    UsedSingle(m);
  }

  /** A root may be a leaf without keys; a root above others has a key. */
  ghost predicate RootShape(t: Tree, h: nat) {
    Shape(t, h) && (h > 0 ==> |t.kvs| >= 1)
  }

  lemma OverflowingRoot(t: Tree, h: nat)
    requires RootShape(t, h) && Overflowing(t)
    ensures |t.kvs| >= 3
  {
    if |t.kvs| > 0 {
      OverflowHasThree(t.kvs);
    }
  }

  // ---- deletion

  /** n with children i, i+1 and the separator between them replaced. */
  function WithPair(n: Tree, i: nat, l: Tree, m: KV, r: Tree): Tree
    requires |n.kids| == |n.kvs| + 1 && i < |n.kvs|
  {
    Tree(n.page, n.kvs[..i] + [m] + n.kvs[i + 1..], n.kids[..i] + [l, r] + n.kids[i + 2..])
  }

  /** n with children i, i+1 and the separator between them replaced by one child. */
  function WithMerged(n: Tree, i: nat, c: Tree): Tree
    requires |n.kids| == |n.kvs| + 1 && i < |n.kvs|
  {
    Tree(n.page, n.kvs[..i] + n.kvs[i + 1..], n.kids[..i] + [c] + n.kids[i + 2..])
  }

  function DropLast(t: Tree, page: nat): Tree
    requires |t.kvs| > 0
  {
    var k := |t.kvs| - 1;
    Tree(page, t.kvs[..k], if |t.kids| == |t.kvs| + 1 then t.kids[..k + 1] else [])
  }

  function DropFirst(t: Tree, page: nat): Tree
    requires |t.kvs| > 0
  {
    Tree(page, t.kvs[1..], if |t.kids| == |t.kvs| + 1 then t.kids[1..] else [])
  }

  /** c with the entry s and, above leaves, the last child of l in front. */
  function Prepended(l: Tree, s: KV, c: Tree, page: nat): Tree {
    Tree(page, [s] + c.kvs, if |l.kids| > 0 then [l.kids[|l.kids| - 1]] + c.kids else c.kids)
  }

  /** c with the entry s and, above leaves, the first child of r at the end. */
  function Appended(c: Tree, s: KV, r: Tree, page: nat): Tree {
    Tree(page, c.kvs + [s], if |r.kids| > 0 then c.kids + [r.kids[0]] else c.kids)
  }

  function Joined(l: Tree, s: KV, r: Tree, page: nat): Tree {
    Tree(page, l.kvs + [s] + r.kvs, l.kids + r.kids)
  }

  lemma UsedUpTo3(a: KV, b: KV, c: KV)
    requires Footprint(a) <= MAX_KV_LEN + 10 && Footprint(b) <= MAX_KV_LEN + 10 && Footprint(c) <= MAX_KV_LEN + 10
    ensures Used([a, b]) <= 2716 && Used([a, b, c]) <= 4070
  {
    UsedBounds([a, b], 0, MAX_KV_LEN + 10);
    UsedBounds([a, b, c], 0, MAX_KV_LEN + 10);
  }

  lemma SmallAt(s: seq<KV>, i: nat)
    requires Small(s) && i < |s|
    ensures Footprint(s[i]) <= MAX_KV_LEN + 10
  {
    assert s[i] in s;
  }

  lemma DropShape(t: Tree, h: nat, page: nat)
    requires Shape(t, h) && |t.kvs| >= 2
    ensures Shape(DropLast(t, page), h) && |DropLast(t, page).kvs| == |t.kvs| - 1
    ensures Shape(DropFirst(t, page), h) && |DropFirst(t, page).kvs| == |t.kvs| - 1
  {
    hide Used;
    var n := |t.kvs|;
    UsedPart(t.kvs, 0, n - 1);
    UsedPart(t.kvs, 1, n);
    assert t.kvs[0..n - 1] == t.kvs[..n - 1] && t.kvs[1..n] == t.kvs[1..];
  }

  lemma PrependShape(l: Tree, s: KV, c: Tree, h: nat, page: nat)
    requires Shape(l, h) && Shape(c, h) && |c.kvs| == 1 && Footprint(s) <= MAX_KV_LEN + 10
    ensures Shape(Prepended(l, s, c, page), h) && |Prepended(l, s, c, page).kvs| == 2
  {
    hide Used;
    SmallAt(c.kvs, 0);
    assert c.kvs == [c.kvs[0]] && [s] + c.kvs == [s, c.kvs[0]];
    UsedUpTo3(s, c.kvs[0], s);
  }

  lemma AppendShape(c: Tree, s: KV, r: Tree, h: nat, page: nat)
    requires Shape(c, h) && Shape(r, h) && |c.kvs| == 1 && Footprint(s) <= MAX_KV_LEN + 10
    ensures Shape(Appended(c, s, r, page), h) && |Appended(c, s, r, page).kvs| == 2
  {
    hide Used;
    SmallAt(c.kvs, 0);
    assert c.kvs == [c.kvs[0]] && c.kvs + [s] == [c.kvs[0], s];
    UsedUpTo3(c.kvs[0], s, s);
  }

  /** Two one-key nodes and their separator always fit one page. */
  lemma JoinShape(l: Tree, s: KV, r: Tree, h: nat, page: nat)
    requires Shape(l, h) && Shape(r, h) && |l.kvs| == 1 && |r.kvs| == 1 && Footprint(s) <= MAX_KV_LEN + 10
    ensures Shape(Joined(l, s, r, page), h) && |Joined(l, s, r, page).kvs| == 3
    ensures Used(Joined(l, s, r, page).kvs) <= 4070
  {
    hide Used;
    SmallAt(l.kvs, 0);
    SmallAt(r.kvs, 0);
    assert l.kvs + [s] + r.kvs == [l.kvs[0], s, r.kvs[0]];
    UsedUpTo3(l.kvs[0], s, r.kvs[0]);
  }

  lemma PairShape(n: Tree, h: nat, i: nat, l: Tree, m: KV, r: Tree)
    requires h > 0 && Shape(n, h) && i < |n.kvs|
    requires Shape(l, h - 1) && Shape(r, h - 1) && |l.kvs| >= 1 && |r.kvs| >= 1
    requires Footprint(m) <= MAX_KV_LEN + 10 && UpdateFits(n, i, m)
    ensures Shape(WithPair(n, i, l, m, r), h)
  {
    UpdateShape(n, h, i, m);
    assert n.kvs[..i] + [m] + n.kvs[i + 1..] == n.kvs[i := m];
  }

  /** Passing both guards of UpdateKV means the replacement fits. */
  lemma UpdateShape(n: Tree, h: nat, i: nat, m: KV)
    requires h > 0 && Shape(n, h) && i < |n.kvs| && Footprint(m) <= MAX_KV_LEN + 10 && UpdateFits(n, i, m)
    ensures Shape(n.(kvs := n.kvs[i := m]), h)
  {
    hide Area;
    UsedAt(n.kvs, i);
    UsedUpdate(n.kvs, i, m);
    if |n.kvs| == 1 {
      assert n.kvs[i := m] == [m];
      UsedSingle(m);
    }
  }

  lemma MergedShape(n: Tree, h: nat, i: nat, c: Tree)
    requires h > 0 && Shape(n, h) && i < |n.kvs| && Shape(c, h - 1) && |c.kvs| >= 1
    ensures Shape(WithMerged(n, i, c), h)
  {
    hide Area;
    UsedAt(n.kvs, i);
  }

  /** A node that fillChild can work on: it has a separator, or its only child needs no help. */
  predicate Fillable(n: Tree) {
    |n.kids| > 0 ==> |n.kvs| >= 1 || !Underfull(n.kids[0])
  }
}
