/** The copy-on-write algorithm on trees and page numbers: which pages it takes, which it frees,
    and the tree it leaves. Node bytes are the business of the class that refines these functions. */
module CowTree {
  import opened Bytes
  import opened Entries
  import opened PageCodec
  import opened Trees
  import opened CowNodes

  /** splitChild on child i */
  function SplitChild(a: Alloc, n: Tree, i: nat, ghost h: nat): (r: Res)
    requires h > 0 && Shape(n, h) && i <= |n.kvs|
    ensures r.st == Ok ==> Shape(r.t, h) && |r.t.kvs| >= |n.kvs|
  {
    hide Used;
    var c := n.kids[i];
    if !Overflowing(c) then Res(Ok, a, n)
    else
      OverflowHasThree(c.kvs);
      var a1 := Free(a, [c.page]);
      var r, l := RightTree(c, Next(a1)), LeftTree(c, Next(Take(a1)));
      var a2 := Take(Take(a1));
      HalvesShape(c, h - 1, l.page, r.page);
      if !RoomFor(NodeSize(n), Median(c)) then Res(Panic, a2, n)
      else
        RoomIsReal(n, Median(c));
        SpliceShape(n, h, i, l, Median(c), r);
        Res(Ok, a2, Spliced(n, i, l, Median(c), r))
  }

  /** insert: node n is in memory; its own page was freed by the caller. */
  function InsertNode(a: Alloc, n: Tree, ghost h: nat, e: KV): (r: Res)
    requires Shape(n, h) && (h > 0 ==> |n.kvs| >= 1) && Footprint(e) <= MAX_KV_LEN + 10
    ensures r.st == Ok ==> Shape(r.t, h) && |r.t.kvs| >= 1 && |r.t.kvs| >= |n.kvs|
    ensures r.st == Ok || r.st == Panic
    decreases h
  {
    hide Used, LB;
    if |n.kids| == 0 then
      if !RoomFor(NodeSize(n), e) then Res(Panic, a, n)
      else
        InsertLeafShape(n, e);
        Store(a, n.(kvs := Ins(n.kvs, e)))
    else
      var r := SplitChild(a, n, LB(n.kvs, e.key), h);
      if r.st != Ok then r
      else
        var i := LB(r.t.kvs, e.key);
        var s := InsertNode(Free(r.a, [r.t.kids[i].page]), r.t.kids[i], h - 1, e);
        if s.st != Ok then s
        else
          KidShape(r.t, h, i, s.t);
          Store(s.a, r.t.(kids := r.t.kids[i := s.t]))
  }

  /** The new root above the two halves of an overflowing root; not on a page yet. */
  function SplitRoot(a: Alloc, t: Tree, ghost h: nat): (r: Res)
    requires Shape(t, h) && |t.kvs| >= 3
    ensures r.st == Ok && Shape(r.t, h + 1) && |r.t.kvs| == 1
  {
    hide Used;
    var right, left := RightTree(t, Next(a)), LeftTree(t, Next(Take(a)));
    HalvesShape(t, h, left.page, right.page);
    RootOfTwo(left, Median(t), right, h);
    Res(Ok, Take(Take(a)), Tree(0, [Median(t)], [left, right]))
  }

  /** Height after an insertion: it grows only when the root splits. */
  function Grown(t: Tree, h: nat): nat {
    if Overflowing(t) then h + 1 else h
  }

  /** Insert up to the commit. The pages in early are freed between splitting the root and descending. */
  function InsertRoot(a: Alloc, t: Tree, ghost h: nat, e: KV, early: seq<nat>): (r: Res)
    requires RootShape(t, h)
    ensures r.st == Ok ==> RootShape(r.t, Grown(t, h))
    ensures r.st in {Ok, Panic, TooLarge}
    ensures r.st == TooLarge <==> |e.key| + |e.val| > MAX_KV_LEN
  {
    if |e.key| + |e.val| > MAX_KV_LEN then Res(TooLarge, a, t)
    else if Overflowing(t) then
      OverflowingRoot(t, h);
      var s := SplitRoot(a, t, h);
      InsertNode(Free(s.a, early), s.t, h + 1, e)
    else InsertNode(Free(a, early), t, h, e)
  }

  /** A leaf with room takes the entry. */
  lemma LeafTakes(a: Alloc, n: Tree, e: KV)
    requires Shape(n, 0) && Footprint(e) <= MAX_KV_LEN + 10 && RoomFor(NodeSize(n), e)
    ensures InsertNode(a, n, 0, e) == Store(a, n.(kvs := Ins(n.kvs, e)))
  {
    hide Used, LB, Ins, NodeSize, RoomFor;
  }

  lemma RootLeafTakes(a: Alloc, t: Tree, e: KV, early: seq<nat>)
    requires Shape(t, 0) && |e.key| + |e.val| <= MAX_KV_LEN && !Overflowing(t) && RoomFor(NodeSize(t), e)
    ensures InsertRoot(a, t, 0, e, early) == Store(Free(a, early), t.(kvs := Ins(t.kvs, e)))
  {
    hide Used, InsertNode, Ins, NodeSize, RoomFor;
    LeafTakes(Free(a, early), t, e);
  }

  // ---- deletion

  /** rotateRight around separator i: the last entry of child i goes up, the separator goes down into child i+1. */
  function RightRotated(a: Alloc, n: Tree, i: nat): Res
    requires |n.kids| == |n.kvs| + 1 && i < |n.kvs| && |n.kids[i].kvs| > 0
  {
    var l, e, c := n.kids[i], n.kvs[i], n.kids[i + 1];
    var b := l.kvs[|l.kvs| - 1];
    if !UpdateFits(n, i, b) then Res(Panic, a, n)
    else Res(Ok, Take(Take(a)), WithPair(n, i, DropLast(l, Next(a)), b, Prepended(l, e, c, Next(Take(a)))))
  }

  /** The same on a node of height h, whose shape it keeps. */
  function RotateRight(a: Alloc, n: Tree, i: nat, ghost h: nat): (r: Res)
    requires h > 0 && Shape(n, h) && i < |n.kvs|
    requires |n.kids[i].kvs| >= 2 && |n.kids[i + 1].kvs| == 1
    ensures r.st in {Ok, Panic}
    ensures r.st == Ok ==> Shape(r.t, h) && |r.t.kvs| == |n.kvs|
  {
    hide Used;
    var left, child := n.kids[i], n.kids[i + 1];
    var b := left.kvs[|left.kvs| - 1];
    var l, c := DropLast(left, Next(a)), Prepended(left, n.kvs[i], child, Next(Take(a)));
    assert Shape(left, h - 1) && Shape(child, h - 1);
    SmallAt(left.kvs, |left.kvs| - 1);
    SmallAt(n.kvs, i);
    DropShape(left, h - 1, l.page);
    PrependShape(left, n.kvs[i], child, h - 1, c.page);
    assert UpdateFits(n, i, b) ==> Shape(WithPair(n, i, l, b, c), h) by {
      if UpdateFits(n, i, b) {
        PairShape(n, h, i, l, b, c);
      }
    }
    RightRotated(a, n, i)
  }

  /** rotateLeft around separator i: the first entry of child i+1 goes up, the separator goes down into child i. */
  function LeftRotated(a: Alloc, n: Tree, i: nat): Res
    requires |n.kids| == |n.kvs| + 1 && i < |n.kvs| && |n.kids[i + 1].kvs| > 0
  {
    var c, e, r := n.kids[i], n.kvs[i], n.kids[i + 1];
    var b := r.kvs[0];
    if !UpdateFits(n, i, b) then Res(Panic, a, n)
    else Res(Ok, Take(Take(a)), WithPair(n, i, Appended(c, e, r, Next(a)), b, DropFirst(r, Next(Take(a)))))
  }

  function RotateLeft(a: Alloc, n: Tree, i: nat, ghost h: nat): (r: Res)
    requires h > 0 && Shape(n, h) && i < |n.kvs|
    requires |n.kids[i].kvs| == 1 && |n.kids[i + 1].kvs| >= 2
    ensures r.st in {Ok, Panic}
    ensures r.st == Ok ==> Shape(r.t, h) && |r.t.kvs| == |n.kvs|
  {
    hide Used;
    var child, right := n.kids[i], n.kids[i + 1];
    var b := right.kvs[0];
    var c, r := Appended(child, n.kvs[i], right, Next(a)), DropFirst(right, Next(Take(a)));
    assert Shape(right, h - 1) && Shape(child, h - 1);
    SmallAt(right.kvs, 0);
    SmallAt(n.kvs, i);
    DropShape(right, h - 1, r.page);
    AppendShape(child, n.kvs[i], right, h - 1, c.page);
    assert UpdateFits(n, i, b) ==> Shape(WithPair(n, i, c, b, r), h) by {
      if UpdateFits(n, i, b) {
        PairShape(n, h, i, c, b, r);
      }
    }
    LeftRotated(a, n, i)
  }

  /** mergeChildren around separator i. */
  function Merged(a: Alloc, n: Tree, i: nat): Res
    requires |n.kids| == |n.kvs| + 1 && i < |n.kvs|
  {
    Res(Ok, Take(a), WithMerged(n, i, Joined(n.kids[i], n.kvs[i], n.kids[i + 1], Next(a))))
  }

  /** The same for two one-key children. */
  function Merge(a: Alloc, n: Tree, i: nat, ghost h: nat): (r: Res)
    requires h > 0 && Shape(n, h) && i < |n.kvs|
    requires |n.kids[i].kvs| == 1 && |n.kids[i + 1].kvs| == 1
    ensures r.st == Ok && Shape(r.t, h) && |r.t.kvs| == |n.kvs| - 1
    ensures |r.t.kids[i].kvs| == 3
  {
    hide Used;
    var c := Joined(n.kids[i], n.kvs[i], n.kids[i + 1], Next(a));
    SmallAt(n.kvs, i);
    JoinShape(n.kids[i], n.kvs[i], n.kids[i + 1], h - 1, c.page);
    MergedShape(n, h, i, c);
    Merged(a, n, i)
  }

  /** fillChild: give child i a second key before descending into it. */
  function FillChild(a: Alloc, n: Tree, i: nat, ghost h: nat): (r: Res)
    requires h > 0 && Shape(n, h) && Fillable(n) && i <= |n.kvs|
    ensures r.st in {Ok, Panic}
    ensures r.st == Ok ==> Shape(r.t, h) && Fillable(r.t) && |n.kvs| - 1 <= |r.t.kvs| <= |n.kvs|
  {
    if !Underfull(n.kids[i]) then Res(Ok, a, n)
    else if i > 0 && !Underfull(n.kids[i - 1]) then
      RotateRight(Free(a, [n.kids[i - 1].page, n.kids[i].page]), n, i - 1, h)
    else if i < |n.kvs| && !Underfull(n.kids[i + 1]) then
      RotateLeft(Free(a, [n.kids[i].page, n.kids[i + 1].page]), n, i, h)
    else if i > 0 then Merge(Free(a, [n.kids[i - 1].page, n.kids[i].page]), n, i - 1, h)
    else Merge(Free(a, [n.kids[i].page, n.kids[i + 1].page]), n, i, h)
  }

  /** The inorder predecessor: the last entry of the rightmost leaf. */
  function LastKV(t: Tree, ghost h: nat): KV
    requires Shape(t, h) && |t.kvs| >= 1
    decreases h
  {
    if |t.kids| == 0 then t.kvs[|t.kvs| - 1] else LastKV(t.kids[|t.kvs|], h - 1)
  }

  /** The inorder successor: the first entry of the leftmost leaf. */
  function FirstKV(t: Tree, ghost h: nat): KV
    requires Shape(t, h) && |t.kvs| >= 1
    decreases h
  {
    if |t.kids| == 0 then t.kvs[0] else FirstKV(t.kids[0], h - 1)
  }

  /** delete: node n is in memory; its own page is freed by the caller. */
  function DeleteNode(a: Alloc, n: Tree, ghost h: nat, k: seq<byte>): (r: Res)
    requires Shape(n, h) && Fillable(n)
    ensures r.st in {Ok, NotFound, Panic}
    decreases h, |n.kvs|, 2
  {
    if |n.kids| == 0 then
      if Holds(n.kvs, k) then Store(a, n.(kvs := Del(n.kvs, k))) else Res(NotFound, a, n)
    else if Holds(n.kvs, k) then DeleteHere(a, n, h, k)
    else
      var r := FillChild(a, n, LB(n.kvs, k), h);
      if r.st != Ok then r else DeleteBelow(r.a, r.t, h, k)
  }

  /** deleteFromInternal: node n has been fixed. */
  function DeleteBelow(a: Alloc, n: Tree, ghost h: nat, k: seq<byte>): (r: Res)
    requires h > 0 && Shape(n, h)
    ensures r.st in {Ok, NotFound, Panic}
    decreases h, |n.kvs|, 1
  {
    if Holds(n.kvs, k) then DeleteHere(a, n, h, k)
    else
      var i := LB(n.kvs, k);
      var s := DeleteNode(a, n.kids[i], h - 1, k);
      if s.st != Ok then s
      else Store(Free(s.a, [n.kids[i].page]), n.(kids := n.kids[i := s.t]))
  }

  /** deleteKeyFromInternal: replace the entry by its predecessor or successor, or merge around it and retry. */
  function DeleteHere(a: Alloc, n: Tree, ghost h: nat, k: seq<byte>): (r: Res)
    requires h > 0 && Shape(n, h) && Holds(n.kvs, k)
    ensures r.st in {Ok, NotFound, Panic}
    decreases h, |n.kvs|, 0
  {
    var i := LB(n.kvs, k);
    var left, right := n.kids[i], n.kids[i + 1];
    if !Underfull(left) then
      var pred := LastKV(left, h - 1);
      if !UpdateFits(n, i, pred) then Res(Panic, a, n)
      else
        var s := DeleteNode(Free(a, [left.page]), left, h - 1, pred.key);
        if s.st != Ok then s
        else Store(s.a, Tree(n.page, n.kvs[i := pred], n.kids[i := s.t]))
    else if !Underfull(right) then
      var succ := FirstKV(right, h - 1);
      if !UpdateFits(n, i, succ) then Res(Panic, a, n)
      else
        var s := DeleteNode(Free(a, [right.page]), right, h - 1, succ.key);
        if s.st != Ok then s
        else Store(s.a, Tree(n.page, n.kvs[i := succ], n.kids[i + 1 := s.t]))
    else
      var m := Merge(Free(a, [left.page, right.page]), n, i, h);
      DeleteNode(m.a, m.t, h, k)
  }

  /** fillRoot: a root left without keys hands over to its only child. */
  function FillRoot(t: Tree): Tree {
    if |t.kvs| == 0 && |t.kids| > 0 then t.kids[0] else t
  }
}
