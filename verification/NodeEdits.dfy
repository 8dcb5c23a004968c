/** Short sequences of edits on nodes in memory that the tree operations have in common. */
module NodeEdits {
  import opened Bytes
  import opened Entries
  import opened PageCodec
  import opened NodeManager
  import opened TreePages

  /** An entry and the pointers on both sides of it. */
  method InsertBetween(node: Node, k: seq<byte>, v: seq<byte>, idx: u16, left: u32, right: u32) returns (ok: bool)
    requires node.Valid() && |k| + |v| <= MAX_KV_LEN && idx <= |node.page.kvs|
    modifies node`page, node.data
    ensures node.Valid() && ok == Fits(old(node.page), KV(k, v))
    ensures node.page == if ok then SpliceWritten(old(node.page), idx, left, KV(k, v), right) else old(node.page)
  {
    hide Image, LB, Fits, Used, Inserted, WithPtr;
    KeysBound(node.page);
    InsertedPtrs(node.page, KV(k, v));
    WithPtrPtrs(Inserted(node.page, KV(k, v)), idx, left);
    ok := node.InsertKV(k, v);
    if ok {
      node.SetPtr(idx, left);
      node.SetPtr(idx + 1, right);
    }
  }

  /** An entry above all others; the pointer that was last stays to its left. */
  method AppendEntry(node: Node, k: seq<byte>, v: seq<byte>) returns (ok: bool)
    requires node.Valid() && |k| + |v| <= MAX_KV_LEN && LB(node.page.kvs, k) == |node.page.kvs|
    modifies node`page, node.data
    ensures node.Valid() && ok == Fits(old(node.page), KV(k, v))
    ensures ok ==> node.page == AtEnd(old(node.page), KV(k, v))
  {
    hide Image, LB, Fits, Used, Inserted, WithPtr, Node.Valid;
    ghost var p := node.page;
    EnoughPtrs(node);
    InsertedPtrs(p, KV(k, v));
    AtEndSteps(p, KV(k, v));
    var danglingPtr := node.GetPtr(node.GetNKeys());
    ok := node.InsertKV(k, v);
    if ok {
      node.SetPtr(node.GetNKeys() - 1, danglingPtr);
    }
  }

  lemma EnoughPtrs(node: Node)
    requires node.Valid()
    ensures WF(node.page) && |node.page.kvs| <= 682 && |node.page.ptrs| == |node.page.kvs| + 1
  {
  }

  /** The last entry goes, and with it the pointer to its right instead of the one to its left. */
  method DropLastEntry(node: Node)
    requires node.Valid() && |node.page.kvs| >= 1
    modifies node`page, node.data
    ensures node.Valid()
    ensures var p := old(node.page);
            var k := |p.kvs| - 1;
            node.page == Page(p.typ, p.kvs[..k], p.ptrs[..k + 1])
  {
    hide Image, Used, WithPtr, Deleted, Node.Valid, WF;
    ghost var p := node.page;
    EnoughPtrs(node);
    DropLastSteps(p);
    var danglingPtr := node.GetPtr(node.GetNKeys() - 1);
    node.DeleteKV(node.GetNKeys() - 1);
    node.SetPtr(node.GetNKeys(), danglingPtr);
  }

  /** The merge of mergeChildren: separator and right node move into the left node. */
  method MergeNodes(left: Node, right: Node, k: seq<byte>, v: seq<byte>)
    requires left.Valid() && right.Valid() && left != right && left.data != right.data && |k| + |v| <= MAX_KV_LEN
    requires Sorted(left.page.kvs + [KV(k, v)] + right.page.kvs) && Small(right.page.kvs)
    requires |left.page.kvs| == 0 ==> Fits(left.page, KV(k, v))
    requires Used(left.page.kvs + [KV(k, v)] + right.page.kvs) < PAGE_SIZE
    modifies left`page, left.data
    ensures left.Valid() && left.page == MergedOf(old(left.page), KV(k, v), right.page)
  {
    hide Image, LB, Fits, Used, Node.Valid, WF, Sorted, Merging, AtEnd, Small;
    ghost var p, e, q := left.page, KV(k, v), right.page;
    EnoughPtrs(left);
    EnoughPtrs(right);
    Separated(p, e, q);
    var ok := AppendEntry(left, k, v);
    MergingStarts(p, e, q);
    var emptyPtrIdx := left.GetNKeys();
    AppendEntries(left, right, p, e);
    if right.GetType() == INTERNAL {
      MergingPtrs(p, e, q);
      TransferPtrs(left, right, emptyPtrIdx, p.ptrs);
      MergedIs(p, e, q);
    }
  }

  lemma Separated(p: Page, e: KV, q: Page)
    requires WF(p) && Sorted(p.kvs + [e] + q.kvs) && Used(p.kvs + [e] + q.kvs) < PAGE_SIZE
    requires |p.kvs| == 0 ==> Fits(p, e)
    ensures LB(p.kvs, e.key) == |p.kvs| && Fits(p, e)
  {
    hide Less, Area, LB;
    var all := p.kvs + [e] + q.kvs;
    assert all == p.kvs + ([e] + q.kvs);
    UsedAround(p.kvs, e, q.kvs);
    SortedSlice(all, 0, |p.kvs|);
    assert all[0..|p.kvs|] == p.kvs && all[|p.kvs|] == e;
    if |p.kvs| > 0 {
      assert all[|p.kvs| - 1] == p.kvs[|p.kvs| - 1];
    }
    SplitAtLB(p.kvs, e.key, |p.kvs|);
  }

  lemma MergingPtrs(p: Page, e: KV, q: Page)
    requires |p.ptrs| == |p.kvs| + 1 && |q.ptrs| == |q.kvs| + 1
    ensures var m := Merging(p, e, q, |q.kvs|);
            |m.ptrs| == |p.ptrs| + |q.ptrs| && m.ptrs[..|p.ptrs|] == p.ptrs && m.kvs == p.kvs + [e] + q.kvs &&
            m.typ == p.typ
  {
    assert q.kvs[..|q.kvs|] == q.kvs;
  }

  lemma MergedIs(p: Page, e: KV, q: Page)
    requires |p.ptrs| == |p.kvs| + 1 && q.typ == INTERNAL
    ensures MergedOf(p, e, q) == Page(p.typ, p.kvs + [e] + q.kvs, p.ptrs + q.ptrs)
  {
  }

  /** The first loop: the entries of the right node, one after the other. */
  method AppendEntries(left: Node, right: Node, ghost p: Page, ghost e: KV)
    requires left.Valid() && right.Valid() && left != right && left.data != right.data
    requires |p.ptrs| == |p.kvs| + 1 && left.page == Merging(p, e, right.page, 0)
    requires Sorted(p.kvs + [e] + right.page.kvs) && Small(right.page.kvs)
    requires Used(p.kvs + [e] + right.page.kvs) < PAGE_SIZE
    modifies left`page, left.data
    ensures left.Valid() && left.page == Merging(p, e, right.page, |right.page.kvs|)
  {
    hide Image, LB, Fits, Used, Node.Valid, WF, Sorted, Merging, Inserted, Small, Node.GetKV, Node.GetNKeys;
    var i := 0;
    EnoughPtrs(right);
    while i < right.GetNKeys()
      invariant i <= |right.page.kvs| && left.Valid() && right.Valid()
      invariant left.page == Merging(p, e, right.page, i)
    {
      EnoughPtrs(left);
      var kv := right.GetKV(i);
      SmallEntry(right.page.kvs, i);
      MergingFits(p, e, right.page, i);
      MergingStep(p, e, right.page, i);
      var ok := left.InsertKV(kv.key, kv.val);
      i := i + 1;
    }
  }

  lemma SmallEntry(s: seq<KV>, i: nat)
    requires Small(s) && i < |s|
    ensures |s[i].key| + |s[i].val| <= MAX_KV_LEN
  {
    assert s[i] in s;
  }

  /** The second loop: the pointers of the right node, behind those of the left. */
  method TransferPtrs(left: Node, right: Node, emptyPtrIdx: u16, ghost ps: seq<nat>)
    requires left.Valid() && right.Valid() && left != right && left.data != right.data
    requires |ps| == emptyPtrIdx && |left.page.ptrs| == emptyPtrIdx + |right.page.ptrs|
    requires left.page.ptrs[..emptyPtrIdx] == ps
    modifies left`page, left.data
    ensures left.Valid() && left.page == old(left.page).(ptrs := ps + right.page.ptrs)
  {
    hide Image, Used, Node.Valid, WF, Node.GetPtr, Node.GetNKeys;
    ghost var qs := right.page.ptrs;
    EnoughPtrs(left);
    EnoughPtrs(right);
    var i, at := 0, emptyPtrIdx;
    while i <= right.GetNKeys()
      invariant i <= |qs| && at == emptyPtrIdx + i && left.Valid() && right.Valid() && right.page.ptrs == qs
      invariant left.page == old(left.page).(ptrs := left.page.ptrs) && |left.page.ptrs| == emptyPtrIdx + |qs|
      invariant left.page.ptrs[..at] == ps + qs[..i]
    {
      left.SetPtr(at, right.GetPtr(i));
      at := at + 1;
      i := i + 1;
    }
    assert left.page.ptrs[..emptyPtrIdx + |qs|] == left.page.ptrs && qs[..|qs|] == qs;
  }
}
