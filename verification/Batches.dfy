/** Group commit: a batch threads one root through its operations and commits once, or not at all. */
module Batches {
  import opened Bytes
  import opened Entries
  import opened PageCodec
  import opened NodeManager
  import opened Trees
  import opened CowNodes
  import opened CowTree
  import opened CowPages
  import opened Database
  import opened Runs

  /** One request of a batch; c is the page of the committed root. */
  ghost function Serve(d: DB, op: Op, c: nat): Out
    requires Good(d)
  {
    match op
    case Put(e) => InsertNoSync(d, e)
    case Remove(k) => DeleteNoSync(d, k, c)
  }

  lemma ServeStep(d: DB, op: Op, c: nat)
    requires Good(d) && (op.Put? ==> op.e.key !in View(d))
    ensures var o := Serve(d, op, c);
            && Good(o.d)
            && (o.st == Ok ==> View(o.d) == Effect(View(d), op))
            && (o.st != Ok ==> o.d.t == d.t && o.d.h == d.h && View(o.d) == View(d))
            && (o.st == NotFound ==> op.Remove? && op.k !in View(d))
  {
    hide RootShape, Flat, Sorted, InsertRoot, DeleteNode, FillRoot;
    match op
    case Put(e) => InsertContents(d, e, [d.t.page]);
    case Remove(k) => DeleteContents(d, k);
  }

  /** The loop over the requests of a batch, up to the first that fails. */
  ghost function Thread(d: DB, ops: seq<Op>, c: nat): RunOut
    requires Good(d) && Fresh(View(d), ops)
    decreases |ops|
  {
    hide Flat, Serve;
    if |ops| == 0 then RunOut(Ok, d, 0)
    else
      ServeStep(d, ops[0], c);
      var o := Serve(d, ops[0], c);
      if o.st != Ok then RunOut(o.st, o.d, 0)
      else
        var r := Thread(o.d, ops[1..], c);
        r.(done := r.done + 1)
  }

  /** A batch computes the fold of its operations over the map, and names the first one that fails. */
  lemma {:induction false} ThreadFolds(d: DB, ops: seq<Op>, c: nat)
    requires Good(d) && Fresh(View(d), ops)
    ensures var r := Thread(d, ops, c);
            && Good(r.d) && r.done <= |ops| && View(r.d) == Effects(View(d), ops[..r.done])
            && (r.st == Ok <==> r.done == |ops|) && r.st in {Ok, TooLarge, NotFound, Panic}
            && (r.st == NotFound ==> ops[r.done].Remove? && ops[r.done].k !in View(r.d))
    decreases |ops|
  {
    hide Flat, Sorted, RootShape, Serve, View;
    if |ops| > 0 {
      ServeStep(d, ops[0], c);
      var o := Serve(d, ops[0], c);
      if o.st == Ok {
        ThreadFolds(o.d, ops[1..], c);
        var r := Thread(o.d, ops[1..], c);
        var n := r.done + 1;
        assert ops[..n][0] == ops[0] && ops[..n][1..] == ops[1..][..r.done];
      } else {
        assert ops[..0] == [];
      }
    }
  }

  /** flush: commit the threaded root if every request succeeded, else keep the committed root. */
  ghost function Flush(d: DB, ops: seq<Op>): Out
    requires Good(d) && Fresh(View(d), ops)
  {
    var r := Thread(d, ops, d.t.page);
    if r.st == Ok then Out(Ok, DB(Commit(r.d.a), r.d.t, r.d.h)) else Out(r.st, d.(a := r.d.a))
  }

  /** The request can be met: the entry is not too long, the key to remove is there. */
  ghost predicate Acceptable(m: map<seq<byte>, seq<byte>>, op: Op) {
    match op
    case Put(e) => |e.key| + |e.val| <= MAX_KV_LEN
    case Remove(k) => k in m
  }

  /** So can every request of a batch when its turn comes. */
  ghost predicate AllAcceptable(m: map<seq<byte>, seq<byte>>, ops: seq<Op>)
    decreases |ops|
  {
    |ops| > 0 ==> Acceptable(m, ops[0]) && AllAcceptable(Effect(m, ops[0]), ops[1..])
  }

  /** The map after a flush: all requests or none. */
  ghost function BatchEffect(m: map<seq<byte>, seq<byte>>, ops: seq<Op>): map<seq<byte>, seq<byte>> {
    if AllAcceptable(m, ops) then Effects(m, ops) else m
  }

  lemma ServeAnswers(d: DB, op: Op, c: nat)
    requires Good(d)
    ensures var st := Serve(d, op, c).st;
            && (st == Ok ==> Acceptable(View(d), op))
            && (st in {TooLarge, NotFound} ==> !Acceptable(View(d), op))
  {
    hide RootShape, Flat, Sorted, InsertRoot, DeleteNode, FillRoot;
    match op
    case Put(e) => InsertContents(d, e, [d.t.page]);
    case Remove(k) => DeleteContents(d, k);
  }

  /** Unless the process panics, the map alone decides whether a batch succeeds. */
  lemma {:induction false} ThreadAnswers(d: DB, ops: seq<Op>, c: nat)
    requires Good(d) && Fresh(View(d), ops)
    ensures var st := Thread(d, ops, c).st;
            && (st == Ok ==> AllAcceptable(View(d), ops))
            && (st in {TooLarge, NotFound} ==> !AllAcceptable(View(d), ops))
    decreases |ops|
  {
    hide Flat, Sorted, RootShape, Serve, View, Acceptable;
    if |ops| > 0 {
      ServeStep(d, ops[0], c);
      ServeAnswers(d, ops[0], c);
      var o := Serve(d, ops[0], c);
      if o.st == Ok {
        ThreadAnswers(o.d, ops[1..], c);
      }
    }
  }

  /** A flush commits the fold of the whole batch or leaves the committed map as it was. It does the one if every
      request can be met, the other if not. */
  lemma FlushIsAtomic(d: DB, ops: seq<Op>)
    requires Good(d) && Fresh(View(d), ops)
    ensures var o := Flush(d, ops);
            && Good(o.d)
            && (o.st == Ok ==> View(o.d) == Effects(View(d), ops) && o.d.a.pend == [])
            && (o.st != Ok ==> View(o.d) == View(d) && o.d.t == d.t)
            && (o.st != Panic ==>
                                View(o.d) == BatchEffect(View(d), ops) && (o.st == Ok <==> AllAcceptable(View(d), ops)))
  {
    hide Flat, Sorted, RootShape, Thread, AllAcceptable;
    ThreadFolds(d, ops, d.t.page);
    ThreadAnswers(d, ops, d.t.page);
    assert ops[..|ops|] == ops;
  }

  // ---- which batches keep the list of freed pages sound

  lemma SplitRootFrees(a: Alloc, t: Tree, h: nat)
    requires Shape(t, h) && |t.kvs| >= 3
    ensures SplitRoot(a, t, h).a.pend == a.pend
  {
    hide Used, Small, LeftTree, RightTree;
  }

  /** Insertion first frees the root it was given. */
  lemma InsertNoSyncFrees(d: DB, e: KV)
    requires Good(d)
    ensures var o := InsertNoSync(d, e);
            o.st == Ok ==> d.a.pend <= o.d.a.pend && d.t.page in o.d.a.pend[|d.a.pend|..]
  {
    hide Used, Small, InsertNode, SplitRoot, Overflowing, NodeSize;
    if |e.key| + |e.val| <= MAX_KV_LEN {
      if Overflowing(d.t) {
        OverflowingRoot(d.t, d.h);
        var s := SplitRoot(d.a, d.t, d.h);
        SplitRootFrees(d.a, d.t, d.h);
        InsertOnlyAdds(Free(s.a, [d.t.page]), s.t, d.h + 1, e);
        LaterStill(d.a.pend, [d.t.page], InsertNode(Free(s.a, [d.t.page]), s.t, d.h + 1, e).a.pend);
      } else {
        InsertOnlyAdds(Free(d.a, [d.t.page]), d.t, d.h, e);
        LaterStill(d.a.pend, [d.t.page], InsertNode(Free(d.a, [d.t.page]), d.t, d.h, e).a.pend);
      }
    }
  }

  lemma LaterStill(s: seq<nat>, t: seq<nat>, u: seq<nat>)
    requires s + t <= u
    ensures s <= u && t <= u[|s|..]
    ensures forall x | x in t :: x in u[|s|..]
  {
    assert u[|s|..][..|t|] == t;
  }

  lemma SplitChildOnlyAdds(a: Alloc, n: Tree, i: nat, h: nat)
    requires h > 0 && Shape(n, h) && i <= |n.kvs|
    ensures a.pend <= SplitChild(a, n, i, h).a.pend
  {
    hide Used, Small, LeftTree, RightTree, Spliced, RoomFor;
  }

  lemma {:induction false} InsertOnlyAdds(a: Alloc, n: Tree, h: nat, e: KV)
    requires Shape(n, h) && (h > 0 ==> |n.kvs| >= 1) && Footprint(e) <= MAX_KV_LEN + 10
    ensures a.pend <= InsertNode(a, n, h, e).a.pend
    decreases h
  {
    hide Used, Small, LB, SplitChild, Ins, RoomFor;
    if h > 0 {
      var r := SplitChild(a, n, LB(n.kvs, e.key), h);
      SplitChildOnlyAdds(a, n, LB(n.kvs, e.key), h);
      if r.st == Ok {
        var c := r.t.kids[LB(r.t.kvs, e.key)];
        InsertOnlyAdds(Free(r.a, [c.page]), c, h - 1, e);
      }
    }
  }

  /** Every request frees one page before or after its work: an insertion the root it works on, a deletion
      the committed root. */
  lemma ServeFrees(d: DB, op: Op, c: nat)
    requires Good(d) && Serve(d, op, c).st == Ok
    ensures var o := Serve(d, op, c);
            && d.a.pend <= o.d.a.pend
            && (if op.Put? then d.t.page else c) in o.d.a.pend[|d.a.pend|..]
  {
    hide Used, Small, InsertRoot, DeleteNode, FillRoot;
    match op
    case Put(e) => InsertNoSyncFrees(d, e);
    case Remove(k) =>
      DeleteOnlyAdds(d.a, d.t, d.h, k);
      var b := DeleteNode(d.a, d.t, d.h, k).a;
      assert (b.pend + [c])[|b.pend|] == c;
  }

  lemma {:induction false} ThreadOnlyAdds(d: DB, ops: seq<Op>, c: nat)
    requires Good(d) && Fresh(View(d), ops)
    ensures d.a.pend <= Thread(d, ops, c).d.a.pend
    decreases |ops|
  {
    hide Flat, Sorted, RootShape, View, Serve;
    if |ops| > 0 {
      ServeStep(d, ops[0], c);
      ServeAdds(d, ops[0], c);
      var o := Serve(d, ops[0], c);
      if o.st == Ok {
        ThreadOnlyAdds(o.d, ops[1..], c);
      }
    }
  }

  lemma ServeAdds(d: DB, op: Op, c: nat)
    requires Good(d)
    ensures d.a.pend <= Serve(d, op, c).d.a.pend
  {
    hide Used, Small, Flat, Sorted, InsertNode, DeleteNode, FillRoot, SplitRoot, Overflowing, NodeSize;
    match op
    case Put(e) =>
      if |e.key| + |e.val| <= MAX_KV_LEN {
        if Overflowing(d.t) {
          OverflowingRoot(d.t, d.h);
          SplitRootFrees(d.a, d.t, d.h);
          InsertOnlyAdds(Free(SplitRoot(d.a, d.t, d.h).a, [d.t.page]), SplitRoot(d.a, d.t, d.h).t, d.h + 1, e);
        } else {
          InsertOnlyAdds(Free(d.a, [d.t.page]), d.t, d.h, e);
        }
      }
    case Remove(k) => DeleteOnlyAdds(d.a, d.t, d.h, k);
  }

  lemma {:induction false} ThreadFrees(d: DB, ops: seq<Op>, c: nat, j: nat)
    requires Good(d) && Fresh(View(d), ops) && Thread(d, ops, c).st == Ok
    requires j < |ops| && ops[j].Remove?
    ensures d.a.pend <= Thread(d, ops, c).d.a.pend && c in Thread(d, ops, c).d.a.pend[|d.a.pend|..]
    decreases |ops|
  {
    hide Flat, Sorted, RootShape, Serve, View;
    ServeStep(d, ops[0], c);
    ServeFrees(d, ops[0], c);
    var o := Serve(d, ops[0], c);
    ThreadOnlyAdds(o.d, ops[1..], c);
    if j > 0 {
      ThreadFrees(o.d, ops[1..], c, j - 1);
    }
    Embedded(d.a.pend, o.d.a.pend, Thread(o.d, ops[1..], c).d.a.pend, c);
  }

  lemma Embedded(s: seq<nat>, t: seq<nat>, u: seq<nat>, x: nat)
    requires s <= t <= u
    ensures x in t[|s|..] || x in u[|t|..] ==> x in u[|s|..]
  {
    if x in t[|s|..] {
      var i :| 0 <= i < |t[|s|..]| && t[|s|..][i] == x;
      assert u[|s|..][i] == x;
    } else if x in u[|t|..] {
      var i :| 0 <= i < |u[|t|..]| && u[|t|..][i] == x;
      assert u[|s|..][i + |t| - |s|] == x;
    }
  }

  lemma CountTwice(s: seq<nat>, u: seq<nat>, x: nat)
    requires s <= u && x in s && x in u[|s|..]
    ensures multiset(u)[x] >= 2
  {
    assert u == s + u[|s|..];
    assert multiset(s)[x] >= 1 && multiset(u[|s|..])[x] >= 1;
  }

  /** A deletion that is not the first request frees the committed root a second time. */
  lemma LateDeleteFreesTwice(d: DB, ops: seq<Op>, j: nat)
    requires Good(d) && Quiet(d) && Fresh(View(d), ops) && Thread(d, ops, d.t.page).st == Ok
    requires 0 < j < |ops| && ops[j].Remove?
    ensures multiset(Thread(d, ops, d.t.page).d.a.pend)[d.t.page] >= 2
  {
    hide Flat, Sorted, RootShape, Serve, View;
    var c := d.t.page;
    ServeStep(d, ops[0], c);
    ServeFrees(d, ops[0], c);
    var o := Serve(d, ops[0], c);
    ThreadOnlyAdds(o.d, ops[1..], c);
    ThreadFrees(o.d, ops[1..], c, j - 1);
    var u := Thread(o.d, ops[1..], c).d.a.pend;
    CountTwice(o.d.a.pend, u, c);
  }

  /** Insertions keep the account; so does a deletion from the committed root itself, up to a discarded root. */
  lemma {:induction false} InsertionsAccount(d: DB, ops: seq<Op>, c: nat, lost: multiset<nat>)
    requires Good(d) && Fresh(View(d), ops) && Thread(d, ops, c).st == Ok && Accounts(d, lost)
    requires forall op | op in ops :: op.Put?
    ensures Accounts(Thread(d, ops, c).d, lost)
    decreases |ops|
  {
    hide Flat, Sorted, RootShape, View, Accounts, InsertRoot;
    if |ops| > 0 {
      assert ops[0] in ops;
      ServeStep(d, ops[0], c);
      InsertNoSyncAccounts(d, ops[0].e, lost);
      InsertionsAccount(Serve(d, ops[0], c).d, ops[1..], c, lost);
    }
  }

  lemma FirstDeleteAccounts(d: DB, k: seq<byte>, lost: multiset<nat>)
    requires Good(d) && Accounts(d, lost) && DeleteNoSync(d, k, d.t.page).st == Ok
    ensures Accounts(DeleteNoSync(d, k, d.t.page).d, lost + Discarded(DeleteNode(d.a, d.t, d.h, k).t))
  {
    hide Pages, KidPages, Held, Stock, Span, DeleteNode, Discarded, FillRoot;
    var r := DeleteNode(d.a, d.t, d.h, k);
    var b := Free(r.a, [d.t.page]);
    DeleteShape(d, k);
    DeleteNodeBalanced(d.a, d.t, d.h, k, b.cur, 0);
    forall x: nat
      ensures Pages(FillRoot(r.t))[x] + Held(b, b.cur)[x] + (lost + Discarded(r.t))[x] == Span(1, b.cur)[x]
    {
      DeleteNodeBalanced(d.a, d.t, d.h, k, b.cur, x);
      FreeAccount(r.a, [d.t.page], b.cur, x);
      SeqOf(d.t.page, 0);
      PagesOf(d.t, x);
      FillRootAccount(r.t, d.h, x);
      HeldHorizon(d.a, b.cur, x);
    }
  }

  /** Without a late deletion every page stays accounted for through the batch. */
  lemma SoundBatchAccounts(d: DB, ops: seq<Op>, lost: multiset<nat>) returns (more: multiset<nat>)
    requires Good(d) && Quiet(d) && Fresh(View(d), ops) && Thread(d, ops, d.t.page).st == Ok && Accounts(d, lost)
    requires forall j | 0 < j < |ops| :: ops[j].Put?
    ensures Accounts(Thread(d, ops, d.t.page).d, lost + more)
    ensures |ops| == 0 || ops[0].Put? ==> more == multiset{}
  {
    hide Flat, Sorted, Used, Small, View, Accounts, InsertRoot, DeleteNode, FillRoot, Discarded;
    more := multiset{};
    assert lost + multiset{} == lost;
    if |ops| > 0 {
      var c := d.t.page;
      ServeStep(d, ops[0], c);
      match ops[0] {
        case Put(e) => InsertNoSyncAccounts(d, e, lost);
        case Remove(k) =>
          FirstDeleteAccounts(d, k, lost);
          more := Discarded(DeleteNode(d.a, d.t, d.h, k).t);
      }
      var o := Serve(d, ops[0], c);
      forall op | op in ops[1..]
        ensures op.Put?
      {
        var j :| 0 <= j < |ops[1..]| && ops[1..][j] == op;
        assert ops[j + 1] == op;
      }
      InsertionsAccount(o.d, ops[1..], c, lost + more);
    }
  }

  /** After a flush every page is accounted for; what is lost is a discarded root and, if the list is full, the
      pages freed by the batch. */
  lemma FlushAccounts(d: DB, ops: seq<Op>, lost: multiset<nat>) returns (more: multiset<nat>)
    requires Good(d) && Quiet(d) && Fresh(View(d), ops) && Flush(d, ops).st == Ok && Accounts(d, lost)
    requires forall j | 0 < j < |ops| :: ops[j].Put?
    ensures Accounts(Flush(d, ops).d, lost + more) && Quiet(Flush(d, ops).d)
    ensures var b := Thread(d, ops, d.t.page).d.a;
            && ((|ops| == 0 || ops[0].Put?) && 8 + 4 * (|b.fl| + |b.pend|) < PAGE_SIZE ==> more == multiset{})
            && ((|ops| == 0 || ops[0].Put?) && 8 + 4 * (|b.fl| + |b.pend|) >= PAGE_SIZE ==> more == multiset(b.pend))
  {
    hide Flat, Sorted, Used, Small, View, Pages, KidPages, Held, Span, Thread, Dropped;
    var r := Thread(d, ops, d.t.page);
    var one := SoundBatchAccounts(d, ops, lost);
    more := one + Dropped(r.d.a);
    DroppedIs(r.d.a, multiset{});
    forall x: nat
      ensures Pages(r.d.t)[x] + Held(Commit(r.d.a), r.d.a.cur)[x] + (lost + more)[x] == Span(1, r.d.a.cur)[x]
    {
      CommitAccount(r.d.a, x);
      assert Pages(r.d.t)[x] + Held(r.d.a, r.d.a.cur)[x] + (lost + one)[x] == Span(1, r.d.a.cur)[x];
    }
  }

  /** After a successful batch no page is freed twice exactly when every deletion in it came first. */
  lemma BatchFreesOnceIff(d: DB, ops: seq<Op>, lost: multiset<nat>)
    requires Good(d) && Quiet(d) && Accounts(d, lost) && Fresh(View(d), ops)
    requires Thread(d, ops, d.t.page).st == Ok
    ensures (forall x :: multiset(Thread(d, ops, d.t.page).d.a.pend)[x] <= 1) <==>
            (forall j | 0 < j < |ops| :: ops[j].Put?)
  {
    hide Flat, Sorted, RootShape, View, Accounts, Thread;
    if forall j | 0 < j < |ops| :: ops[j].Put? {
      var more := SoundBatchAccounts(d, ops, lost);
      forall x: nat
        ensures multiset(Thread(d, ops, d.t.page).d.a.pend)[x] <= 1
      {
        AccountsMeaning(Thread(d, ops, d.t.page).d, lost + more, x);
      }
    } else {
      var j :| 0 < j < |ops| && !ops[j].Put?;
      LateDeleteFreesTwice(d, ops, j);
    }
  }

  /** A flush that fails after its first request has put the committed root, still in use, on the freed list. */
  lemma FailedFlushFreesRoot(d: DB, ops: seq<Op>)
    requires Good(d) && Fresh(View(d), ops) && Flush(d, ops).st != Ok && Thread(d, ops, d.t.page).done > 0
    ensures d.t.page in Flush(d, ops).d.a.pend && d.t.page in Pages(Flush(d, ops).d.t)
    ensures |d.a.pend| < |Flush(d, ops).d.a.pend|
  {
    hide Flat, Sorted, RootShape, View, Serve, Pages;
    var c := d.t.page;
    ServeStep(d, ops[0], c);
    var o := Serve(d, ops[0], c);
    ServeFrees(d, ops[0], c);
    ThreadOnlyAdds(o.d, ops[1..], c);
    Embedded(d.a.pend, o.d.a.pend, Thread(o.d, ops[1..], c).d.a.pend, c);
  }

  /** A request fails alike with its own commit and in a batch. */
  lemma ServeFailsAsApply(d: DB, op: Op, c: nat)
    requires Good(d)
    ensures op.Remove? && Serve(d, op, c).st != Ok ==> Serve(d, op, c) == Apply(d, op)
    ensures Serve(d, op, c).st == TooLarge ==> Serve(d, op, c).d == d
  {
    hide InsertNode, SplitRoot, DeleteNode, FillRoot;
  }

  /** A flush that fails leaves the database as it was exactly when it fails at its first request, and that request,
      if it is a deletion, meets no node of one key on its way. */
  lemma FailedFlushIsHarmlessIff(d: DB, ops: seq<Op>)
    requires Good(d) && Quiet(d) && Fresh(View(d), ops) && Flush(d, ops).st in {TooLarge, NotFound}
    ensures Flush(d, ops).d == d <==>
            Thread(d, ops, d.t.page).done == 0 && (ops[0].Remove? ==> PathFull(d.t, d.h, ops[0].k))
  {
    hide Flat, Sorted, RootShape, View, Serve, PathFull, Apply;
    var c := d.t.page;
    ServeStep(d, ops[0], c);
    if Thread(d, ops, c).done > 0 {
      FailedFlushFreesRoot(d, ops);
    } else {
      ServeFailsAsApply(d, ops[0], c);
      if ops[0].Remove? {
        RemoveApplies(d, ops[0].k);
        FailedDeleteIsHarmlessIff(d, ops[0].k);
      } else {
        PutRejected(d, ops[0].e, c);
      }
    }
  }

  lemma RemoveApplies(d: DB, k: seq<byte>)
    requires Good(d)
    ensures Apply(d, Remove(k)) == Delete(d, k) && Delete(d, k).st in {Ok, NotFound, Panic}
  {
    hide DeleteNode, FillRoot;
  }

  lemma PutRejected(d: DB, e: KV, c: nat)
    requires Good(d)
    ensures Serve(d, Put(e), c).st in {Ok, TooLarge, Panic}
  {
    hide InsertRoot;
  }
}
