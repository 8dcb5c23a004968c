/** Group commit (engine/engine.go): one flush of a batch of requests. */
module Engine {
  import opened Bytes
  import opened Entries
  import opened PageCodec
  import opened NodeManager
  import opened Trees
  import opened CowNodes
  import opened CowTree
  import opened CowPages
  import opened Database
  import opened Runs
  import opened Batches
  import opened Crash
  import opened Disk
  import opened Store
  import opened PageManager
  import opened MasterCodec
  import BTree

  // ---- the loop over the requests, seen from the middle

  /** After i requests the batch has come to database cur. */
  ghost predicate ThreadedTo(d: DB, ops: seq<Op>, c: nat, i: nat, cur: DB)
    requires Good(d) && Fresh(View(d), ops)
  {
    && i <= |ops| && Good(cur) && Fresh(View(cur), ops[i..])
    && Thread(d, ops, c) == AfterMore(Thread(cur, ops[i..], c), i)
  }

  lemma ThreadStarts(d: DB, ops: seq<Op>, c: nat)
    requires Good(d) && Fresh(View(d), ops)
    ensures ThreadedTo(d, ops, c, 0, d)
  {
    assert ops[0..] == ops;
  }

  lemma ThreadAdvances(d: DB, ops: seq<Op>, c: nat, i: nat, cur: DB)
    requires Good(d) && Fresh(View(d), ops) && ThreadedTo(d, ops, c, i, cur) && i < |ops|
    ensures ops[i].Put? ==> ops[i].e.key !in View(cur)
    ensures var o := Serve(cur, ops[i], c);
            if o.st == Ok then ThreadedTo(d, ops, c, i + 1, o.d)
            else Thread(d, ops, c) == RunOut(o.st, o.d, i)
    ensures Serve(cur, ops[i], c).d.a.cur <= Thread(d, ops, c).d.a.cur
  {
    hide Good, View, Serve, Flat;
    var rest := ops[i..];
    assert rest[0] == ops[i] && rest[1..] == ops[i + 1..];
    ServeStep(cur, ops[i], c);
    var o := Serve(cur, ops[i], c);
    if o.st == Ok {
      ThreadGrows(o.d, rest[1..], c);
    }
  }

  lemma ThreadEnds(d: DB, ops: seq<Op>, c: nat, cur: DB)
    requires Good(d) && Fresh(View(d), ops) && ThreadedTo(d, ops, c, |ops|, cur)
    ensures Thread(d, ops, c) == RunOut(Ok, cur, |ops|)
  {
    hide Good, View;
    assert ops[|ops|..] == [];
  }

  lemma ServeGrows(d: DB, op: Op, c: nat)
    requires Good(d)
    ensures d.a.cur <= Serve(d, op, c).d.a.cur
  {
    hide InsertRoot, DeleteNode, CowTree.FillRoot, Used, Small;
    match op
    case Put(e) => InsertRootAccount(d.a, d.t, d.h, e, [d.t.page], 0);
    case Remove(k) => DeleteNodeBalanced(d.a, d.t, d.h, k, 0, 0);
  }

  lemma {:induction false} ThreadGrows(d: DB, ops: seq<Op>, c: nat)
    requires Good(d) && Fresh(View(d), ops)
    ensures d.a.cur <= Thread(d, ops, c).d.a.cur
    decreases |ops|
  {
    hide Good, View, Serve, Flat;
    if |ops| > 0 {
      ServeStep(d, ops[0], c);
      ServeGrows(d, ops[0], c);
      var o := Serve(d, ops[0], c);
      if o.st == Ok {
        ThreadGrows(o.d, ops[1..], c);
      }
    }
  }

  class Engine {
    const btree: BTree.BTree
    var batch: seq<Op>

    constructor (btree: BTree.BTree)
      ensures this.btree == btree && batch == []
    {
      this.btree := btree;
      batch := [];
    }

    /** One request, on the root the requests before it have come to. */
    method ServeRequest(op: Op, root: u32, ghost d: DB, ghost base: set<nat>) returns (st: Status, newRoot: u32)
      requires Good(d) && Serve(d, op, btree.root).d.a.cur <= PAGE_LIMIT
      requires root == d.t.page && btree.Works(d, base)
      modifies btree.pm, btree`freelist
      ensures btree.pm.Valid() && Step(old(btree.Now()), btree.Now(), base)
      ensures var o := Serve(d, op, btree.root);
              && st == o.st && (st == Ok ==> newRoot == o.d.t.page && btree.Works(o.d, base))
              && (st in {TooLarge, NotFound} ==> btree.Now().a == o.d.a)
    {
      hide InsertRoot, DeleteNode, BTree.BTree.Now, Step, Live, Safe, Stored, PageManager.Valid, CowTree.FillRoot;
      match op
      case Put(e) =>
        st, newRoot := btree.InsertNoSync(e.key, e.val, root, d, base);
      case Remove(k) =>
        st, newRoot := btree.DeleteNoSync(k, root, d, base);
    }

    /** Barrier for the data pages, root switch, barrier for the master page. */
    method CommitBatch(root: u32, ghost t: Tree, ghost h: nat, ghost base: set<nat>)
      requires btree.pm.Valid() && root == t.page
      requires Safe(btree.Now().a, base) && Stored(btree.pm.mmap, t, h, Live(base, btree.Now().a))
      modifies btree, btree.pm
      ensures btree.Rests(DB(Commit(old(btree.Now().a)), t, h))
      ensures var m := btree.Now().m;
              && |old(btree.Now().m)| == |m| > 0 && m == old(btree.Now().m)[0 := m[0]] && |m[0]| == PAGE_SIZE
              && Get32(m[0], 0) == t.page == btree.pm.root
              && btree.Now().log == old(btree.Now().log) + Barrier(btree.pm.sync) + [Wrote(0, m[0])] + [FlushMaster]
    {
      hide MasterImage, Live, Safe, Stored, PageManager.Valid, Pages;
      ghost var s := btree.Now();
      btree.pm.HasMaster();
      StoredHasPage(s.a, base, btree.pm.mmap, t, h);
      btree.Fsync();
      btree.HandleMasterPage(root);
      btree.pm.HasMaster();
      StoredAfterCommit(s, base, t, h, MasterImage(t.page, btree.pm.fl));
      ReadMaster(t.page, btree.pm.fl);
      btree.Msync();
    }

    /** The loop of flush: thread the root through the batch, up to the first request that fails. */
    method ThreadBatch(ghost d: DB) returns (root: u32, flushErr: Status, ghost last: DB)
      requires Good(d) && Fresh(View(d), batch) && Thread(d, batch, btree.root).d.a.cur <= PAGE_LIMIT
      requires btree.root == d.t.page && btree.Works(d, PageSet(d.t))
      modifies btree.pm, btree`freelist
      ensures btree.pm.Valid() && Step(old(btree.Now()), btree.Now(), PageSet(d.t))
      ensures var r := Thread(d, batch, btree.root);
              && flushErr == r.st
              && (flushErr == Ok ==> last == r.d && root == last.t.page && btree.Works(last, PageSet(d.t)))
              && (flushErr in {TooLarge, NotFound} ==> btree.Now().a == r.d.a)
    {
      hide Good, View, Serve, Thread, ThreadedTo, BTree.BTree.Works, BTree.BTree.Now, Step, PageManager.Valid, PageSet,
           Fresh;
      root, flushErr, last := btree.root, Ok, d;
      ghost var s, base, c: nat := btree.Now(), PageSet(d.t), btree.root;
      WorksSafe(d, base);
      StepNone(s, base);
      ThreadStarts(d, batch, c);
      var i := 0;
      while i < |batch|
        invariant i <= |batch| && flushErr == Ok && btree.root == c && root == last.t.page
        invariant btree.pm.Valid() && Step(s, btree.Now(), base)
        invariant ThreadedTo(d, batch, c, i, last) && btree.Works(last, base)
      {
        ThreadAdvances(d, batch, c, i, last);
        GoodMiddle(d, batch, c, i, last);
        ghost var s1 := btree.Now();
        var newRoot;
        flushErr, newRoot := ServeRequest(batch[i], root, last, base);
        StepTrans(s, s1, btree.Now(), base);
        if flushErr != Ok {
          return;
        }
        root, last := newRoot, Serve(last, batch[i], c).d;
        i := i + 1;
      }
      ThreadEnds(d, batch, c, last);
    }

    lemma WorksSafe(d: DB, base: set<nat>)
      requires btree.Works(d, base)
      ensures btree.pm.Valid() && Safe(btree.Now().a, base) && btree.Now().a == d.a
      ensures Stored(btree.pm.mmap, d.t, d.h, Live(base, d.a))
    {
    }

    lemma GoodMiddle(d: DB, ops: seq<Op>, c: nat, i: nat, cur: DB)
      requires Good(d) && Fresh(View(d), ops) && ThreadedTo(d, ops, c, i, cur)
      ensures Good(cur)
    {
    }

    /** flush: commit the batch if every request succeeded; every request gets the outcome. A panic ends the process
        before any reply. */
    method Flush(ghost d: DB) returns (replies: seq<Status>, ghost mid: State)
      requires Good(d) && Fresh(View(d), batch) && Thread(d, batch, d.t.page).d.a.cur <= PAGE_LIMIT
      requires btree.Rests(d) && Safe(d.a, PageSet(d.t))
      modifies this`batch, btree, btree.pm
      ensures btree.pm.Valid() && Step(old(btree.Now()), mid, PageSet(d.t)) && Mirrors(mid)
      ensures var o := Batches.Flush(d, old(batch));
              && (o.st != Panic ==> batch == [] && |replies| == |old(batch)|)
              && (o.st != Panic ==> forall i | 0 <= i < |replies| :: replies[i] == o.st)
              && (o.st == Panic ==> replies == [])
              && (o.st == Ok ==> btree.Rests(o.d))
              && (|old(batch)| == 0 ==> o == Out(Ok, d) && btree.Now() == old(btree.Now()))
              && (o.st == Ok && |old(batch)| > 0 ==>
                    && |btree.Now().m| > 0
                    && Transaction(old(btree.Now()), mid, btree.Now(), d.t, o.d.t, o.d.h)
                    && btree.Now().log ==
                          mid.log + Barrier(btree.pm.sync) + [Wrote(0, btree.Now().m[0])] + [FlushMaster])
              && (o.st in {TooLarge, NotFound} ==> btree.Now().a == o.d.a)
              && (o.st != Ok ==> && btree.Now() == mid && btree.root == d.t.page
                                 && Stored(mid.m, d.t, d.h, PageSet(d.t)))
    {
      hide Good, View, Thread, Step, PageManager.Valid, PageSet, Fresh, Stored, Safe, Live, Mirrors;
      replies := [];
      btree.RestsWorks(d);
      btree.Mirrored();
      ghost var s, base := btree.Now(), PageSet(d.t);
      mid := s;
      StepNone(s, base);
      if |batch| == 0 {
        EmptyFlush(d);
        return;
      }
      var root, flushErr;
      ghost var last;
      root, flushErr, last := ThreadBatch(d);
      mid := btree.Now();
      btree.Mirrored();
      if flushErr == Panic {
        StoredStill(s, mid, d, base);
        return;
      }
      if flushErr == Ok {
        CommitBatch(root, last.t, last.h, base);
      } else {
        StoredStill(s, mid, d, base);
      }
      var i := 0;
      while i < |batch|
        invariant i == |replies| <= |batch| && forall j | 0 <= j < i :: replies[j] == flushErr
      {
        replies := replies + [flushErr];
        i := i + 1;
      }
      batch := [];
    }

    lemma StoredStill(s: State, mid: State, d: DB, base: set<nat>)
      requires Step(s, mid, base) && base == PageSet(d.t) && Stored(s.m, d.t, d.h, base) && Live(base, s.a) == base
      ensures Stored(mid.m, d.t, d.h, PageSet(d.t))
    {
      hide Stored, PageSet, Safe, Live;
      StepStored(s, mid, base, d.t, d.h);
      StoredOwn(mid.m, d.t, d.h, Live(base, mid.a), base);
    }

    lemma EmptyFlush(d: DB)
      requires Good(d) && Quiet(d)
      ensures Batches.Flush(d, []) == Out(Ok, d)
    {
      hide Good, View;
      assert d.a.fl + [] == d.a.fl;
    }

    /** One turn of the loop: a batch that is committed in order, or turned down without a trace. */
    method FlushNext(ghost d: DB, ghost lost: multiset<nat>) returns (replies: seq<Status>, ghost leg: Leg)
      requires Good(d) && Accounts(d, lost) && Fresh(View(d), batch) && Smooth(d, batch)
      requires btree.Rests(d)
      modifies this`batch, btree, btree.pm
      ensures var o := Batches.Flush(d, old(batch));
              && btree.Rests(o.d)
              && |replies| == |old(batch)| && (forall i | 0 <= i < |replies| :: replies[i] == o.st)
              && (btree.pm.sync ==>
                    Leads(Epoch(old(btree.Now()), d.t, d.h), leg, Epoch(btree.Now(), o.d.t, o.d.h)))
    {
      hide Good, View, Accounts, Flat, Fresh, Thread, Stored, PageManager.Valid, Safe, PageSet, Batches.Flush, Step,
           Transaction, Names, Mirrors;
      btree.RestsQuiet(d);
      AccountsSafe(d, lost);
      ghost var ops, s := batch, btree.Now();
      StepNone(s, PageSet(d.t));
      ghost var mid;
      replies, mid := Flush(d);
      btree.Mirrored();
      ghost var o := Batches.Flush(d, ops);
      StepSafe(s, mid, PageSet(d.t));
      if o.st == Ok && |ops| > 0 {
        leg := Committed(mid, FlushMaster);
      } else {
        leg := Uncommitted;
      }
    }

    /** batchCommitLoop, for whatever batches come in, as long as each is committed in order or turned down without a
        trace. After every batch the map is the fold of the requests of the batches that could be met, and every page
        stays accounted for. With sync on, the epochs between batches form a chain, so that a crash inside batch i
        leaves the map before or after it (Crash.CrashLeavesOldOrNew). */
    method BatchCommitLoop(batches: seq<seq<Op>>, ghost d: DB, ghost lost: multiset<nat>)
      returns (ghost last: DB, ghost gone: multiset<nat>, ghost es: seq<Epoch>, ghost legs: seq<Leg>)
      requires Good(d) && Accounts(d, lost) && Served(d, batches)
      requires btree.Rests(d)
      modifies this`batch, btree, btree.pm
      ensures Good(last) && View(last) == AllEffects(View(d), batches)
      ensures btree.Rests(last) && Accounts(last, gone)
      ensures |es| == |batches| + 1 && es[0] == Epoch(old(btree.Now()), d.t, d.h)
      ensures es[|batches|] == Epoch(btree.Now(), last.t, last.h)
      ensures forall j | 0 <= j <= |batches| :: MapOf(Flat(es[j].t)) == AllEffects(View(d), batches[..j])
      ensures btree.pm.sync ==> Chain(es, legs)
    {
      hide Good, Accounts, Flat, Fresh, Thread, Stored, PageManager.Valid, Safe, PageSet, Batches.Flush, Leads, Smooth,
           BatchEffect, BTree.BTree.Rests, MapOf, Shows, AllEffects;
      last, gone, es, legs := d, lost, [Epoch(btree.Now(), d.t, d.h)], [];
      var i := 0;
      NoneLeft(d, batches);
      ShowsFirst(es[0], View(d), batches);
      while i < |batches|
        invariant i <= |batches| && Good(last) && Accounts(last, gone) && Served(last, batches[i..])
        invariant btree.Rests(last)
        invariant |es| == i + 1 && |legs| == i && es[0] == Epoch(old(btree.Now()), d.t, d.h)
        invariant es[i] == Epoch(btree.Now(), last.t, last.h)
        invariant Shows(es, View(d), batches)
        invariant btree.pm.sync ==> Chain(es, legs)
      {
        ghost var rest := batches[i..];
        assert rest[0] == batches[i] && rest[1..] == batches[i + 1..];
        batch := batches[i];
        btree.RestsQuiet(last);
        FlushIsAtomic(last, batches[i]);
        ghost var more := SmoothAccounts(last, batches[i], gone);
        var replies;
        ghost var leg;
        replies, leg := FlushNext(last, gone);
        ghost var o := Batches.Flush(last, batches[i]);
        ghost var e := Epoch(btree.Now(), o.d.t, o.d.h);
        ShowsNext(es, View(d), batches, e);
        if btree.pm.sync {
          ChainExtends(es, legs, leg, e);
        }
        last, gone, es, legs := o.d, gone + more, es + [e], legs + [leg];
        i := i + 1;
      }
      ShowsAll(es, View(d), batches);
    }
  }

  /** A batch that stays within the page numbers and is either committed, with a deletion in its first request at
      most, or turned down without a trace. */
  ghost predicate Smooth(d: DB, ops: seq<Op>)
    requires Good(d) && Fresh(View(d), ops)
  {
    var o := Batches.Flush(d, ops);
    && Thread(d, ops, d.t.page).d.a.cur <= PAGE_LIMIT
    && if o.st == Ok then forall j | 0 < j < |ops| :: ops[j].Put? else o.st != Panic && o.d == d
  }

  lemma SmoothAccounts(d: DB, ops: seq<Op>, lost: multiset<nat>) returns (more: multiset<nat>)
    requires Good(d) && Quiet(d) && Fresh(View(d), ops) && Smooth(d, ops) && Accounts(d, lost)
    ensures Accounts(Batches.Flush(d, ops).d, lost + more) && Batches.Flush(d, ops).st != Panic
  {
    hide Good, View, Accounts, Thread, Batches.Flush;
    more := multiset{};
    if Batches.Flush(d, ops).st == Ok {
      more := FlushAccounts(d, ops, lost);
    } else {
      assert lost + more == lost;
    }
  }

  /** Every batch in its turn inserts only new keys and goes smoothly. */
  ghost predicate Served(d: DB, batches: seq<seq<Op>>)
    requires Good(d)
    decreases |batches|
  {
    hide Good, View, Smooth, Batches.Flush;
    |batches| > 0 ==>
      && Fresh(View(d), batches[0]) && Smooth(d, batches[0])
      && (FlushIsAtomic(d, batches[0]); Served(Batches.Flush(d, batches[0]).d, batches[1..]))
  }

  /** The map after batches of which each takes effect as a whole or, if one of its requests cannot be met, not at
      all. */
  ghost function AllEffects(m: map<seq<byte>, seq<byte>>, batches: seq<seq<Op>>): map<seq<byte>, seq<byte>>
    decreases |batches|
  {
    if |batches| == 0 then m else AllEffects(BatchEffect(m, batches[0]), batches[1..])
  }

  lemma {:induction false} AllEffectsSnoc(m: map<seq<byte>, seq<byte>>, batches: seq<seq<Op>>, i: nat)
    requires i < |batches|
    ensures AllEffects(m, batches[..i + 1]) == BatchEffect(AllEffects(m, batches[..i]), batches[i])
    decreases i
  {
    hide BatchEffect;
    if i == 0 {
      assert batches[..1] == [batches[0]] && batches[..0] == [] && [batches[0]][1..] == [];
    } else {
      AllEffectsSnoc(BatchEffect(m, batches[0]), batches[1..], i - 1);
      assert batches[..i + 1][1..] == batches[1..][..i] && batches[..i][1..] == batches[1..][..i - 1];
    }
  }

  /** Group commit as a whole: at whatever moment of the loop the system crashes, what is left is the map after the
      batches before the one under way, or after that one too. */
  lemma CrashLeavesWholeBatches(m: map<seq<byte>, seq<byte>>, batches: seq<seq<Op>>, es: seq<Epoch>, legs: seq<Leg>,
                                i: nat, n: nat, disk: seq<seq<byte>>)
    requires Chain(es, legs) && |es| == |batches| + 1 && AtRest(es[0]) && i < |batches|
    requires forall j | 0 <= j <= |batches| :: MapOf(Flat(es[j].t)) == AllEffects(m, batches[..j])
    requires |es[i].s.log| <= n <= |es[i + 1].s.log| <= |es[|batches|].s.log|
    requires CrashImage(es[|batches|].s.log[..n], disk) && LongEnough(disk, es[i], legs[i], n)
    ensures HoldsOneOf(disk, {AllEffects(m, batches[..i]), AllEffects(m, batches[..i + 1])})
    ensures n == |es[i].s.log| ==> HoldsOneOf(disk, {AllEffects(m, batches[..i])})
  {
    hide Leads, AtRest, MapOf, Flat, CrashImage, LongEnough, HoldsOneOf;
    CrashLeavesOldOrNew(es, legs, i, n, disk);
  }

  /** Each epoch shows the map after as many batches. */
  ghost predicate Shows(es: seq<Epoch>, m: map<seq<byte>, seq<byte>>, batches: seq<seq<Op>>) {
    && |es| <= |batches| + 1
    && forall j | 0 <= j < |es| :: MapOf(Flat(es[j].t)) == AllEffects(m, batches[..j])
  }

  lemma ShowsFirst(e: Epoch, m: map<seq<byte>, seq<byte>>, batches: seq<seq<Op>>)
    requires MapOf(Flat(e.t)) == m
    ensures Shows([e], m, batches)
  {
    hide MapOf, Flat;
    assert batches[..0] == [];
  }

  lemma ShowsNext(es: seq<Epoch>, m: map<seq<byte>, seq<byte>>, batches: seq<seq<Op>>, e: Epoch)
    requires 0 < |es| <= |batches| && Shows(es, m, batches)
    requires MapOf(Flat(e.t)) == BatchEffect(MapOf(Flat(es[|es| - 1].t)), batches[|es| - 1])
    ensures Shows(es + [e], m, batches)
  {
    hide MapOf, Flat, BatchEffect, AllEffects;
    AllEffectsSnoc(m, batches, |es| - 1);
  }

  lemma ShowsAll(es: seq<Epoch>, m: map<seq<byte>, seq<byte>>, batches: seq<seq<Op>>)
    requires |es| == |batches| + 1 && Shows(es, m, batches)
    ensures forall j | 0 <= j <= |batches| :: MapOf(Flat(es[j].t)) == AllEffects(m, batches[..j])
    ensures MapOf(Flat(es[|batches|].t)) == AllEffects(m, batches)
  {
    hide MapOf, Flat, AllEffects;
    assert batches[..|batches|] == batches;
  }

  lemma NoneLeft(d: DB, batches: seq<seq<Op>>)
    ensures batches[0..] == batches && batches[..0] == []
  {
  }
}
