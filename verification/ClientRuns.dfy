/** A client that calls Insert and Delete one after the other, and what a crash leaves of its run, with sync on and
    with sync off. */
module ClientRuns {
  import opened Bytes
  import opened Entries
  import opened CowNodes
  import opened CowTree
  import opened Crash
  import opened CrashSteps
  import opened Database
  import opened Disk
  import opened PageManager
  import opened Runs
  import opened Store
  import opened Trees
  import BTree

  /** One call. It leads to the next epoch in any case, and to a database at rest unless the run ends with it. */
  method Call(btree: BTree.BTree, op: Op, ghost d: DB) returns (st: Status, ghost leg: Leg)
    requires Good(d) && Apply(d, op).d.a.cur <= PAGE_LIMIT
    requires btree.Rests(d) && Safe(d.a, PageSet(d.t)) && btree.pm.sync
    modifies btree, btree.pm
    ensures var o := Apply(d, op);
            && st == o.st
            && Leads(Epoch(old(btree.Now()), d.t, d.h), leg, Epoch(btree.Now(), o.d.t, o.d.h))
            && (Passes(d, op) ==> btree.Rests(o.d))
  {
    hide Good, Stored, Safe, PageSet, Step, PageManager.Valid, Names, Mirrors, Database.Insert, Database.Delete;
    ghost var s, mid := btree.Now(), btree.Now();
    match op {
      case Put(e) => st, mid := btree.Insert(e.key, e.val, d);
      case Remove(k) => st, mid := btree.Delete(k, d);
    }
    FailureKeepsTree(d, op);
    StepSafe(s, mid, PageSet(d.t));
    if st == Ok {
      leg := Committed(mid, Flush);
    } else {
      leg := Uncommitted;
    }
  }

  /** A run of calls none of which panics or leaves a trace of a miss. Every epoch shows the map after as many
      operations, and the epochs form a chain, so that a crash inside call i leaves the map before or after it. */
  method CallAll(btree: BTree.BTree, ops: seq<Op>, ghost d: DB, ghost lost: multiset<nat>)
    returns (ghost es: seq<Epoch>, ghost legs: seq<Leg>)
    requires Good(d) && Accounts(d, lost) && Quiet(d) && Fresh(View(d), ops)
    requires Run(d, ops, lost).st == Ok && Run(d, ops, lost).d.a.cur <= PAGE_LIMIT
    requires btree.Rests(d) && btree.pm.sync
    modifies btree, btree.pm
    ensures btree.Rests(Run(d, ops, lost).d)
    ensures Chain(es, legs) && |es| == |ops| + 1
    ensures es[0] == Epoch(old(btree.Now()), d.t, d.h) && es[|ops|].s == btree.Now()
    ensures forall i | 0 <= i <= |ops| :: MapOf(Flat(es[i].t)) == Effects(View(d), ops[..i])
  {
    hide Good, Accounts, Flat, Fresh, Run, Apply, Leads, Passes, LostAfter, MapOf, RunTo, BTree.BTree.Rests,
         PageSet, Safe;
    ghost var cur, gone := d, lost;
    es, legs := [Epoch(btree.Now(), d.t, d.h)], [];
    RunStarts(d, ops, lost);
    RunMiddle(d, ops, lost, 0, d, lost);
    var i := 0;
    while i < |ops|
      invariant i <= |ops| && RunTo(d, ops, lost, i, cur, gone) && btree.Rests(cur)
      invariant Chain(es, legs) && |legs| == i && es[0] == Epoch(old(btree.Now()), d.t, d.h)
      invariant es[i] == Epoch(btree.Now(), cur.t, cur.h)
      invariant forall j | 0 <= j <= i :: MapOf(Flat(es[j].t)) == Effects(View(d), ops[..j])
    {
      RunMiddle(d, ops, lost, i, cur, gone);
      RunAdvances(d, ops, lost, i, cur, gone);
      AccountsSafe(cur, gone);
      ghost var o := Apply(cur, ops[i]);
      var st;
      ghost var leg;
      st, leg := Call(btree, ops[i], cur);
      ghost var e := Epoch(btree.Now(), o.d.t, o.d.h);
      ChainExtends(es, legs, leg, e);
      es, legs, cur, gone := es + [e], legs + [leg], o.d, LostAfter(cur, ops[i], gone);
      i := i + 1;
      RunMiddle(d, ops, lost, i, cur, gone);
    }
    RunEnds(d, ops, lost, cur, gone);
  }

  /** The same from a new file on: nothing is taken for granted about the file, and it starts at rest. */
  method CreateAndCallAll(ops: seq<Op>)
    returns (btree: BTree.BTree, ghost es: seq<Epoch>, ghost legs: seq<Leg>)
    requires Fresh(map[], ops) && FromNewFile(ops).st == Ok && FromNewFile(ops).d.a.cur <= PAGE_LIMIT
    ensures btree.Rests(FromNewFile(ops).d)
    ensures Chain(es, legs) && AtRest(es[0]) && |es| == |ops| + 1 && es[0].s.log == [] && es[|ops|].s == btree.Now()
    ensures forall i | 0 <= i <= |ops| :: MapOf(Flat(es[i].t)) == Effects(map[], ops[..i])
  {
    hide Good, Accounts, View, Stored, MapOf, Flat, Chain, Fresh, Run, Mirrors;
    EmptyIsGood();
    var pm := new PageManager(true);
    btree := new BTree.BTree(pm);
    btree.Mirrored();
    EmptyAtRest(btree.Now());
    es, legs := CallAll(btree, ops, EMPTY_DB, multiset{});
  }

  ghost function FromNewFile(ops: seq<Op>): RunOut
    requires Fresh(map[], ops)
  {
    EmptyIsGood();
    Run(EMPTY_DB, ops, multiset{})
  }

  lemma EmptyAtRest(s: State)
    requires s.log == [] && s.root == 0 && Mirrors(s) && Stored(s.m, EMPTY_DB.t, EMPTY_DB.h, PageSet(EMPTY_DB.t))
    ensures AtRest(Epoch(s, EMPTY_DB.t, EMPTY_DB.h))
  {
    hide AtRest, Mirrors;
    NewFileAtRest(s);
  }

  /** The whole run: at whatever moment the system crashes, what is left is the map after the calls that had returned,
      or that after the call under way as well. */
  lemma CrashLeavesAPrefix(m: map<seq<byte>, seq<byte>>, ops: seq<Op>, es: seq<Epoch>, legs: seq<Leg>, i: nat, n: nat,
                           disk: seq<seq<byte>>)
    requires Chain(es, legs) && |es| == |ops| + 1 && AtRest(es[0]) && i < |ops|
    requires forall j | 0 <= j <= |ops| :: MapOf(Flat(es[j].t)) == Effects(m, ops[..j])
    requires |es[i].s.log| <= n <= |es[i + 1].s.log| <= |es[|ops|].s.log|
    requires CrashImage(es[|ops|].s.log[..n], disk) && LongEnough(disk, es[i], legs[i], n)
    ensures HoldsOneOf(disk, {Effects(m, ops[..i]), Effects(m, ops[..i + 1])})
    ensures n == |es[i].s.log| ==> HoldsOneOf(disk, {Effects(m, ops[..i])})
  {
    hide Leads, AtRest, MapOf, Flat, CrashImage, LongEnough, HoldsOneOf;
    CrashLeavesOldOrNew(es, legs, i, n, disk);
  }

  // ---- the same without sync

  lemma FirstInsert(e: KV)
    requires |e.key| + |e.val| <= MAX_KV_LEN
    ensures Good(EMPTY_DB)
    ensures var o := Database.Insert(EMPTY_DB, e);
            && o.st == Ok && o.d.a.cur == 3 && o.d.t == Tree(2, [e], []) && o.d.h == 0
  {
    hide Flat, Sorted, InsertRoot, LB;
    EmptyIsGood();
    UsedOfNone();
    RootLeafTakes(EMPTY_DB.a, EMPTY_DB.t, e, []);
    InsIntoNone(e);
  }

  lemma InsIntoNone(e: KV)
    ensures Ins([], e) == [e]
  {
  }

  lemma OnlyWrites(s: State, mid: State, base: set<nat>, i: nat)
    requires Step(s, mid, base) && s.log == [] && i < |mid.log|
    ensures mid.log[i] != Flush
  {
    hide Safe;
  }

  /** On a new file opened with sync off, already the first insertion can be torn: it succeeds, and a crash right after
      it can leave a disk that holds neither the empty tree nor the new one. */
  method InsertUnsynced(k: seq<byte>, v: seq<byte>) returns (btree: BTree.BTree, ghost disk: seq<seq<byte>>)
    requires |k| + |v| <= MAX_KV_LEN
    ensures btree.Rests(Database.Insert(EMPTY_DB, KV(k, v)).d) && Database.Insert(EMPTY_DB, KV(k, v)).st == Ok
    ensures CrashImage(btree.Now().log, disk) && |disk| == |btree.Now().m|
    ensures !Durable(disk, EMPTY_DB.t, EMPTY_DB.h) && !Durable(disk, Tree(2, [KV(k, v)], []), 0)
  {
    hide Good, Accounts, Stored, Mirrors, Database.Insert, Safe, Durable, CrashImage, Step, PageSet, PageManager.Valid;
    EmptyIsGood();
    FirstInsert(KV(k, v));
    var pm := new PageManager(false);
    btree := new BTree.BTree(pm);
    AccountsSafe(EMPTY_DB, multiset{});
    ghost var s := btree.Now();
    var st;
    ghost var mid;
    st, mid := btree.Insert(k, v, EMPTY_DB);
    forall i | 0 <= i < |mid.log|
      ensures mid.log[i] != Flush
    {
      OnlyWrites(s, mid, PageSet(EMPTY_DB.t), i);
    }
    ghost var image := btree.Now().m[0];
    assert btree.Now().log == mid.log + [Wrote(0, image)];
    disk := UnsyncedCommitCanBeTorn(mid, EMPTY_DB.t, 0, Tree(2, [KV(k, v)], []), 0,
                                    Live(PageSet(EMPTY_DB.t), mid.a), image);
  }
}
