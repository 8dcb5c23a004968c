/** Whole runs of transactions, batches, and what operations that fail leave behind. */
module Runs {
  import opened Bytes
  import opened Entries
  import opened PageCodec
  import opened NodeManager
  import opened Trees
  import opened CowNodes
  import opened CowTree
  import opened CowContents
  import opened CowPages
  import opened CowRoom
  import opened Database

  datatype Op = Put(e: KV) | Remove(k: seq<byte>)

  /** Nothing freed or handed out since the last commit. */
  ghost predicate Quiet(d: DB) {
    d.a.pend == [] && d.a.got == []
  }

  // ---- pages handed out within a transaction

  /** A page handed out since the last commit is handed out once, and is neither in the committed tree nor lost. */
  lemma TakenAreFresh(d: DB, lost: multiset<nat>, b: Alloc, x: nat)
    requires Accounts(d, lost) && Quiet(d)
    requires d.a.cur <= b.cur && Stock(b, b.cur)[x] == Stock(d.a, b.cur)[x]
    ensures multiset(b.got)[x] <= 1
    ensures x in b.got ==> x !in Pages(d.t) && x !in lost && 1 <= x < b.cur && x !in b.fl
  {
    hide Pages;
    AccountsMeaning(d, lost, x);
    assert x in b.got <==> multiset(b.got)[x] > 0;
    assert x in b.fl <==> multiset(b.fl)[x] > 0;
    assert Stock(b, b.cur)[x] == multiset(b.got)[x] + multiset(b.fl)[x];
    assert Stock(d.a, b.cur)[x] == multiset(d.a.fl)[x] + Span(d.a.cur, b.cur)[x];
    assert x in d.a.fl <==> multiset(d.a.fl)[x] > 0;
  }

  /** Copy-on-write: every page an insertion writes lies outside the committed tree, and none is written twice. */
  lemma InsertWritesFresh(d: DB, lost: multiset<nat>, e: KV, x: nat)
    requires Good(d) && Accounts(d, lost) && Quiet(d)
    ensures var b := InsertRoot(d.a, d.t, d.h, e, []).a;
            multiset(b.got)[x] <= 1 && (x in b.got ==> x !in Pages(d.t) && 1 <= x < b.cur)
  {
    hide Pages, Held, Stock, InsertRoot;
    InsertRootAccount(d.a, d.t, d.h, e, [], x);
    TakenAreFresh(d, lost, InsertRoot(d.a, d.t, d.h, e, []).a, x);
  }

  /** The same for a deletion, whether it succeeds or not. */
  lemma DeleteWritesFresh(d: DB, lost: multiset<nat>, k: seq<byte>, x: nat)
    requires Good(d) && Accounts(d, lost) && Quiet(d)
    ensures var b := DeleteNode(d.a, d.t, d.h, k).a;
            multiset(b.got)[x] <= 1 && (x in b.got ==> x !in Pages(d.t) && 1 <= x < b.cur)
  {
    hide Pages, Held, Stock, DeleteNode;
    var b := DeleteNode(d.a, d.t, d.h, k).a;
    DeleteNodeBalanced(d.a, d.t, d.h, k, b.cur, x);
    TakenAreFresh(d, lost, b, x);
  }

  // ---- a deletion that fails

  /** No node the search for k enters below n needs a second key. */
  predicate PathFull(n: Tree, ghost h: nat, k: seq<byte>)
    requires Shape(n, h)
    decreases h
  {
    |n.kids| > 0 && !Holds(n.kvs, k) ==>
      !Underfull(n.kids[LB(n.kvs, k)]) && PathFull(n.kids[LB(n.kvs, k)], h - 1, k)
  }

  lemma {:induction false} DeleteOnlyAdds(a: Alloc, n: Tree, h: nat, k: seq<byte>)
    requires Shape(n, h) && Fillable(n)
    ensures a.pend <= DeleteNode(a, n, h, k).a.pend
    decreases h, |n.kvs|, 2
  {
    hide Used, Small, LB, FillChild;
    if h > 0 {
      if Holds(n.kvs, k) {
        DeleteHereOnlyAdds(a, n, h, k);
      } else {
        FillChildFrees(a, n, LB(n.kvs, k), h);
        var r := FillChild(a, n, LB(n.kvs, k), h);
        if r.st == Ok {
          DeleteBelowOnlyAdds(r.a, r.t, h, k);
        }
      }
    }
  }

  lemma {:induction false} DeleteBelowOnlyAdds(a: Alloc, n: Tree, h: nat, k: seq<byte>)
    requires h > 0 && Shape(n, h)
    ensures a.pend <= DeleteBelow(a, n, h, k).a.pend
    decreases h, |n.kvs|, 1
  {
    hide Used, Small, LB;
    if Holds(n.kvs, k) {
      DeleteHereOnlyAdds(a, n, h, k);
    } else {
      DeleteOnlyAdds(a, n.kids[LB(n.kvs, k)], h - 1, k);
    }
  }

  lemma {:induction false} DeleteHereOnlyAdds(a: Alloc, n: Tree, h: nat, k: seq<byte>)
    requires h > 0 && Shape(n, h) && Holds(n.kvs, k)
    ensures a.pend <= DeleteHere(a, n, h, k).a.pend
    decreases h, |n.kvs|, 0
  {
    hide Used, Small, LB, LastKV, FirstKV;
    var i := LB(n.kvs, k);
    var left, right := n.kids[i], n.kids[i + 1];
    if !Underfull(left) {
      DeleteOnlyAdds(Free(a, [left.page]), left, h - 1, LastKV(left, h - 1).key);
    } else if !Underfull(right) {
      DeleteOnlyAdds(Free(a, [right.page]), right, h - 1, FirstKV(right, h - 1).key);
    } else {
      var m := Merge(Free(a, [left.page, right.page]), n, i, h);
      DeleteOnlyAdds(m.a, m.t, h, k);
    }
  }

  /** fillChild touches nothing when the child has two keys; otherwise it frees the child and a sibling first. */
  lemma FillChildFrees(a: Alloc, n: Tree, i: nat, h: nat)
    requires h > 0 && Shape(n, h) && Fillable(n) && i <= |n.kvs|
    ensures var r := FillChild(a, n, i, h);
            && a.pend <= r.a.pend
            && (!Underfull(n.kids[i]) ==> r == Res(Ok, a, n))
            && (Underfull(n.kids[i]) ==> n.kids[i].page in r.a.pend[|a.pend|..])
  {
    hide Used, Small, DropLast, DropFirst, Prepended, Appended, Joined, WithPair, WithMerged, UpdateFits;
  }

  /** A deletion that does not find its key has touched nothing if no node on the way needed a second key,
      and otherwise has put a page that is still in use on the list of freed pages. */
  lemma {:induction false} MissLeaves(a: Alloc, n: Tree, h: nat, k: seq<byte>)
    requires Shape(n, h) && Fillable(n) && Sorted(Flat(n)) && DeleteNode(a, n, h, k).st == NotFound
    ensures var b := DeleteNode(a, n, h, k).a;
            && a.pend <= b.pend
            && (PathFull(n, h, k) ==> b == a)
            && (!PathFull(n, h, k) ==> exists x :: x in KidPages(n.kids) && x in b.pend[|a.pend|..])
    decreases h
  {
    hide Used, Small, LB, FillChild, Flat, Sorted, Pages, KidPages, Less;
    DeleteOnlyAdds(a, n, h, k);
    if h > 0 {
      DeleteNodeFlat(a, n, h, k);
      if Holds(n.kvs, k) {
        SeparatorHeld(n, k);
      } else {
        var i := LB(n.kvs, k);
        var r := FillChild(a, n, i, h);
        FillChildFrees(a, n, i, h);
        KidPagesAt(n.kids, i);
        if Underfull(n.kids[i]) {
          if r.st == Ok {
            DeleteBelowOnlyAdds(r.a, r.t, h, k);
          }
          OwnPage(n.kids[i]);
        } else {
          KidSorted(n, i);
          MissLeaves(a, n.kids[i], h - 1, k);
          OwnKids(n.kids[i]);
        }
      }
    }
  }

  lemma OwnPage(t: Tree)
    ensures t.page in Pages(t)
  {
  }

  lemma OwnKids(t: Tree)
    ensures KidPages(t.kids) <= Pages(t)
  {
  }

  /** A failed deletion leaves the map alone. It leaves the database as it was exactly when no node on the
      search path had a single key; otherwise a page of the committed tree is waiting to be reused. */
  lemma FailedDeleteIsHarmlessIff(d: DB, k: seq<byte>)
    requires Good(d) && Quiet(d) && Delete(d, k).st == NotFound
    ensures var o := Delete(d, k);
            && o.d.t == d.t && k !in View(d)
            && (PathFull(d.t, d.h, k) <==> o.d == d)
            && (PathFull(d.t, d.h, k) <==> forall x :: !(x in Pages(d.t) && x in o.d.a.pend))
  {
    hide Used, Small, DeleteNode, Flat, Sorted, Pages, KidPages;
    MissLeaves(d.a, d.t, d.h, k);
    DeleteNodeFlat(d.a, d.t, d.h, k);
    OwnKids(d.t);
  }

  // ---- runs of committed operations

  ghost function Apply(d: DB, op: Op): Out
    requires Good(d)
  {
    match op
    case Put(e) => Insert(d, e)
    case Remove(k) => Delete(d, k)
  }

  /** The map after an operation: an entry that is too long is rejected. */
  ghost function Effect(m: map<seq<byte>, seq<byte>>, op: Op): map<seq<byte>, seq<byte>> {
    match op
    case Put(e) => if |e.key| + |e.val| > MAX_KV_LEN then m else m[e.key := e.val]
    case Remove(k) => m - {k}
  }

  ghost function Effects(m: map<seq<byte>, seq<byte>>, ops: seq<Op>): map<seq<byte>, seq<byte>>
    decreases |ops|
  {
    if |ops| == 0 then m else Effects(Effect(m, ops[0]), ops[1..])
  }

  /** Every insertion is of a key that is not there when its turn comes. */
  ghost predicate Fresh(m: map<seq<byte>, seq<byte>>, ops: seq<Op>)
    decreases |ops|
  {
    |ops| > 0 ==>
      && (ops[0].Put? ==> ops[0].e.key !in m)
      && Fresh(Effect(m, ops[0]), ops[1..])
  }

  /** Pages a successful operation loses for good. */
  ghost function Leak(d: DB, op: Op): multiset<nat>
    requires Good(d)
  {
    match op
    case Put(e) => Dropped(Free(InsertRoot(d.a, d.t, d.h, e, []).a, [d.t.page]))
    case Remove(k) =>
      var r := DeleteNode(d.a, d.t, d.h, k);
      Discarded(r.t) + Dropped(Free(r.a, [d.t.page]))
  }

  /** One committed operation: the map changes as it should and every page stays accounted for. */
  lemma ApplyStep(d: DB, op: Op, lost: multiset<nat>)
    requires Good(d) && Accounts(d, lost) && Quiet(d)
    requires op.Put? ==> op.e.key !in View(d)
    ensures var o := Apply(d, op);
            && (o.st == Ok ==> && Good(o.d) && Quiet(o.d) && View(o.d) == Effect(View(d), op)
                               && Accounts(o.d, lost + Leak(d, op)))
            && (o.st != Ok ==> Good(o.d) && View(o.d) == View(d) && o.d.t == d.t)
            && (o.st == TooLarge ==> o.d == d)
            && (o.st == NotFound ==> op.Remove? && op.k !in View(d))
  {
    hide RootShape, Flat, Sorted, InsertRoot, DeleteNode, Accounts, Dropped, Discarded, FillRoot;
    match op
    case Put(e) =>
      InsertContents(d, e, []);
      if Insert(d, e).st == Ok {
        InsertAccounts(d, e, lost);
      } else {
        TooLargeKeeps(d, e);
      }
    case Remove(k) =>
      DeleteContents(d, k);
      if Delete(d, k).st == Ok {
        DeleteAccounts(d, k, lost);
      }
  }

  lemma TooLargeKeeps(d: DB, e: KV)
    requires Good(d)
    ensures Insert(d, e).st == TooLarge ==> Insert(d, e).d == d
  {
    hide InsertNode, SplitRoot;
  }

  /** An operation after which the next one finds everything in order: it was committed, or it was turned down and
      left everything as it was. */
  ghost predicate Passes(d: DB, op: Op)
    requires Good(d)
  {
    var o := Apply(d, op);
    o.st == Ok || (o.st in {TooLarge, NotFound} && o.d == d)
  }

  /** Entries that are too long and misses on a path of nodes with two keys are turned down without a trace. */
  lemma PassesIff(d: DB, op: Op)
    requires Good(d) && Quiet(d)
    ensures var st := Apply(d, op).st;
            Passes(d, op) <==> st in {Ok, TooLarge} || (st == NotFound && PathFull(d.t, d.h, op.k))
  {
    hide InsertRoot, DeleteNode, PathFull;
    match op
    case Put(e) => TooLargeKeeps(d, e);
    case Remove(k) =>
      if Delete(d, k).st == NotFound {
        FailedDeleteIsHarmlessIff(d, k);
      }
  }

  /** What is lost after an operation. */
  ghost function LostAfter(d: DB, op: Op, lost: multiset<nat>): multiset<nat>
    requires Good(d)
  {
    if Apply(d, op).st == Ok then lost + Leak(d, op) else lost
  }

  lemma PassesStep(d: DB, op: Op, lost: multiset<nat>)
    requires Good(d) && Accounts(d, lost) && Quiet(d) && Passes(d, op)
    requires op.Put? ==> op.e.key !in View(d)
    ensures var o := Apply(d, op);
            && Good(o.d) && Quiet(o.d) && View(o.d) == Effect(View(d), op) && Accounts(o.d, LostAfter(d, op, lost))
  {
    hide Accounts, Flat, Sorted, RootShape, InsertRoot, DeleteNode, Leak, Quiet;
    ApplyStep(d, op, lost);
    if Apply(d, op).st == NotFound {
      assert View(d) - {op.k} == View(d);
    }
  }

  datatype RunOut = RunOut(st: Status, d: DB, done: nat)

  /** Operations one after the other, each committed or turned down without a trace; the run ends with the first
      that panics or misses and leaves one. */
  ghost function Run(d: DB, ops: seq<Op>, lost: multiset<nat>): RunOut
    requires Good(d) && Accounts(d, lost) && Quiet(d) && Fresh(View(d), ops)
    decreases |ops|
  {
    hide Accounts, Flat, Apply, Passes, LostAfter;
    if |ops| == 0 then RunOut(Ok, d, 0)
    else
      var o := Apply(d, ops[0]);
      if !Passes(d, ops[0]) then RunOut(o.st, o.d, 0)
      else
        PassesStep(d, ops[0], lost);
        var r := Run(o.d, ops[1..], LostAfter(d, ops[0], lost));
        r.(done := r.done + 1)
  }

  /** Pages lost along a run. */
  ghost function LostBy(d: DB, ops: seq<Op>, lost: multiset<nat>): multiset<nat>
    requires Good(d) && Accounts(d, lost) && Quiet(d) && Fresh(View(d), ops)
    decreases |ops|
  {
    hide Accounts, Flat, Apply, Passes, LostAfter;
    if |ops| == 0 || !Passes(d, ops[0]) then lost
    else
      PassesStep(d, ops[0], lost);
      LostBy(Apply(d, ops[0]).d, ops[1..], LostAfter(d, ops[0], lost))
  }

  /** Over every run: the tree stays well formed, the map is the fold of the operations done, and each page is in the
      tree, in the free list or lost, exactly one of these. The run ends early only with a panic, or with a miss on a
      path that has a node of one key. */
  lemma {:induction false} RunSafe(d: DB, ops: seq<Op>, lost: multiset<nat>)
    requires Good(d) && Accounts(d, lost) && Quiet(d) && Fresh(View(d), ops)
    ensures var r := Run(d, ops, lost);
            && Good(r.d) && r.done <= |ops| && View(r.d) == Effects(View(d), ops[..r.done])
            && (r.st == Ok <==> r.done == |ops|) && r.st in {Ok, Panic, NotFound}
            && (r.st == Ok ==> Quiet(r.d) && Accounts(r.d, LostBy(d, ops, lost)))
            && (r.st == NotFound ==> && ops[r.done].Remove? && ops[r.done].k !in View(r.d)
                                     && !PathFull(r.d.t, r.d.h, ops[r.done].k))
    decreases |ops|
  {
    hide Accounts, Flat, Sorted, RootShape, Apply, Leak, View, Quiet, PathFull, LostAfter, Passes;
    if |ops| > 0 {
      var o := Apply(d, ops[0]);
      PassesIff(d, ops[0]);
      ApplyStep(d, ops[0], lost);
      if Passes(d, ops[0]) {
        PassesStep(d, ops[0], lost);
        var more := LostAfter(d, ops[0], lost);
        RunSafe(o.d, ops[1..], more);
        var r := Run(o.d, ops[1..], more);
        var n := r.done + 1;
        assert ops[..n][0] == ops[0] && ops[..n][1..] == ops[1..][..r.done];
      } else {
        assert ops[..0] == [];
        FailureKeepsTree(d, ops[0]);
      }
    }
  }

  lemma FailureKeepsTree(d: DB, op: Op)
    requires Good(d)
    ensures Apply(d, op).st != Ok ==> Apply(d, op).d.t == d.t && Apply(d, op).d.h == d.h
    ensures Apply(d, op).st in if op.Put? then {Ok, TooLarge, Panic} else {Ok, NotFound, Panic}
  {
    hide InsertRoot, DeleteNode;
  }

  // ---- a run seen from the middle

  function AfterMore(r: RunOut, i: nat): RunOut {
    r.(done := r.done + i)
  }

  lemma {:induction false} EffectsSnoc(m: map<seq<byte>, seq<byte>>, ops: seq<Op>, i: nat)
    requires i < |ops|
    ensures Effects(m, ops[..i + 1]) == Effect(Effects(m, ops[..i]), ops[i])
    decreases i
  {
    hide Effect;
    if i == 0 {
      assert ops[..1] == [ops[0]] && ops[..0] == [] && [ops[0]][1..] == [];
    } else {
      EffectsSnoc(Effect(m, ops[0]), ops[1..], i - 1);
      assert ops[..i + 1][1..] == ops[1..][..i] && ops[..i][1..] == ops[1..][..i - 1];
    }
  }

  /** After i operations the run has come to database cur. */
  ghost predicate RunTo(d: DB, ops: seq<Op>, lost: multiset<nat>, i: nat, cur: DB, gone: multiset<nat>)
    requires Good(d) && Accounts(d, lost) && Quiet(d) && Fresh(View(d), ops)
  {
    && i <= |ops| && Good(cur) && Accounts(cur, gone) && Quiet(cur) && Fresh(View(cur), ops[i..])
    && View(cur) == Effects(View(d), ops[..i])
    && Run(d, ops, lost) == AfterMore(Run(cur, ops[i..], gone), i)
  }

  lemma RunStarts(d: DB, ops: seq<Op>, lost: multiset<nat>)
    requires Good(d) && Accounts(d, lost) && Quiet(d) && Fresh(View(d), ops)
    ensures RunTo(d, ops, lost, 0, d, lost)
  {
    hide Good, Accounts, View, Quiet;
    assert ops[0..] == ops && ops[..0] == [];
  }

  lemma RunMiddle(d: DB, ops: seq<Op>, lost: multiset<nat>, i: nat, cur: DB, gone: multiset<nat>)
    requires Good(d) && Accounts(d, lost) && Quiet(d) && Fresh(View(d), ops) && RunTo(d, ops, lost, i, cur, gone)
    ensures Good(cur) && Accounts(cur, gone) && Quiet(cur) && View(cur) == Effects(View(d), ops[..i])
  {
    hide Good, Accounts, View, Quiet;
  }

  lemma RunAdvances(d: DB, ops: seq<Op>, lost: multiset<nat>, i: nat, cur: DB, gone: multiset<nat>)
    requires Good(d) && Accounts(d, lost) && Quiet(d) && Fresh(View(d), ops)
    requires RunTo(d, ops, lost, i, cur, gone) && i < |ops|
    ensures ops[i].Put? ==> ops[i].e.key !in View(cur)
    ensures var o := Apply(cur, ops[i]);
            && (if Passes(cur, ops[i]) then RunTo(d, ops, lost, i + 1, o.d, LostAfter(cur, ops[i], gone))
                else Run(d, ops, lost) == RunOut(o.st, o.d, i))
            && o.d.a.cur <= Run(d, ops, lost).d.a.cur
    ensures Run(d, ops, lost).st == Ok ==> Passes(cur, ops[i])
  {
    hide Good, Accounts, View, Quiet, Apply, LostAfter, Effect;
    var rest := ops[i..];
    assert rest[0] == ops[i] && rest[1..] == ops[i + 1..];
    RunGrows(cur, rest, gone);
    EffectsSnoc(View(d), ops, i);
    if Passes(cur, ops[i]) {
      PassesStep(cur, ops[i], gone);
    }
  }

  lemma RunEnds(d: DB, ops: seq<Op>, lost: multiset<nat>, cur: DB, gone: multiset<nat>)
    requires Good(d) && Accounts(d, lost) && Quiet(d) && Fresh(View(d), ops)
    requires RunTo(d, ops, lost, |ops|, cur, gone)
    ensures Run(d, ops, lost) == RunOut(Ok, cur, |ops|)
  {
    hide Good, Accounts, View, Quiet;
    assert ops[|ops|..] == [];
  }

  // ---- runs without panics

  /** A run of insertions of bounded entries never panics and never fails. */
  lemma {:induction false} InsertRunNeverPanics(d: DB, ops: seq<Op>, lost: multiset<nat>, lo: nat, hi: nat)
    requires Good(d) && Accounts(d, lost) && Quiet(d) && Fresh(View(d), ops)
    requires hi <= 2 * lo && hi <= 1343 && Within(Flat(d.t), lo, hi)
    requires forall op | op in ops :: op.Put? && lo <= Footprint(op.e) <= hi
    ensures Run(d, ops, lost).st == Ok
    decreases |ops|
  {
    hide Accounts, Flat, Sorted, RootShape, Leak, Within, InsertRoot;
    if |ops| > 0 {
      var e := ops[0].e;
      assert ops[0] in ops;
      InsertRootHasRoom(d.a, d.t, d.h, e, [], lo, hi);
      PassesStep(d, ops[0], lost);
      var o := Apply(d, ops[0]);
      InsertContents(d, e, []);
      InsWithin(Flat(d.t), e, lo, hi);
      InsertRunNeverPanics(o.d, ops[1..], LostAfter(d, ops[0], lost), lo, hi);
    }
  }

  lemma InsWithin(s: seq<KV>, e: KV, lo: nat, hi: nat)
    requires Within(s, lo, hi) && lo <= Footprint(e) <= hi
    ensures Within(Ins(s, e), lo, hi)
  {
    hide LB, Footprint;
  }

  lemma DelWithin(s: seq<KV>, k: seq<byte>, lo: nat, hi: nat)
    requires Within(s, lo, hi) && Holds(s, k)
    ensures Within(Del(s, k), lo, hi)
  {
    hide LB, Footprint;
  }

  /** The bump pointer never goes back. */
  lemma ApplyGrows(d: DB, op: Op)
    requires Good(d)
    ensures d.a.cur <= Apply(d, op).d.a.cur
  {
    hide InsertRoot, DeleteNode, FillRoot, Used, Small;
    match op
    case Put(e) => InsertRootAccount(d.a, d.t, d.h, e, [], 0);
    case Remove(k) => DeleteNodeBalanced(d.a, d.t, d.h, k, 0, 0);
  }

  lemma {:induction false} RunGrows(d: DB, ops: seq<Op>, lost: multiset<nat>)
    requires Good(d) && Accounts(d, lost) && Quiet(d) && Fresh(View(d), ops)
    ensures d.a.cur <= Run(d, ops, lost).d.a.cur
    ensures |ops| > 0 ==> Apply(d, ops[0]).d.a.cur <= Run(d, ops, lost).d.a.cur
    decreases |ops|
  {
    hide Accounts, Flat, Sorted, RootShape, Apply, View, Quiet, LostAfter, Passes;
    if |ops| > 0 {
      ApplyGrows(d, ops[0]);
      if Passes(d, ops[0]) {
        PassesStep(d, ops[0], lost);
        RunGrows(Apply(d, ops[0]).d, ops[1..], LostAfter(d, ops[0], lost));
      }
    }
  }

  /** One operation on entries of a single size, with small page numbers. */
  lemma EqualStepNeverPanics(d: DB, op: Op, lost: multiset<nat>, hi: nat)
    requires Good(d) && Accounts(d, lost) && Within(Flat(d.t), hi, hi) && hi <= 1343
    requires op.Put? ==> Footprint(op.e) == hi
    requires d.a.cur + hi <= PAGE_SIZE - 12
    ensures var o := Apply(d, op); o.st != Panic && (o.st == Ok ==> Within(Flat(o.d.t), hi, hi))
    ensures Apply(d, op).st != Ok ==> Apply(d, op).d.t == d.t
  {
    hide Accounts, Flat, Sorted, Within, InsertRoot, DeleteNode, Used, Small, Slack, FillRoot, Del, Ins, Pages,
         KidPages;
    match op
    case Put(e) =>
      InsertRootHasRoom(d.a, d.t, d.h, e, [], hi, hi);
      InsertRootFlat(d.a, d.t, d.h, e, []);
      InsWithin(Flat(d.t), e, hi, hi);
    case Remove(k) =>
      EqualSlack(d.t, d.h, hi);
      WithinWider(Flat(d.t), hi, hi);
      if |d.t.kvs| == 1 && d.h > 0 {
        KidPagesAt(d.t.kids, 1);
        OwnPage(d.t.kids[1]);
        OwnKids(d.t);
        AccountsMeaning(d, lost, d.t.kids[1].page);
      }
      DeleteHasRoom(d.a, d.t, d.h, k, hi);
      DeleteNodeFlat(d.a, d.t, d.h, k);
      if Delete(d, k).st == Ok {
        DelWithin(Flat(d.t), k, hi, hi);
        FillRootFlat(DeleteNode(d.a, d.t, d.h, k).t, d.h);
      }
  }

  /** Over a run of insertions and deletions of entries of one size, as long as page numbers stay small, no operation
      panics: the run ends early only with a miss. */
  lemma {:induction false} EqualRunNeverPanics(d: DB, ops: seq<Op>, lost: multiset<nat>, hi: nat)
    requires Good(d) && Accounts(d, lost) && Quiet(d) && Fresh(View(d), ops)
    requires hi <= 1343 && Within(Flat(d.t), hi, hi)
    requires forall op | op in ops :: op.Put? ==> Footprint(op.e) == hi
    requires Run(d, ops, lost).d.a.cur + hi <= PAGE_SIZE - 12
    ensures Run(d, ops, lost).st != Panic
    decreases |ops|
  {
    hide Accounts, Flat, Sorted, RootShape, Apply, View, Quiet, LostAfter, Passes, Within, Footprint;
    if |ops| > 0 {
      assert ops[0] in ops;
      RunGrows(d, ops, lost);
      EqualStepNeverPanics(d, ops[0], lost, hi);
      if Passes(d, ops[0]) {
        PassesStep(d, ops[0], lost);
        EqualRunNeverPanics(Apply(d, ops[0]).d, ops[1..], LostAfter(d, ops[0], lost), hi);
      }
    }
  }

  /** Once a page of the tree waits to be reused, the next committed insertion leaves it counted twice:
      twice in the free list, or in the free list and in the tree, or twice in the tree. */
  lemma StalePendingIsPublished(d: DB, e: KV, x: nat)
    requires Good(d) && x in Pages(d.t) && x in d.a.pend && x < d.a.cur
    requires Insert(d, e).st == Ok
    requires var b := Free(InsertRoot(d.a, d.t, d.h, e, []).a, [d.t.page]);
             8 + 4 * (|b.fl| + |b.pend|) < PAGE_SIZE
    ensures var o := Insert(d, e).d; Pages(o.t)[x] + multiset(o.a.fl)[x] >= 2
  {
    hide Pages, KidPages, InsertRoot;
    var r := InsertRoot(d.a, d.t, d.h, e, []);
    var b := Free(r.a, [d.t.page]);
    InsertRootAccount(d.a, d.t, d.h, e, [], x);
    FreeAccount(r.a, [d.t.page], b.cur, x);
    SeqOf(d.t.page, 0);
    PagesOf(d.t, x);
    CommitAccount(b, x);
    assert multiset(d.a.pend)[x] > 0;
    assert Held(d.a, b.cur)[x] >= multiset(d.a.pend)[x];
    assert Held(Commit(b), b.cur)[x] == multiset(Commit(b).fl)[x] + multiset(Commit(b).pend)[x];
  }
}
