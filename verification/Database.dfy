/** Transactions: an operation on the committed root together with its commit, and runs of them. */
module Database {
  import opened Bytes
  import opened Entries
  import opened PageCodec
  import opened NodeManager
  import opened Trees
  import opened CowNodes
  import opened CowTree
  import opened CowContents
  import opened CowPages
  import opened MasterCodec

  /** Allocator and current root, the root with its height. */
  datatype DB = DB(a: Alloc, t: Tree, h: nat)

  datatype Out = Out(st: Status, d: DB)

  /** A well-formed tree of distinct keys. */
  ghost predicate Good(d: DB) {
    RootShape(d.t, d.h) && Sorted(Flat(d.t))
  }

  /** The map the current root stands for. */
  ghost function View(d: DB): map<seq<byte>, seq<byte>> {
    MapOf(Flat(d.t))
  }

  /** The pending pages are published only while the list stays below the capacity of the master page. */
  predicate ListFull(a: Alloc) {
    |a.fl| + |a.pend| >= MASTER_CAPACITY
  }

  /** HandleMasterPage, as far as the free list is concerned: the pending pages are published or dropped. */
  function Commit(a: Alloc): Alloc {
    Alloc(if ListFull(a) then a.fl else a.fl + a.pend, a.cur, [], [])
  }

  function ShrunkHeight(t: Tree, h: nat): nat {
    if |t.kvs| == 0 && |t.kids| > 0 && h > 0 then h - 1 else h
  }

  // ---- single operations: with their own commit, and as a member of a batch

  ghost function Insert(d: DB, e: KV): Out
    requires Good(d)
  {
    var r := InsertRoot(d.a, d.t, d.h, e, []);
    if r.st == Ok then Out(Ok, DB(Commit(Free(r.a, [d.t.page])), r.t, Grown(d.t, d.h)))
    else Out(r.st, d.(a := r.a))
  }

  ghost function InsertNoSync(d: DB, e: KV): Out
    requires Good(d)
  {
    var r := InsertRoot(d.a, d.t, d.h, e, [d.t.page]);
    if r.st == Ok then Out(Ok, DB(r.a, r.t, Grown(d.t, d.h))) else Out(r.st, d.(a := r.a))
  }

  ghost function Delete(d: DB, k: seq<byte>): Out
    requires Good(d)
  {
    var r := DeleteNode(d.a, d.t, d.h, k);
    if r.st == Ok then Out(Ok, DB(Commit(Free(r.a, [d.t.page])), FillRoot(r.t), ShrunkHeight(r.t, d.h)))
    else Out(r.st, d.(a := r.a))
  }

  /** DeleteNoSync frees the committed root, whichever root it was given. */
  ghost function DeleteNoSync(d: DB, k: seq<byte>, committed: nat): Out
    requires Good(d)
  {
    var r := DeleteNode(d.a, d.t, d.h, k);
    if r.st == Ok then Out(Ok, DB(Free(r.a, [committed]), FillRoot(r.t), ShrunkHeight(r.t, d.h)))
    else Out(r.st, d.(a := r.a))
  }

  // ---- contents

  /** Inserting a new key is map update; the tree stays a tree of distinct keys exactly when the key is new. */
  lemma InsertContents(d: DB, e: KV, early: seq<nat>)
    requires Good(d)
    ensures var r := InsertRoot(d.a, d.t, d.h, e, early);
            r.st == Ok ==> && Flat(r.t) == Ins(Flat(d.t), e) && RootShape(r.t, Grown(d.t, d.h))
                           && (Sorted(Flat(r.t)) <==> e.key !in View(d))
                           && (e.key !in View(d) ==> MapOf(Flat(r.t)) == View(d)[e.key := e.val])
  {
    hide Flat, Sorted, Ins, InsertRoot, RootShape;
    InsertRootFlat(d.a, d.t, d.h, e, early);
    InsSorted(Flat(d.t), e);
    if e.key !in View(d) {
      InsRefinesUpdate(Flat(d.t), e);
    }
  }

  /** Deletion removes a present key from the map and reports a missing one. */
  lemma DeleteContents(d: DB, k: seq<byte>)
    requires Good(d)
    ensures var r := DeleteNode(d.a, d.t, d.h, k);
            && (r.st == Ok ==> && k in View(d)
                               && RootShape(FillRoot(r.t), ShrunkHeight(r.t, d.h))
                               && Sorted(Flat(FillRoot(r.t)))
                               && MapOf(Flat(FillRoot(r.t))) == View(d) - {k})
            && (r.st == NotFound ==> k !in View(d))
  {
    hide Flat, Sorted, Del, DeleteNode, Used, Small;
    var r := DeleteNode(d.a, d.t, d.h, k);
    DeleteNodeFlat(d.a, d.t, d.h, k);
    if r.st == Ok {
      DelRefinesRemove(Flat(d.t), k);
      FillRootFlat(r.t, d.h);
    }
  }

  lemma FillRootFlat(t: Tree, h: nat)
    requires Shape(t, h)
    ensures RootShape(FillRoot(t), ShrunkHeight(t, h)) && Flat(FillRoot(t)) == Flat(t)
  {
    hide Used, Small;
    if |t.kvs| == 0 && |t.kids| > 0 {
      assert t.kids == [t.kids[0]];
      WeaveOne(t.kids[0]);
    }
  }

  // ---- every page is accounted for

  /** Page 0 is the master page; each page from 1 below the bump pointer is in the tree, in the free list,
      pending or lost, and exactly one of these; no page beyond is any of these. */
  ghost predicate Accounts(d: DB, lost: multiset<nat>) {
    && d.a.cur >= 1
    && forall x: nat :: Pages(d.t)[x] + Held(d.a, d.a.cur)[x] + lost[x] == Span(1, d.a.cur)[x]
  }

  /** Pages the commit of a drops because they do not fit behind the list in the master page. */
  ghost function Dropped(a: Alloc): multiset<nat> {
    if 8 + 4 * (|a.fl| + |a.pend|) < PAGE_SIZE then multiset{} else multiset(a.pend)
  }

  /** A commit appends the freed pages, in the order they were freed, exactly when there are none or the list with
      them ends before the end of the master page; otherwise it loses them all. */
  lemma CommitPublishesIff(a: Alloc)
    ensures var room := a.pend == [] || 8 + 4 * (|a.fl| + |a.pend|) < PAGE_SIZE;
            && Commit(a).fl == (if room then a.fl + a.pend else a.fl)
            && (Commit(a).fl == a.fl + a.pend <==> room)
            && (Dropped(a) == multiset{} <==> room)
            && (!room ==> Dropped(a) == multiset(a.pend))
            && Commit(a).cur == a.cur && Commit(a).pend == [] && Commit(a).got == []
  {
    if a.pend == [] {
      assert a.fl + a.pend == a.fl;
    } else {
      assert a.pend[0] in multiset(a.pend);
    }
  }

  lemma DroppedIs(a: Alloc, lost: multiset<nat>)
    ensures 8 + 4 * (|a.fl| + |a.pend|) < PAGE_SIZE ==> lost + Dropped(a) == lost
    ensures 8 + 4 * (|a.fl| + |a.pend|) >= PAGE_SIZE ==> Dropped(a) == multiset(a.pend)
  {
  }

  lemma HeldHorizon(a: Alloc, N: nat, x: nat)
    requires a.cur <= N
    ensures Held(a, N)[x] == Held(a, a.cur)[x] + Span(a.cur, N)[x]
    ensures a.cur >= 1 ==> Span(1, N)[x] == Span(1, a.cur)[x] + Span(a.cur, N)[x]
  {
  }

  lemma CommitAccount(a: Alloc, x: nat)
    ensures Held(Commit(a), a.cur)[x] + Dropped(a)[x] == Held(a, a.cur)[x]
  {
    hide Span;
    SeqPlus(a.fl, a.pend);
  }

  lemma InsertRootAccount(a: Alloc, t: Tree, h: nat, e: KV, early: seq<nat>, x: nat)
    requires RootShape(t, h)
    ensures var r := InsertRoot(a, t, h, e, early);
            && a.cur <= r.a.cur
            && Stock(r.a, r.a.cur)[x] == Stock(a, r.a.cur)[x]
            && (r.st == Ok ==> Pages(r.t)[x] + Held(r.a, r.a.cur)[x] ==
                               KidPages(t.kids)[x] + multiset(early)[x] + Held(a, r.a.cur)[x])
  {
    hide Used, Small, Pages, KidPages, Held, Stock, InsertNode;
    var r := InsertRoot(a, t, h, e, early);
    var N := r.a.cur;
    if r.st != TooLarge {
      if Overflowing(t) {
        OverflowingRoot(t, h);
        var s := SplitRoot(a, t, h);
        InsertNodeBalanced(Free(s.a, early), s.t, h + 1, e, N, x);
        FreeAccount(s.a, early, N, x);
        SplitRootBalanced(a, t, h, N, x);
      } else {
        InsertNodeBalanced(Free(a, early), t, h, e, N, x);
        FreeAccount(a, early, N, x);
      }
    }
  }

  lemma InsertKeepsAccount(d: DB, e: KV, lost: multiset<nat>)
    requires Good(d) && Accounts(d, lost) && Insert(d, e).st == Ok
    ensures Accounts(Insert(d, e).d, lost + Dropped(Free(InsertRoot(d.a, d.t, d.h, e, []).a, [d.t.page])))
  {
    hide Pages, KidPages, Held, Stock, Span, InsertRoot, Dropped;
    var r := InsertRoot(d.a, d.t, d.h, e, []);
    var b := Free(r.a, [d.t.page]);
    InsertRootAccount(d.a, d.t, d.h, e, [], 0);
    forall x: nat
      ensures Pages(r.t)[x] + Held(Commit(b), b.cur)[x] + (lost + Dropped(b))[x] == Span(1, b.cur)[x]
    {
      InsertRootAccount(d.a, d.t, d.h, e, [], x);
      FreeAccount(r.a, [d.t.page], b.cur, x);
      SeqOf(d.t.page, 0);
      PagesOf(d.t, x);
      CommitAccount(b, x);
      HeldHorizon(d.a, b.cur, x);
    }
  }

  /** A committed insertion keeps the account; it loses pages only when the freed pages do not fit the master page, and
      then all of them. */
  lemma InsertAccounts(d: DB, e: KV, lost: multiset<nat>)
    requires Good(d) && Accounts(d, lost) && Insert(d, e).st == Ok
    ensures var b := Free(InsertRoot(d.a, d.t, d.h, e, []).a, [d.t.page]);
            && Accounts(Insert(d, e).d, lost + Dropped(b))
            && (8 + 4 * (|b.fl| + |b.pend|) < PAGE_SIZE ==> Accounts(Insert(d, e).d, lost))
            && (8 + 4 * (|b.fl| + |b.pend|) >= PAGE_SIZE ==> Accounts(Insert(d, e).d, lost + multiset(b.pend)))
  {
    hide Accounts, Insert, InsertRoot, Dropped;
    InsertKeepsAccount(d, e, lost);
    DroppedIs(Free(InsertRoot(d.a, d.t, d.h, e, []).a, [d.t.page]), lost);
  }

  lemma InsertNoSyncAccounts(d: DB, e: KV, lost: multiset<nat>)
    requires Good(d) && Accounts(d, lost) && InsertNoSync(d, e).st == Ok
    ensures Accounts(InsertNoSync(d, e).d, lost)
  {
    hide Pages, KidPages, Held, Stock, Span, InsertRoot;
    var r := InsertRoot(d.a, d.t, d.h, e, [d.t.page]);
    InsertRootAccount(d.a, d.t, d.h, e, [d.t.page], 0);
    forall x: nat
      ensures Pages(r.t)[x] + Held(r.a, r.a.cur)[x] + lost[x] == Span(1, r.a.cur)[x]
    {
      InsertRootAccount(d.a, d.t, d.h, e, [d.t.page], x);
      SeqOf(d.t.page, 0);
      PagesOf(d.t, x);
      HeldHorizon(d.a, r.a.cur, x);
    }
  }

  /** The empty root a deletion leaves behind; fillRoot forgets its page. */
  ghost function Discarded(t: Tree): multiset<nat> {
    if |t.kvs| == 0 && |t.kids| > 0 then multiset{t.page} else multiset{}
  }

  lemma FillRootAccount(t: Tree, h: nat, x: nat)
    requires Shape(t, h)
    ensures Pages(FillRoot(t))[x] + Discarded(t)[x] == Pages(t)[x]
  {
    hide Used, Small, Pages, KidPages;
    if |t.kvs| == 0 && |t.kids| > 0 {
      assert t.kids == [t.kids[0]];
      KidPagesOne(t.kids[0]);
      PagesOf(t, x);
    }
  }

  lemma DeleteShape(d: DB, k: seq<byte>)
    requires Good(d) && DeleteNode(d.a, d.t, d.h, k).st == Ok
    ensures Shape(DeleteNode(d.a, d.t, d.h, k).t, d.h)
  {
    hide DeleteNode, Flat, Sorted, Del;
    DeleteNodeFlat(d.a, d.t, d.h, k);
  }

  lemma DeleteKeepsAccount(d: DB, k: seq<byte>, lost: multiset<nat>)
    requires Good(d) && Accounts(d, lost) && Delete(d, k).st == Ok
    ensures var r := DeleteNode(d.a, d.t, d.h, k);
            Accounts(Delete(d, k).d, lost + (Discarded(r.t) + Dropped(Free(r.a, [d.t.page]))))
  {
    hide Pages, KidPages, Held, Stock, Span, DeleteNode, Dropped, Discarded, FillRoot;
    var r := DeleteNode(d.a, d.t, d.h, k);
    var b := Free(r.a, [d.t.page]);
    DeleteShape(d, k);
    DeleteNodeBalanced(d.a, d.t, d.h, k, r.a.cur, 0);
    forall x: nat
      ensures Pages(FillRoot(r.t))[x] + Held(Commit(b), b.cur)[x] + (lost + (Discarded(r.t) + Dropped(b)))[x] ==
              Span(1, b.cur)[x]
    {
      DeleteNodeBalanced(d.a, d.t, d.h, k, b.cur, x);
      FreeAccount(r.a, [d.t.page], b.cur, x);
      SeqOf(d.t.page, 0);
      PagesOf(d.t, x);
      FillRootAccount(r.t, d.h, x);
      CommitAccount(b, x);
      HeldHorizon(d.a, b.cur, x);
    }
  }

  /** A committed deletion keeps the account; beyond pages that do not fit the master page it loses only the discarded
      empty root. */
  lemma DeleteAccounts(d: DB, k: seq<byte>, lost: multiset<nat>)
    requires Good(d) && Accounts(d, lost) && Delete(d, k).st == Ok
    ensures var r := DeleteNode(d.a, d.t, d.h, k);
            var b := Free(r.a, [d.t.page]);
            && Accounts(Delete(d, k).d, lost + (Discarded(r.t) + Dropped(b)))
            && (8 + 4 * (|b.fl| + |b.pend|) < PAGE_SIZE ==> Accounts(Delete(d, k).d, lost + Discarded(r.t)))
            && (8 + 4 * (|b.fl| + |b.pend|) >= PAGE_SIZE ==>
                  Accounts(Delete(d, k).d, lost + (Discarded(r.t) + multiset(b.pend))))
  {
    hide Accounts, Delete, DeleteNode, Dropped, Discarded;
    var r := DeleteNode(d.a, d.t, d.h, k);
    DeleteKeepsAccount(d, k, lost);
    DroppedIs(Free(r.a, [d.t.page]), Discarded(r.t));
  }

  /** What Accounts means: membership is exclusive, and no list holds a page twice. */
  lemma AccountsMeaning(d: DB, lost: multiset<nat>, x: nat)
    requires Accounts(d, lost)
    ensures 1 <= x < d.a.cur <==> x in Pages(d.t) || x in d.a.fl || x in d.a.pend || x in lost
    ensures x in Pages(d.t) ==> x !in d.a.fl && x !in d.a.pend && x !in lost
    ensures x in d.a.fl ==> x !in d.a.pend && x !in lost
    ensures multiset(d.a.fl)[x] <= 1 && multiset(d.a.pend)[x] <= 1 && Pages(d.t)[x] <= 1
  {
    hide Pages;
    assert x in d.a.fl <==> multiset(d.a.fl)[x] > 0;
    assert x in d.a.pend <==> multiset(d.a.pend)[x] > 0;
    assert Held(d.a, d.a.cur)[x] == multiset(d.a.fl)[x] + multiset(d.a.pend)[x];
    assert Pages(d.t)[x] + Held(d.a, d.a.cur)[x] + lost[x] == Span(1, d.a.cur)[x];
  }
}
