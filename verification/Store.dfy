/** A tree on its pages, and what a step of the copy-on-write algorithm leaves alone. */
module Store {
  import opened Bytes
  import opened PageCodec
  import opened PageReads
  import opened NodeManager
  import opened Trees
  import opened TreePages
  import opened CowNodes
  import opened CowTree
  import opened Database
  import opened Disk
  import Runs

  /** The pages, the writes so far, the root field of the master page, the allocator. */
  datatype State = State(m: seq<seq<byte>>, log: seq<Event>, root: nat, a: Alloc)

  /** The pages are what the file shows. */
  ghost predicate Mirrors(s: State) {
    forall p | 0 <= p < |s.m| :: Current(s.log, p) == s.m[p]
  }

  /** Node by node, the pages of t hold t; all of them are in L. */
  ghost predicate Stored(m: seq<seq<byte>>, t: Tree, h: nat, L: set<nat>)
    decreases h, 1
  {
    t.page in L && t.page < |m| && WF(PageOf(t)) && m[t.page] == Image(PageOf(t)) && StoredKids(m, t, h, L)
  }

  /** A well-shaped node whose children are on their pages; the node itself may be in memory only. */
  ghost predicate StoredKids(m: seq<seq<byte>>, t: Tree, h: nat, L: set<nat>)
    decreases h, 0
  {
    Shape(t, h) && (h > 0 ==> forall i | 0 <= i < |t.kids| :: Stored(m, t.kids[i], h - 1, L))
  }

  /** The pages in L are the same. */
  ghost predicate Agree(m: seq<seq<byte>>, m': seq<seq<byte>>, L: set<nat>) {
    forall p | p in L && p < |m| :: p < |m'| && m'[p] == m[p]
  }

  /** A tree depends on its own pages only. */
  lemma {:induction false} StoredFrame(m: seq<seq<byte>>, m': seq<seq<byte>>, t: Tree, h: nat, L: set<nat>,
                                       L': set<nat>)
    requires Stored(m, t, h, L) && Agree(m, m', L) && L <= L'
    ensures Stored(m', t, h, L')
    decreases h, 1
  {
    hide Used, Small, Image, PageOf;
    KidsFrame(m, m', t, h, L, L');
  }

  lemma {:induction false} KidsFrame(m: seq<seq<byte>>, m': seq<seq<byte>>, t: Tree, h: nat, L: set<nat>, L': set<nat>)
    requires StoredKids(m, t, h, L) && Agree(m, m', L) && L <= L'
    ensures StoredKids(m', t, h, L')
    decreases h, 0
  {
    hide Used, Small, Image, PageOf, Agree;
    if h > 0 {
      forall i | 0 <= i < |t.kids|
        ensures Stored(m', t.kids[i], h - 1, L')
      {
        StoredFrame(m, m', t.kids[i], h - 1, L, L');
      }
    }
  }

  /** The children of a stored node have page numbers. */
  lemma KidsNumbered(m: seq<seq<byte>>, t: Tree, h: nat, L: set<nat>)
    requires StoredKids(m, t, h, L) && |m| <= 0x1_0000_0000
    ensures Numbered(t.kids)
  {
    hide Used, Small, Image, PageOf;
    forall i | 0 <= i < |t.kids|
      ensures t.kids[i].page < 0x1_0000_0000
    {
      assert Stored(m, t.kids[i], h - 1, L);
    }
  }

  // ---- pages that must not be reused

  /** The pages in base and all pages handed out since the last commit. */
  ghost function Live(base: set<nat>, a: Alloc): set<nat> {
    base + set x | x in a.got
  }

  /** What the allocator can hand out next is no live page, and no page twice. */
  ghost predicate Safe(a: Alloc, base: set<nat>) {
    && a.cur >= 1
    && (forall x | x in Live(base, a) :: 1 <= x < a.cur && x !in a.fl)
    && (forall i | 0 <= i < |a.fl| :: 1 <= a.fl[i] < a.cur)
    && (forall i, j | 0 <= i < j < |a.fl| :: a.fl[i] != a.fl[j])
  }

  lemma TakeSafe(a: Alloc, base: set<nat>)
    requires Safe(a, base)
    ensures Safe(Take(a), base) && 1 <= Next(a) < Take(a).cur
    ensures Next(a) !in Live(base, a) && Live(base, Take(a)) == Live(base, a) + {Next(a)}
  {
    forall x | x in Live(base, Take(a))
      ensures 1 <= x < Take(a).cur && x !in Take(a).fl
    {
      if x != Next(a) {
        assert x in Live(base, a);
      }
    }
  }

  /** A write that leaves the live pages and the root field alone. */
  ghost predicate Harmless(e: Event, L: set<nat>, root: nat) {
    e.Wrote? && |e.image| == PAGE_SIZE && if e.page == 0 then Get32(e.image, 0) == root else e.page !in L
  }

  ghost predicate Writes(log: seq<Event>, log': seq<Event>, L: set<nat>, root: nat) {
    log <= log' && forall i | |log| <= i < |log'| :: Harmless(log'[i], L, root)
  }

  /** One or more steps between commits: no live page changes, neither in memory nor by any write on the way. */
  ghost predicate Step(s: State, s': State, base: set<nat>) {
    && s'.root == s.root
    && Safe(s'.a, base) && Live(base, s.a) <= Live(base, s'.a)
    && Agree(s.m, s'.m, Live(base, s.a))
    && Writes(s.log, s'.log, Live(base, s.a), s.root)
  }

  lemma StepTrans(s: State, u: State, v: State, base: set<nat>)
    requires Step(s, u, base) && Step(u, v, base)
    ensures Step(s, v, base) && Safe(v.a, base)
  {
    hide Safe, Live;
    var K, L := Live(base, s.a), Live(base, u.a);
    forall p | p in K && p < |s.m|
      ensures p < |v.m| && v.m[p] == s.m[p]
    {
      assert p in L;
    }
    forall i | |s.log| <= i < |v.log|
      ensures Harmless(v.log[i], K, s.root)
    {
      if i < |u.log| {
        assert v.log[i] == u.log[i];
      }
    }
  }

  lemma StepSafe(s: State, s': State, base: set<nat>)
    requires Step(s, s', base)
    ensures Safe(s'.a, base) && s'.root == s.root
  {
  }

  lemma StepNone(s: State, base: set<nat>)
    requires Safe(s.a, base)
    ensures Step(s, s, base)
  {
  }

  /** Freeing pages is a step. */
  lemma StepFree(s: State, ps: seq<nat>, base: set<nat>)
    requires Safe(s.a, base)
    ensures Step(s, s.(a := Free(s.a, ps)), base) && Live(base, Free(s.a, ps)) == Live(base, s.a)
  {
  }

  /** A tree survives a step. */
  lemma StepStored(s: State, s': State, base: set<nat>, t: Tree, h: nat)
    requires Step(s, s', base) && Stored(s.m, t, h, Live(base, s.a))
    ensures Stored(s'.m, t, h, Live(base, s'.a))
  {
    hide Shape, Stored, Live, Safe, Agree, Writes;
    StoredFrame(s.m, s'.m, t, h, Live(base, s.a), Live(base, s'.a));
  }

  lemma StepKids(s: State, s': State, base: set<nat>, t: Tree, h: nat)
    requires Step(s, s', base) && StoredKids(s.m, t, h, Live(base, s.a))
    ensures StoredKids(s'.m, t, h, Live(base, s'.a))
  {
    hide Shape, StoredKids, Live, Safe, Agree, Writes;
    KidsFrame(s.m, s'.m, t, h, Live(base, s.a), Live(base, s'.a));
  }

  /** Allocating a page, and with it possibly rewriting the master page, then writing node t to it. */
  lemma StoreStep(s: State, s': State, base: set<nat>, t: Tree, h: nat)
    requires Safe(s.a, base) && StoredKids(s.m, t, h, Live(base, s.a)) && WF(PageOf(t))
    requires s'.a == Take(s.a) && s'.root == s.root
    requires |s.m| <= |s'.m| && Next(s.a) < |s'.m| && s'.m[Next(s.a)] == Image(PageOf(t))
    requires forall q | 0 < q < |s.m| && q != Next(s.a) :: s'.m[q] == s.m[q]
    requires s.log <= s'.log
    requires forall i | |s.log| <= i < |s'.log| :: Harmless(s'.log[i], Live(base, s.a), s.root)
    ensures Step(s, s', base)
    ensures Stored(s'.m, t.(page := Next(s.a)), h, Live(base, s'.a))
  {
    hide Image, PageOf, Small, Used, Harmless;
    TakeSafe(s.a, base);
    var u := t.(page := Next(s.a));
    PageIgnoresLabel(t, Next(s.a));
    forall q | q in Live(base, s.a) && q < |s.m|
      ensures q < |s'.m| && s'.m[q] == s.m[q]
    {
      assert 1 <= q;
    }
    KidsFrame(s.m, s'.m, t, h, Live(base, s.a), Live(base, s'.a));
    assert StoredKids(s'.m, u, h, Live(base, s'.a));
  }

  /** The writes of one allocation and one page. */
  lemma StoreWrites(log: seq<Event>, first: seq<Event>, e: Event, L: set<nat>, root: nat)
    requires first == [] || (|first| == 1 && Harmless(first[0], L, root))
    requires Harmless(e, L, root)
    ensures log <= log + first + [e]
    ensures forall i | |log| <= i < |log + first + [e]| :: Harmless((log + first + [e])[i], L, root)
  {
  }

  /** After a commit, which rewrites page 0 only, the tree is on its own pages. */
  lemma StoredAfterCommit(s: State, base: set<nat>, t: Tree, h: nat, image: seq<byte>)
    requires Stored(s.m, t, h, Live(base, s.a)) && Safe(s.a, base) && |s.m| > 0
    ensures Stored(s.m[0 := image], t, h, PageSet(t)) && Stored(s.m[0 := image], t, h, Live(base, s.a))
  {
    hide Stored, Pages;
    StoredFrame(s.m, s.m[0 := image], t, h, Live(base, s.a), Live(base, s.a));
    StoredOwn(s.m[0 := image], t, h, Live(base, s.a), PageSet(t));
  }

  // ---- the pages of a tree alone

  ghost function PageSet(t: Tree): set<nat> {
    set x | x in Pages(t)
  }

  lemma KidsPages(t: Tree, i: nat)
    requires i < |t.kids|
    ensures PageSet(t.kids[i]) <= PageSet(t) && t.page in PageSet(t)
  {
    hide Pages, KidPages;
    KidPagesAt(t.kids, i);
    assert Pages(t) == multiset{t.page} + KidPages(t.kids) by {
      PagesIs(t);
    }
    forall x | x in PageSet(t.kids[i])
      ensures x in PageSet(t)
    {
      assert x in Pages(t.kids[i]);
      assert x in KidPages(t.kids);
    }
  }

  lemma PagesIs(t: Tree)
    ensures Pages(t) == multiset{t.page} + KidPages(t.kids)
  {
  }

  /** A stored tree is stored on its own pages. */
  lemma {:induction false} StoredOwn(m: seq<seq<byte>>, t: Tree, h: nat, L: set<nat>, K: set<nat>)
    requires Stored(m, t, h, L) && PageSet(t) <= K
    ensures Stored(m, t, h, K)
    decreases h
  {
    hide Used, Small, Image, PageOf, Pages, KidPages;
    assert t.page in PageSet(t) by {
      PagesIs(t);
    }
    if h > 0 {
      forall i | 0 <= i < |t.kids|
        ensures Stored(m, t.kids[i], h - 1, K)
      {
        KidsPages(t, i);
        StoredOwn(m, t.kids[i], h - 1, L, K);
      }
    }
  }

  /** A page number and the pages determine the tree. */
  lemma {:induction false} StoredUnique(m: seq<seq<byte>>, t: Tree, h: nat, L: set<nat>, u: Tree, g: nat, K: set<nat>)
    requires Stored(m, t, h, L) && Stored(m, u, g, K) && t.page == u.page
    ensures t == u && h == g
    decreases h
  {
    hide Used, Small, Image, Pages, KidPages;
    ImageInjective(PageOf(t), PageOf(u));
    assert t.kvs == u.kvs && |t.kids| == |u.kids|;
    if h > 0 && g > 0 {
      forall i | 0 <= i < |t.kids|
        ensures t.kids[i] == u.kids[i] && h - 1 == g - 1
      {
        assert PtrsOf(t.kids)[i] == PtrsOf(u.kids)[i];
        StoredUnique(m, t.kids[i], h - 1, L, u.kids[i], g - 1, K);
      }
      assert t.kids[0] == u.kids[0];
    }
  }

  lemma Repeated(s: seq<nat>, i: nat, j: nat)
    requires i < j < |s| && s[i] == s[j]
    ensures multiset(s)[s[i]] >= 2
  {
    assert s == s[..j] + s[j..];
    assert s[..j][i] == s[i] && s[j..][0] == s[i];
  }

  /** When every page is accounted for and nothing is pending, the allocator is safe. */
  lemma AccountsSafe(d: DB, lost: multiset<nat>)
    requires Accounts(d, lost) && d.a.got == []
    ensures Safe(d.a, PageSet(d.t))
  {
    hide Pages, Accounts;
    AccountsMeaning(d, lost, 0);
    assert d.a.cur >= 1 by {
      AccountsCur(d, lost);
    }
    forall x | x in PageSet(d.t)
      ensures 1 <= x < d.a.cur && x !in d.a.fl
    {
      AccountsMeaning(d, lost, x);
    }
    forall i | 0 <= i < |d.a.fl|
      ensures 1 <= d.a.fl[i] < d.a.cur
    {
      AccountsMeaning(d, lost, d.a.fl[i]);
    }
    forall i, j | 0 <= i < j < |d.a.fl|
      ensures d.a.fl[i] != d.a.fl[j]
    {
      AccountsMeaning(d, lost, d.a.fl[i]);
      if d.a.fl[i] == d.a.fl[j] {
        Repeated(d.a.fl, i, j);
      }
    }
  }

  lemma AccountsCur(d: DB, lost: multiset<nat>)
    requires Accounts(d, lost)
    ensures d.a.cur >= 1
  {
  }

  lemma FillRootStored(m: seq<seq<byte>>, t: Tree, h: nat, L: set<nat>)
    requires Stored(m, t, h, L)
    ensures Stored(m, FillRoot(t), ShrunkHeight(t, h), L)
  {
    hide Used, Small, Image, PageOf;
  }

  /** The pages of a stored tree are among the pages it is stored on. */
  lemma {:induction false} StoredInside(m: seq<seq<byte>>, t: Tree, h: nat, L: set<nat>)
    requires Stored(m, t, h, L)
    ensures PageSet(t) <= L
    ensures forall p | p in PageSet(t) :: p < |m|
    decreases h
  {
    hide Used, Small, Image, PageOf, Pages, KidPages;
    PagesIs(t);
    forall p | p in PageSet(t)
      ensures p in L && p < |m|
    {
      if p != t.page {
        var i := KidWith(t.kids, p);
        if h > 0 {
          assert Stored(m, t.kids[i], h - 1, L);
          StoredInside(m, t.kids[i], h - 1, L);
          assert p in PageSet(t.kids[i]);
        }
      }
    }
  }

  lemma {:induction false} KidWith(cs: seq<Tree>, p: nat) returns (i: nat)
    requires p in KidPages(cs)
    ensures i < |cs| && p in Pages(cs[i])
    decreases |cs|
  {
    if p in Pages(cs[0]) {
      i := 0;
    } else {
      i := KidWith(cs[1..], p);
      i := i + 1;
    }
  }

  // ---- transactions

  /** From s, with tree t committed: copy-on-write steps up to mid, where t' is complete on its pages, then a write of
      the master page that names t'. Where the log has barriers is said separately. */
  ghost predicate Transaction(s: State, mid: State, s': State, t: Tree, t': Tree, h': nat) {
    && Step(s, mid, PageSet(t)) && Mirrors(mid)
    && Stored(mid.m, t', h', Live(PageSet(t), mid.a))
    && |mid.m| > 0 && |s'.m| == |mid.m| && s'.m == mid.m[0 := s'.m[0]]
    && |s'.m[0]| == PAGE_SIZE && Get32(s'.m[0], 0) == t'.page == s'.root
  }

  /** A root field leads to t: it is the page of t, or still zero because nothing but the empty tree was ever there. */
  ghost predicate Names(r: nat, t: Tree) {
    if r == 0 then t.kvs == [] && t.kids == [] else r == t.page
  }

  /** No tree on live pages lies on the master page. */
  lemma StoredHasPage(a: Alloc, base: set<nat>, m: seq<seq<byte>>, t: Tree, h: nat)
    requires Safe(a, base) && Stored(m, t, h, Live(base, a))
    ensures t.page != 0 && Names(t.page, t)
  {
    hide Live, StoredKids, PageOf, Image;
  }

  /** What a barrier adds to the log. */
  function Barrier(sync: bool): seq<Event> {
    if sync then [Flush] else []
  }

  // ---- a new file

  /** The database of a new file: an empty leaf on page 1, and page 2 the first page never used. */
  const EMPTY_DB := DB(Alloc([], 2, [], []), Tree(1, [], []), 0)

  lemma EmptyIsGood()
    ensures Good(EMPTY_DB) && Accounts(EMPTY_DB, multiset{}) && Runs.Quiet(EMPTY_DB) && View(EMPTY_DB) == map[]
  {
  }

  lemma EmptyStored(m: seq<seq<byte>>, log: seq<Event>)
    requires log == [] && |m| > 1
    requires forall p: nat :: Current(log, p) == if p < |m| then m[p] else Zeros(PAGE_SIZE)
    ensures Stored(m, EMPTY_DB.t, 0, PageSet(EMPTY_DB.t))
  {
    hide Image;
    ZeroBuffer();
    assert PageOf(EMPTY_DB.t) == EMPTY;
    assert Current(log, 1) == m[1];
  }
}
