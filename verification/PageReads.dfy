/** Reading the fields of a page back from its bytes, and that the bytes determine the page. */
module PageReads {
  import opened Bytes
  import opened Entries
  import opened PageCodec

  /** pre + X + post reads X at |pre|; every field of a page has this form. */
  lemma ReadHeader(p: Page)
    requires WF(p)
    ensures Get16(Image(p), 0) == p.typ && Get16(Image(p), 2) == |p.kvs|
  {
    var P, O, K := EncPtrs(p.ptrs), EncOffs(Offs(p.kvs)), EncKVs(p.kvs);
    var rest := P + O + K + Zeros(PAGE_SIZE - 4 - |P| - |O| - |K|);
    assert Image(p) == [] + BE16(p.typ) + (BE16(|p.kvs|) + rest);
    assert Image(p) == BE16(p.typ) + BE16(|p.kvs|) + rest;
    Get16Back([], p.typ, BE16(|p.kvs|) + rest);
    Get16Back(BE16(p.typ), |p.kvs|, rest);
  }

  lemma SplitPtrs(ps: seq<nat>, i: nat)
    requires i < |ps|
    ensures EncPtrs(ps) == EncPtrs(ps[..i]) + BE32(ps[i]) + EncPtrs(ps[i + 1..])
  {
    Tail(ps, i);
    EncPtrsAppend(ps[..i], ps[i..]);
  }

  lemma SplitOffs(os: seq<nat>, i: nat)
    requires i < |os|
    ensures EncOffs(os) == EncOffs(os[..i]) + BE16(os[i]) + EncOffs(os[i + 1..])
  {
    Tail(os, i);
    EncOffsAppend(os[..i], os[i..]);
  }

  lemma SplitKVs(kvs: seq<KV>, i: nat)
    requires i < |kvs|
    ensures EncKVs(kvs) == EncKVs(kvs[..i]) + EncKV(kvs[i]) + EncKVs(kvs[i + 1..])
    ensures Area(kvs) == Area(kvs[..i]) + Len(kvs[i]) + Area(kvs[i + 1..])
  {
    hide EncKV, Len, EncKVs, Area;
    Tail(kvs, i);
    EncKVsAppend(kvs[..i], kvs[i..]);
    AreaAppend(kvs[..i], kvs[i..]);
    EncKVsFirst(kvs[i..]);
  }

  lemma EncKVsFirst(kvs: seq<KV>)
    requires |kvs| > 0
    ensures EncKVs(kvs) == EncKV(kvs[0]) + EncKVs(kvs[1..]) && Area(kvs) == Len(kvs[0]) + Area(kvs[1..])
  {
  }

  // A page seen from inside one of its regions: what lies before, the piece, what lies after.

  lemma FocusP(t: nat, n: nat, P1: seq<byte>, X: seq<byte>, P2: seq<byte>, O: seq<byte>, K: seq<byte>)
    requires 4 + |P1| + |X| + |P2| + |O| + |K| <= PAGE_SIZE
    ensures Layout(t, n, P1 + X + P2, O, K) ==
            (BE16(t) + BE16(n) + P1) + X + (P2 + O + K + Zeros(PAGE_SIZE - 4 - |P1 + X + P2| - |O| - |K|))
  {
  }

  lemma FocusO(t: nat, n: nat, P: seq<byte>, O1: seq<byte>, X: seq<byte>, O2: seq<byte>, K: seq<byte>)
    requires 4 + |P| + |O1| + |X| + |O2| + |K| <= PAGE_SIZE
    ensures Layout(t, n, P, O1 + X + O2, K) ==
            (BE16(t) + BE16(n) + P + O1) + X + (O2 + K + Zeros(PAGE_SIZE - 4 - |P| - |O1 + X + O2| - |K|))
  {
  }

  lemma FocusK(t: nat, n: nat, P: seq<byte>, O: seq<byte>, K1: seq<byte>, X: seq<byte>, K2: seq<byte>)
    requires 4 + |P| + |O| + |K1| + |X| + |K2| <= PAGE_SIZE
    ensures Layout(t, n, P, O, K1 + X + K2) ==
            (BE16(t) + BE16(n) + P + O + K1) + X + (K2 + Zeros(PAGE_SIZE - 4 - |P| - |O| - |K1 + X + K2|))
  {
  }

  lemma ReadPtr(p: Page, i: nat)
    requires WF(p) && i < |p.ptrs|
    ensures Get32(Image(p), 4 + 4 * i) == p.ptrs[i]
    ensures Get16(Image(p), 6 + 4 * i) == p.ptrs[i] % 0x1_0000
  {
    SplitPtrs(p.ptrs, i);
    var O, K := EncOffs(Offs(p.kvs)), EncKVs(p.kvs);
    var P1, P2 := EncPtrs(p.ptrs[..i]), EncPtrs(p.ptrs[i + 1..]);
    FocusP(p.typ, |p.kvs|, P1, BE32(p.ptrs[i]), P2, O, K);
    var pre := BE16(p.typ) + BE16(|p.kvs|) + P1;
    var post := P2 + O + K + Zeros(PAGE_SIZE - 4 - |P1 + BE32(p.ptrs[i]) + P2| - |O| - |K|);
    Get32Back(pre, p.ptrs[i], post);
    LowHalf(pre, p.ptrs[i], post);
  }

  lemma ReadOffRaw(t: nat, n: nat, P: seq<byte>, os: seq<nat>, K: seq<byte>, i: nat)
    requires 4 + |P| + 2 * |os| + |K| <= PAGE_SIZE
    requires i < |os| && os[i] < 0x1_0000
    ensures Get16(Layout(t, n, P, EncOffs(os), K), 4 + |P| + 2 * i) == os[i]
  {
    SplitOffs(os, i);
    var O1, X, O2 := EncOffs(os[..i]), BE16(os[i]), EncOffs(os[i + 1..]);
    FocusO(t, n, P, O1, X, O2, K);
    Get16Back(BE16(t) + BE16(n) + P + O1, os[i], O2 + K + Zeros(PAGE_SIZE - 4 - |P| - |O1 + X + O2| - |K|));
  }

  lemma ReadOff(p: Page, i: nat)
    requires WF(p) && i < |p.kvs|
    ensures Area(p.kvs[..i]) + Len(p.kvs[i]) <= Area(p.kvs)
    ensures Get16(Image(p), 8 + 4 * |p.kvs| + 2 * i) == Area(p.kvs[..i])
  {
    SplitKVs(p.kvs, i);
    OffAt(p.kvs, i);
    ReadOffRaw(p.typ, |p.kvs|, EncPtrs(p.ptrs), Offs(p.kvs), EncKVs(p.kvs), i);
  }

  /** Where entry i starts. */
  function EntryPos(p: Page, i: nat): nat
    requires i <= |p.kvs|
  {
    8 + 6 * |p.kvs| + Area(p.kvs[..i])
  }

  lemma EntryInPlace(p: Page, i: nat) returns (pre: seq<byte>, post: seq<byte>)
    requires WF(p) && i < |p.kvs|
    ensures |pre| == EntryPos(p, i)
    ensures Image(p) == pre + EncKV(p.kvs[i]) + post
  {
    SplitKVs(p.kvs, i);
    var P, O := EncPtrs(p.ptrs), EncOffs(Offs(p.kvs));
    var K1, X, K2 := EncKVs(p.kvs[..i]), EncKV(p.kvs[i]), EncKVs(p.kvs[i + 1..]);
    FocusK(p.typ, |p.kvs|, P, O, K1, X, K2);
    pre := BE16(p.typ) + BE16(|p.kvs|) + P + O + K1;
    post := K2 + Zeros(PAGE_SIZE - 4 - |P| - |O| - |K1 + X + K2|);
  }

  lemma ReadEntryAt(pre: seq<byte>, e: KV, post: seq<byte>)
    requires |e.key| < 0x1_0000 && |e.val| < 0x1_0000
    ensures var s := pre + EncKV(e) + post;
            && Get16(s, |pre|) == |e.key|
            && s[|pre| + 2..|pre| + 2 + |e.key|] == e.key
            && Get16(s, |pre| + 2 + |e.key|) == |e.val|
            && s[|pre| + 4 + |e.key|..|pre| + 4 + |e.key| + |e.val|] == e.val
  {
    var s := pre + EncKV(e) + post;
    var a := pre + BE16(|e.key|);
    var b := a + e.key;
    var c := b + BE16(|e.val|);
    assert s == pre + BE16(|e.key|) + (e.key + BE16(|e.val|) + e.val + post);
    Get16Back(pre, |e.key|, e.key + BE16(|e.val|) + e.val + post);
    assert s == b + BE16(|e.val|) + (e.val + post);
    Get16Back(b, |e.val|, e.val + post);
    assert s == a + e.key + (BE16(|e.val|) + e.val + post);
    assert s == c + e.val + post;
  }

  /** The entry e lies in s at pos. */
  predicate EntryAt(s: seq<byte>, pos: nat, e: KV)
    requires |s| == PAGE_SIZE
  {
    && pos + Len(e) <= PAGE_SIZE
    && Get16(s, pos) == |e.key|
    && s[pos + 2..pos + 2 + |e.key|] == e.key
    && Get16(s, pos + 2 + |e.key|) == |e.val|
    && s[pos + 4 + |e.key|..pos + 4 + |e.key| + |e.val|] == e.val
  }

  lemma ReadEntry(p: Page, i: nat)
    requires WF(p) && i < |p.kvs|
    ensures EntryAt(Image(p), EntryPos(p, i), p.kvs[i])
  {
    var pre, post := EntryInPlace(p, i);
    ReadEntryAt(pre, p.kvs[i], post);
  }

  lemma EntryAtUnique(s: seq<byte>, pos: nat, e: KV, f: KV)
    requires |s| == PAGE_SIZE && EntryAt(s, pos, e) && EntryAt(s, pos, f)
    ensures e == f
  {
    assert |e.key| == |f.key| && |e.val| == |f.val|;
  }

  /** With no keys the bytes after the only pointer are zero. */
  lemma ReadEmpty(p: Page)
    requires WF(p) && |p.kvs| == 0
    ensures Get16(Image(p), 8) == 0 && Get16(Image(p), 10) == 0
  {
    assert Image(p)[8] == 0 && Image(p)[9] == 0 && Image(p)[10] == 0 && Image(p)[11] == 0;
  }

  // ---- the layout in terms of bytes

  /** Type and key count, two bytes each, and the pointers, four bytes each, the higher bytes first. */
  lemma HeaderBytes(p: Page)
    requires WF(p)
    ensures var s := Image(p);
            && 0x100 * (s[0] as int) + s[1] == p.typ && 0x100 * (s[2] as int) + s[3] == |p.kvs|
            && 4 + 4 * |p.ptrs| <= PAGE_SIZE
            && forall i | 0 <= i < |p.ptrs| ::
                 0x100_0000 * (s[4 + 4 * i] as int) + 0x1_0000 * (s[5 + 4 * i] as int) +
                 0x100 * (s[6 + 4 * i] as int) + s[7 + 4 * i] == p.ptrs[i]
  {
    hide Image, Get16, Get32, Area;
    var s := Image(p);
    ReadHeader(p);
    Get16Value(s, 0);
    Get16Value(s, 2);
    forall i | 0 <= i < |p.ptrs|
      ensures 0x100_0000 * (s[4 + 4 * i] as int) + 0x1_0000 * (s[5 + 4 * i] as int) +
              0x100 * (s[6 + 4 * i] as int) + s[7 + 4 * i] == p.ptrs[i]
    {
      ReadPtr(p, i);
      Get32Value(s, 4 + 4 * i);
    }
  }

  /** The offset of an entry, two bytes: the lengths of the entries before it, four bytes each for the length fields. */
  lemma OffsetBytes(p: Page, i: nat)
    requires WF(p) && i < |p.kvs|
    ensures var s, at := Image(p), 8 + 4 * |p.kvs| + 2 * i;
            at + 2 <= PAGE_SIZE && 0x100 * (s[at] as int) + s[at + 1] == Area(p.kvs[..i])
    ensures i == 0 ==> Area(p.kvs[..i]) == 0
    ensures i > 0 ==> Area(p.kvs[..i]) == Area(p.kvs[..i - 1]) + |p.kvs[i - 1].key| + |p.kvs[i - 1].val| + 4
  {
    hide Image, Get16, Area;
    ReadOff(p, i);
    Get16Value(Image(p), 8 + 4 * |p.kvs| + 2 * i);
    if i > 0 {
      AreaGrows(p.kvs, i - 1);
    } else {
      AreaOfNone(p.kvs);
    }
  }

  /** The entry itself, that far behind the offsets. */
  lemma EntryBytes(p: Page, i: nat)
    requires WF(p) && i < |p.kvs|
    ensures var s, k, v, at := Image(p), p.kvs[i].key, p.kvs[i].val, 8 + 6 * |p.kvs| + Area(p.kvs[..i]);
            && at + 4 + |k| + |v| <= PAGE_SIZE
            && 0x100 * (s[at] as int) + s[at + 1] == |k| && s[at + 2..at + 2 + |k|] == k
            && 0x100 * (s[at + 2 + |k|] as int) + s[at + 3 + |k|] == |v|
            && s[at + 4 + |k|..at + 4 + |k| + |v|] == v
  {
    hide Image, Get16, Area;
    var at := EntryPos(p, i);
    ReadEntry(p, i);
    Get16Value(Image(p), at);
    Get16Value(Image(p), at + 2 + |p.kvs[i].key|);
  }

  lemma AreaOfNone(s: seq<KV>)
    ensures Area(s[..0]) == 0
  {
  }

  lemma AreaGrows(s: seq<KV>, i: nat)
    requires i < |s|
    ensures Area(s[..i + 1]) == Area(s[..i]) + Len(s[i])
  {
    hide Area;
    assert s[..i + 1] == s[..i] + [s[i]];
    AreaAppend(s[..i], [s[i]]);
    UsedSingle(s[i]);
  }

  /** Everything behind the last entry is zero. */
  lemma TailBytes(p: Page, j: nat)
    requires WF(p) && 8 + 6 * |p.kvs| + Area(p.kvs) <= j < PAGE_SIZE
    ensures Image(p)[j] == 0
  {
    hide EncPtrs, EncOffs, EncKVs, Offs, BE16, Area;
  }

  lemma SamePtr(p: Page, q: Page, i: nat)
    requires WF(p) && WF(q) && Image(p) == Image(q) && i < |p.ptrs| && i < |q.ptrs|
    ensures p.ptrs[i] == q.ptrs[i]
  {
    ReadPtr(p, i);
    ReadPtr(q, i);
  }

  lemma SameEntry(p: Page, q: Page, i: nat)
    requires WF(p) && WF(q) && Image(p) == Image(q) && i < |p.kvs| == |q.kvs|
    ensures p.kvs[i] == q.kvs[i]
  {
    assert EntryPos(p, i) == EntryPos(q, i) by {
      ReadOff(p, i);
      ReadOff(q, i);
    }
    ReadEntry(p, i);
    ReadEntry(q, i);
    EntryAtUnique(Image(p), EntryPos(p, i), p.kvs[i], q.kvs[i]);
  }

  /** A page image determines its page: no two pages are encoded alike. */
  lemma ImageInjective(p: Page, q: Page)
    requires WF(p) && WF(q) && Image(p) == Image(q)
    ensures p == q
  {
    ReadHeader(p);
    ReadHeader(q);
    forall i | 0 <= i < |p.ptrs|
      ensures p.ptrs[i] == q.ptrs[i]
    {
      SamePtr(p, q, i);
    }
    forall i | 0 <= i < |p.kvs|
      ensures p.kvs[i] == q.kvs[i]
    {
      SameEntry(p, q, i);
    }
  }
}
