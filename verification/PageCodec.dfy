/** The byte layout of a data page:
    type (2) | key count (2) | pointers (4 each) | offsets (2 each) | key-values | zeros up to 4096. */
module PageCodec {
  import opened Bytes
  import opened Entries

  datatype Page = Page(typ: nat, kvs: seq<KV>, ptrs: seq<nat>)

  const LEAF := 0
  const INTERNAL := 1

  /** Bytes one entry takes in the key-value area. */
  function Len(e: KV): nat { |e.key| + |e.val| + 4 }

  /** Bytes one entry takes in the page, its pointer and offset included. */
  function Footprint(e: KV): nat { Len(e) + 6 }

  function Area(kvs: seq<KV>): nat {
    if |kvs| == 0 then 0 else Len(kvs[0]) + Area(kvs[1..])
  }

  function Used(kvs: seq<KV>): nat { 8 + 6 * |kvs| + Area(kvs) }

  ghost predicate WF(p: Page) {
    && p.typ < 0x1_0000
    && |p.ptrs| == |p.kvs| + 1
    && (forall i | 0 <= i < |p.ptrs| :: p.ptrs[i] < 0x1_0000_0000)
    && Used(p.kvs) <= PAGE_SIZE
  }

  // ---- encoding

  function EncPtrs(ps: seq<nat>): (s: seq<byte>)
    ensures |s| == 4 * |ps|
  {
    if |ps| == 0 then [] else BE32(ps[0]) + EncPtrs(ps[1..])
  }

  function EncOffs(os: seq<nat>): (s: seq<byte>)
    ensures |s| == 2 * |os|
  {
    if |os| == 0 then [] else BE16(os[0]) + EncOffs(os[1..])
  }

  /** The stored offsets: entry i starts where the entries before it end. */
  function Offs(kvs: seq<KV>): (os: seq<nat>)
    ensures |os| == |kvs|
  {
    seq(|kvs|, i requires 0 <= i < |kvs| => Area(kvs[..i]))
  }

  lemma OffAt(kvs: seq<KV>, i: nat)
    requires i < |kvs|
    ensures Offs(kvs)[i] == Area(kvs[..i])
  {
  }

  function EncKV(e: KV): (s: seq<byte>)
    ensures |s| == Len(e)
  {
    BE16(|e.key|) + e.key + BE16(|e.val|) + e.val
  }

  function EncKVs(kvs: seq<KV>): (s: seq<byte>)
    ensures |s| == Area(kvs)
  {
    if |kvs| == 0 then [] else EncKV(kvs[0]) + EncKVs(kvs[1..])
  }

  /** A whole page from its five regions. */
  function Layout(typ: nat, n: nat, P: seq<byte>, O: seq<byte>, K: seq<byte>): (s: seq<byte>)
    requires 4 + |P| + |O| + |K| <= PAGE_SIZE
    ensures |s| == PAGE_SIZE
  {
    BE16(typ) + BE16(n) + P + O + K + Zeros(PAGE_SIZE - 4 - |P| - |O| - |K|)
  }

  function Image(p: Page): (s: seq<byte>)
    requires |p.ptrs| == |p.kvs| + 1 && Used(p.kvs) <= PAGE_SIZE
    ensures |s| == PAGE_SIZE
  {
    Layout(p.typ, |p.kvs|, EncPtrs(p.ptrs), EncOffs(Offs(p.kvs)), EncKVs(p.kvs))
  }

  // ---- the regions of a concatenation

  lemma Tail<T>(s: seq<T>, i: nat)
    requires i < |s|
    ensures s == s[..i] + s[i..]
    ensures s[i..][0] == s[i] && s[i..][1..] == s[i + 1..]
  {
  }

  lemma Around<T>(s: seq<T>, i: nat)
    requires i < |s|
    ensures s == s[..i] + ([s[i]] + s[i + 1..])
  {
  }

  lemma {:induction false} AreaAppend(a: seq<KV>, b: seq<KV>)
    ensures Area(a + b) == Area(a) + Area(b)
  {
    if |a| == 0 {
      assert a + b == b;
    } else {
      assert (a + b)[1..] == a[1..] + b;
      AreaAppend(a[1..], b);
    }
  }

  lemma {:induction false} EncPtrsAppend(a: seq<nat>, b: seq<nat>)
    ensures EncPtrs(a + b) == EncPtrs(a) + EncPtrs(b)
  {
    if |a| == 0 {
      assert a + b == b;
    } else {
      assert (a + b)[1..] == a[1..] + b;
      EncPtrsAppend(a[1..], b);
    }
  }

  lemma {:induction false} EncOffsAppend(a: seq<nat>, b: seq<nat>)
    ensures EncOffs(a + b) == EncOffs(a) + EncOffs(b)
  {
    if |a| == 0 {
      assert a + b == b;
    } else {
      assert (a + b)[1..] == a[1..] + b;
      EncOffsAppend(a[1..], b);
    }
  }

  lemma {:induction false} EncKVsAppend(a: seq<KV>, b: seq<KV>)
    ensures EncKVs(a + b) == EncKVs(a) + EncKVs(b)
  {
    if |a| == 0 {
      assert a + b == b;
    } else {
      assert (a + b)[1..] == a[1..] + b;
      EncKVsAppend(a[1..], b);
    }
  }

  lemma UsedSingle(e: KV)
    ensures Area([e]) == Len(e) && EncKVs([e]) == EncKV(e) && Used([e]) == 8 + Footprint(e)
  {
  }

  lemma UsedSplit(s: seq<KV>, i: nat)
    requires i <= |s|
    ensures Used(s) == Used(s[..i]) + Used(s[i..]) - 8
    ensures Area(s) == Area(s[..i]) + Area(s[i..])
  {
    assert s == s[..i] + s[i..];
    AreaAppend(s[..i], s[i..]);
  }

  lemma UsedAround(a: seq<KV>, e: KV, c: seq<KV>)
    ensures Used(a + ([e] + c)) == Used(a + c) + Footprint(e) == Used(a) + Footprint(e) + Used(c) - 8
    ensures Area(a + ([e] + c)) == Area(a) + Len(e) + Area(c)
  {
    UsedSingle(e);
    AreaAppend([e], c);
    AreaAppend(a, [e] + c);
    AreaAppend(a, c);
  }

  /** How the used size splits around one entry. */
  lemma UsedAt(s: seq<KV>, i: nat)
    requires i < |s|
    ensures Used(s) == Used(s[..i] + s[i + 1..]) + Footprint(s[i])
    ensures Area(s) == Area(s[..i]) + Len(s[i]) + Area(s[i + 1..])
    ensures Used(s) == Used(s[..i]) + Footprint(s[i]) + Used(s[i + 1..]) - 8
  {
    hide Used, Area, Footprint, Len;
    Around(s, i);
    UsedAround(s[..i], s[i], s[i + 1..]);
  }

  lemma UsedInsert(s: seq<KV>, i: nat, e: KV)
    requires i <= |s|
    ensures Used(s[..i] + [e] + s[i..]) == Used(s) + Footprint(e)
  {
    var t := s[..i] + [e] + s[i..];
    UsedAt(t, i);
    assert t[..i] + t[i + 1..] == s;
  }

  lemma UsedUpdate(s: seq<KV>, i: nat, e: KV)
    requires i < |s|
    ensures Used(s[i := e]) == Used(s) - Footprint(s[i]) + Footprint(e)
  {
    UsedAt(s, i);
    UsedAt(s[i := e], i);
    assert s[i := e][..i] == s[..i] && s[i := e][i + 1..] == s[i + 1..];
  }
}
