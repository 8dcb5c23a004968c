/** A B-tree node over a 4096-byte page buffer that is edited in place (nodemanager/node_manager.go). */
module NodeManager {
  import opened Bytes
  import opened Entries
  import opened PageCodec
  import opened PageReads
  import opened PageEdit
  import opened Buffer

  /** What GetSize returns. With no keys, lastIdx wraps to 65535 and the two reads land on the low half of
      pointer 0 and on zero bytes, which reads as one empty entry of 4 bytes. */
  function SizeOf(p: Page): u16
    requires WF(p)
  {
    if |p.kvs| == 0 then (12 + p.ptrs[0] % 0x1_0000) % 0x1_0000 else Used(p.kvs)
  }

  /** The guard of InsertKV, in the 16-bit arithmetic of the source. */
  predicate Fits(p: Page, e: KV)
    requires WF(p)
  {
    (SizeOf(p) + Footprint(e)) % 0x1_0000 < PAGE_SIZE
  }

  /** Addition of uint16 values. */
  function Add16(a: u16, b: u16): (c: u16)
    ensures a + b < 0x1_0000 ==> c == a + b
  {
    (a + b) % 0x1_0000
  }

  /** x - 1 in uint16. */
  function Dec16(a: u16): (c: u16)
    ensures a > 0 ==> c == a - 1
    ensures a == 0 ==> c == 0xffff
  {
    (a - 1) % 0x1_0000
  }

  lemma EmptySize(ptr: nat)
    ensures Add16(8, Add16(ptr % 0x1_0000, 4)) == (12 + ptr % 0x1_0000) % 0x1_0000
  {
  }

  function Inserted(p: Page, e: KV): Page
    requires |p.ptrs| == |p.kvs| + 1
  {
    var i := LB(p.kvs, e.key);
    Page(p.typ, Ins(p.kvs, e), p.ptrs[..i] + [0] + p.ptrs[i..])
  }

  function Deleted(p: Page, i: nat): (r: Page)
    requires |p.ptrs| == |p.kvs| + 1 && i < |p.kvs|
    ensures WF(p) ==> WF(r) && Used(r.kvs) == Used(p.kvs) - Footprint(p.kvs[i])
  {
    UsedAt(p.kvs, i);
    Page(p.typ, p.kvs[..i] + p.kvs[i + 1..], p.ptrs[..i] + p.ptrs[i + 1..])
  }

  function WithPtr(p: Page, i: nat, x: nat): Page
    requires i < |p.ptrs|
  {
    p.(ptrs := p.ptrs[i := x])
  }

  lemma InsertedWF(p: Page, e: KV)
    requires WF(p) && Fits(p, e) && Footprint(e) <= MAX_KV_LEN + 10
    ensures WF(Inserted(p, e))
    ensures Used(Inserted(p, e).kvs) == Used(p.kvs) + Footprint(e) < PAGE_SIZE
  {
    UsedInsert(p.kvs, LB(p.kvs, e.key), e);
  }

  lemma OffsetReads(p: Page, idx: u16)
    requires WF(p)
    requires idx < |p.kvs| || (|p.kvs| == 0 && idx in {0, 0xffff})
    ensures Get16(Image(p), 2) == |p.kvs|
    ensures idx < |p.kvs| ==> Get16(Image(p), 8 + 4 * |p.kvs| + 2 * idx) == Area(p.kvs[..idx])
    ensures |p.kvs| == 0 ==> Get16(Image(p), 8) == 0 && Get16(Image(p), 6) == p.ptrs[0] % 0x1_0000
  {
    ReadHeader(p);
    if idx < |p.kvs| {
      ReadOff(p, idx);
    } else {
      ReadEmpty(p);
      ReadPtr(p, 0);
    }
  }

  /** The encoded length of the entry at pos, read from its two length fields. */
  function KVLenAt(s: seq<byte>, pos: nat): (x: u16)
    requires pos + 2 <= |s| && pos + 4 + Get16(s, pos) <= |s|
  {
    var klen := Get16(s, pos);
    Add16(Add16(klen, Get16(s, pos + 2 + klen)), 4)
  }

  lemma KVLenReads(p: Page, idx: u16)
    requires WF(p)
    requires idx < |p.kvs| || |p.kvs| == 0
    ensures var pos := if idx < |p.kvs| then EntryPos(p, idx) else 8;
            && pos + 2 <= PAGE_SIZE && pos + 4 + Get16(Image(p), pos) <= PAGE_SIZE
            && KVLenAt(Image(p), pos) == if idx < |p.kvs| then Len(p.kvs[idx]) else 4
  {
    if idx < |p.kvs| {
      ReadEntry(p, idx);
    } else {
      ReadEmpty(p);
    }
  }

  /** The page of an all-zero buffer: a leaf without keys. */
  const EMPTY := Page(LEAF, [], [0])

  lemma ZeroBuffer()
    ensures WF(EMPTY) && Image(EMPTY) == Zeros(PAGE_SIZE)
  {
    assert EncPtrs([0]) == BE32(0) == Zeros(4);
    assert BE16(0) == Zeros(2);
  }

  /** Insertion of an entry above every key: its zero pointer lands before the last one. */
  lemma InsertedLast(p: Page, e: KV)
    requires |p.ptrs| == |p.kvs| + 1
    requires |p.kvs| > 0 ==> Sorted(p.kvs) && Less(p.kvs[|p.kvs| - 1].key, e.key)
    ensures Inserted(p, e) == Page(p.typ, p.kvs + [e], p.ptrs[..|p.kvs|] + [0, p.ptrs[|p.kvs|]])
  {
    var n := |p.kvs|;
    SplitAtLB(p.kvs, e.key, n);
    assert p.ptrs[n..] == [p.ptrs[n]] && p.kvs[..n] == p.kvs && p.kvs[n..] == [];
  }

  class Node {
    const data: array<byte>
    ghost var page: Page

    ghost predicate Valid()
      reads this, data
    {
      && data.Length == PAGE_SIZE
      && WF(page)
      && data[..] == Image(page)
    }

    /** NewNode: the node takes over the buffer, it does not copy it. */
    constructor (buf: array<byte>, ghost p: Page)
      requires buf.Length == PAGE_SIZE && WF(p) && buf[..] == Image(p)
      ensures Valid() && page == p && data == buf
    {
      data := buf;
      page := p;
    }

    // ---- getters

    function GetType(): (t: u16)
      requires Valid()
      reads this, data
      ensures t == page.typ
    {
      ReadHeader(page);
      Get16(data[..], 0)
    }

    /** The key count field, whatever the rest of the buffer holds. */
    function NKeys(): u16
      requires data.Length == PAGE_SIZE
      reads data
    {
      Get16(data[..], 2)
    }

    function GetNKeys(): (n: u16)
      requires Valid()
      reads this, data
      ensures n == |page.kvs| == NKeys()
    {
      ReadHeader(page);
      NKeys()
    }

    function HeaderAndMetadataLen(): (x: u16)
      requires data.Length == PAGE_SIZE
      reads data
      ensures NKeys() <= 1000 ==> x == 8 + 6 * NKeys()
    {
      (4 + 4 * ((NKeys() + 1) % 0x1_0000) + 2 * NKeys()) % 0x1_0000
    }

    function OffsetPos(idx: u16): (x: u16)
      requires data.Length == PAGE_SIZE
      reads data
      ensures NKeys() <= 2048 && idx <= 2048 ==> x == 8 + 4 * NKeys() + 2 * idx
      ensures NKeys() == 0 && idx == 0xffff ==> x == 6
    {
      (4 + 4 * ((NKeys() + 1) % 0x1_0000) + 2 * idx) % 0x1_0000
    }

    function PtrPos(idx: u16): u16 { (4 + 4 * idx) % 0x1_0000 }

    function GetPtr(idx: u16): (x: u32)
      requires Valid() && idx < |page.ptrs|
      reads this, data
      ensures x == page.ptrs[idx]
    {
      ReadPtr(page, idx);
      Get32(data[..], 4 + 4 * idx)
    }

    /** getOffset; index 65535 of a node without keys reads the low half of pointer 0. */
    function GetOffset(idx: u16): (x: u16)
      requires Valid()
      requires idx < |page.kvs| || (|page.kvs| == 0 && idx in {0, 0xffff})
      reads this, data
      ensures idx < |page.kvs| ==> x == Area(page.kvs[..idx])
      ensures |page.kvs| == 0 && idx == 0 ==> x == 0
      ensures |page.kvs| == 0 && idx == 0xffff ==> x == page.ptrs[0] % 0x1_0000
    {
      hide Image, Area;
      OffsetReads(page, idx);
      Get16(data[..], OffsetPos(idx))
    }

    function KvPos(idx: u16): (x: u16)
      requires Valid()
      requires idx <= |page.kvs| || |page.kvs| == 0
      reads this, data
      ensures idx <= |page.kvs| ==> x == EntryPos(page, idx)
      ensures |page.kvs| == 0 ==> x == 8
      decreases if 0 < |page.kvs| == idx then 2 else 0
    {
      hide Image, Add16, Area, HeaderAndMetadataLen, Get16, GetOffset, GetNKeys, GetKVLen, NKeys, WF, Len, EntryPos;
      PositionSums(page, idx);
      if GetNKeys() == 0 then
        Add16(HeaderAndMetadataLen(), GetOffset(0))
      else if idx == GetNKeys() then
        Add16(KvPos(idx - 1), GetKVLen(idx - 1))
      else
        Add16(HeaderAndMetadataLen(), GetOffset(idx))
    }

    function GetKVLen(idx: u16): (x: u16)
      requires Valid()
      requires idx < |page.kvs| || |page.kvs| == 0
      reads this, data
      ensures idx < |page.kvs| ==> x == Len(page.kvs[idx])
      ensures |page.kvs| == 0 ==> x == 4
      decreases 1
    {
      hide Image, KVLenAt, Get16;
      KVLenReads(page, idx);
      KVLenAt(data[..], KvPos(idx))
    }

    function GetKV(idx: u16): (e: KV)
      requires Valid() && idx < |page.kvs|
      reads this, data
      ensures e == page.kvs[idx]
    {
      hide Image;
      ReadEntry(page, idx);
      var pos := KvPos(idx);
      var klen := Get16(data[..], pos);
      var key := data[pos + 2..pos + 2 + klen];
      var vlen := Get16(data[..], pos + 2 + klen);
      var val := data[pos + 4 + klen..pos + 4 + klen + vlen];
      KV(key, val)
    }

    function GetSize(): (x: u16)
      requires Valid()
      reads this, data
      ensures x == SizeOf(page)
      ensures |page.kvs| > 0 ==> x == Used(page.kvs)
      ensures |page.kvs| == 0 ==> x == (12 + page.ptrs[0] % 0x1_0000) % 0x1_0000
    {
      hide Image, Add16, Area, Dec16, HeaderAndMetadataLen;
      var lastIdx := Dec16(GetNKeys());
      LastEnds(page);
      EmptySize(page.ptrs[0]);
      Add16(HeaderAndMetadataLen(), Add16(GetOffset(lastIdx), GetKVLen(lastIdx)))
    }

    /** Overflow: fewer than 1344 of the 4096 bytes are left. */
    predicate Overflow(): (r: bool)
      requires Valid()
      reads this, data
      ensures |page.kvs| > 0 ==> (r <==> Used(page.kvs) > 2752)
      ensures |page.kvs| == 0 ==> (r <==> (12 + page.ptrs[0] % 0x1_0000) % 0x1_0000 > 2752)
    {
      GetSize() > PAGE_SIZE - MAX_KV_LEN
    }

    predicate Underflow(): (r: bool)
      requires Valid()
      reads this, data
      ensures r <==> |page.kvs| == 0 || |page.kvs| == 1
    {
      GetNKeys() <= 1
    }

    // ---- raw edits of the buffer; Raw(t, n, ps, os, K) is a page in the middle of an edit

    method SetNKeys(m: u16, ghost t: nat, ghost n: nat, ghost ps: seq<nat>, ghost os: seq<nat>, ghost K: seq<byte>)
      requires data.Length == PAGE_SIZE
      requires 4 + 4 * |ps| + 2 * |os| + |K| <= PAGE_SIZE
      requires data[..] == Raw(t, n, ps, os, K)
      modifies data
      ensures data[..] == Raw(t, m, ps, os, K)
    {
      hide Raw, Put;
      PageEdit.SetNKeys(t, n, m, ps, os, K);
      PutBytes(data, 2, BE16(m));
    }

    method OpenPtrSlot(idx: u16, ghost t: nat, ghost n: nat, ghost a: seq<nat>, ghost b: seq<nat>,
                       ghost os: seq<nat>, ghost K: seq<byte>)
      requires data.Length == PAGE_SIZE
      requires |a| == idx && 8 + 4 * |a| + 4 * |b| + 2 * |os| + |K| <= PAGE_SIZE
      requires data[..] == Raw(t, n, a + b, os, K)
      modifies data
      ensures data[..] == Raw(t, n, a + [0] + b, os, K)
    {
      hide Raw, Open;
      OpenPtr(t, n, a, b, os, K);
      OpenGap(data, PtrPos(idx), 4);
    }

    method ClosePtrSlot(idx: u16, end: u16, ghost t: nat, ghost n: nat, ghost a: seq<nat>, ghost x: nat,
                        ghost b: seq<nat>, ghost os: seq<nat>, ghost K: seq<byte>)
      requires data.Length == PAGE_SIZE
      requires |a| == idx && 8 + 4 * |a| + 4 * |b| + 2 * |os| + |K| == end <= PAGE_SIZE
      requires data[..] == Raw(t, n, a + [x] + b, os, K)
      modifies data
      ensures data[..] == Raw(t, n, a + b, os, K)
    {
      hide Raw, Close;
      ClosePtr(t, n, a, x, b, os, K);
      CloseGap(data, PtrPos(idx), 4, end);
    }

    method OpenOffSlot(idx: u16, ghost t: nat, ghost n: nat, ghost ps: seq<nat>, ghost a: seq<nat>, ghost b: seq<nat>,
                       ghost K: seq<byte>)
      requires data.Length == PAGE_SIZE
      requires |a| == idx && n + 1 == |ps| && 6 + 4 * |ps| + 2 * |a| + 2 * |b| + |K| <= PAGE_SIZE
      requires data[..] == Raw(t, n, ps, a + b, K)
      modifies data
      ensures data[..] == Raw(t, n, ps, a + [0] + b, K)
    {
      hide Raw, Open;
      NKeysOfRaw(t, n, ps, a + b, K);
      OpenOff(t, n, ps, a, b, K);
      OpenGap(data, OffsetPos(idx), 2);
    }

    method CloseOffSlot(idx: u16, end: u16, ghost t: nat, ghost n: nat, ghost ps: seq<nat>, ghost a: seq<nat>,
                        ghost x: nat, ghost b: seq<nat>, ghost K: seq<byte>)
      requires data.Length == PAGE_SIZE
      requires |a| == idx && n + 1 == |ps| && 6 + 4 * |ps| + 2 * |a| + 2 * |b| + |K| == end <= PAGE_SIZE
      requires data[..] == Raw(t, n, ps, a + [x] + b, K)
      modifies data
      ensures data[..] == Raw(t, n, ps, a + b, K)
    {
      hide Raw, Close, OffsetPos, Get16;
      NKeysOfRaw(t, n, ps, a + [x] + b, K);
      assert OffsetPos(idx) == 4 + 4 * |ps| + 2 * |a|;
      CloseOff(t, n, ps, a, x, b, K);
      CloseGap(data, OffsetPos(idx), 2, end);
    }

    /** setKV: key length, key, value length, value. */
    method SetKV(k: seq<byte>, v: seq<byte>, pos: u16)
      requires data.Length == PAGE_SIZE && pos + Len(KV(k, v)) <= PAGE_SIZE
      modifies data
      ensures data[..] == Put(old(data[..]), pos, EncKV(KV(k, v)))
    {
      hide Put;
      ghost var s := data[..];
      PutBytes(data, pos, BE16(|k|));
      PutBytes(data, pos + 2, k);
      PutPut(s, pos, BE16(|k|), k);
      PutBytes(data, pos + 2 + |k|, BE16(|v|));
      PutPut(s, pos, BE16(|k|) + k, BE16(|v|));
      PutBytes(data, pos + 4 + |k|, v);
      PutPut(s, pos, BE16(|k|) + k + BE16(|v|), v);
    }

    method SetOffset(idx: u16, x: u16, ghost t: nat, ghost ps: seq<nat>, ghost os: seq<nat>, ghost K: seq<byte>)
      requires data.Length == PAGE_SIZE
      requires idx < |os| && |ps| == |os| + 1 && 4 + 4 * |ps| + 2 * |os| + |K| <= PAGE_SIZE
      requires data[..] == Raw(t, |os|, ps, os, K)
      modifies data
      ensures data[..] == Raw(t, |os|, ps, os[idx := x], K)
    {
      hide Raw, Put;
      NKeysOfRaw(t, |os|, ps, os, K);
      SetOff(t, |os|, ps, os, idx, x, K);
      PutBytes(data, OffsetPos(idx), BE16(x));
    }

    /** The offset stored at idx in a page being edited. */
    method ReadOffset(idx: u16, ghost t: nat, ghost ps: seq<nat>, ghost os: seq<nat>, ghost K: seq<byte>)
      returns (x: u16)
      requires data.Length == PAGE_SIZE
      requires idx < |os| && |ps| == |os| + 1 && 4 + 4 * |ps| + 2 * |os| + |K| <= PAGE_SIZE && os[idx] < 0x1_0000
      requires data[..] == Raw(t, |os|, ps, os, K)
      ensures x == os[idx]
    {
      hide Layout, Get16;
      NKeysOfRaw(t, |os|, ps, os, K);
      ReadOffRaw(t, |os|, EncPtrs(ps), os, K, idx);
      x := Get16(data[..], OffsetPos(idx));
    }

    /** updateOffsets1: every offset after idx grows by totalLen. */
    method UpdateOffsets1(idx: u16, totalLen: u16, ghost t: nat, ghost ps: seq<nat>, ghost os: seq<nat>,
                          ghost K: seq<byte>)
      requires data.Length == PAGE_SIZE
      requires idx < |os| && |ps| == |os| + 1 && 4 + 4 * |ps| + 2 * |os| + |K| <= PAGE_SIZE
      requires forall j | 0 <= j < |os| :: os[j] + totalLen <= PAGE_SIZE
      requires data[..] == Raw(t, |os|, ps, os, K)
      modifies data
      ensures data[..] == Raw(t, |os|, ps, Shifted(os, idx + 1, totalLen), K)
    {
      hide Raw;
      var i := idx + 1;
      NKeysOfRaw(t, |os|, ps, os, K);
      ghost var now: seq<nat> := os;
      while i < NKeys()
        invariant idx < i <= |os| && |now| == |os| && NKeys() == |os|
        invariant data[..] == Raw(t, |now|, ps, now, K)
        invariant now == Shifted(os[..i], idx + 1, totalLen) + os[i..]
      {
        var x := ReadOffset(i, t, ps, now, K);
        SetOffset(i, Add16(x, totalLen), t, ps, now, K);
        now := now[i := x + totalLen];
        NKeysOfRaw(t, |now|, ps, now, K);
        i := i + 1;
      }
      assert os[..i] == os && os[i..] == [];
      assert now == Shifted(os, idx + 1, totalLen);
    }

    /** updateOffsets2: every offset from idx on shrinks by kvLen. */
    method UpdateOffsets2(idx: u16, kvLen: u16, ghost t: nat, ghost ps: seq<nat>, ghost os: seq<nat>,
                          ghost K: seq<byte>)
      requires data.Length == PAGE_SIZE
      requires idx <= |os| && |ps| == |os| + 1 && 4 + 4 * |ps| + 2 * |os| + |K| <= PAGE_SIZE
      requires forall j | idx <= j < |os| :: kvLen <= os[j] <= PAGE_SIZE
      requires data[..] == Raw(t, |os|, ps, os, K)
      modifies data
      ensures data[..] == Raw(t, |os|, ps, Shifted(os, idx, -(kvLen as int)), K)
    {
      hide Raw;
      var i := idx;
      NKeysOfRaw(t, |os|, ps, os, K);
      ghost var now: seq<nat> := os;
      while i < NKeys()
        invariant idx <= i <= |os| && |now| == |os| && NKeys() == |os|
        invariant data[..] == Raw(t, |now|, ps, now, K)
        invariant now == Shifted(os[..i], idx, -(kvLen as int)) + os[i..]
      {
        var x := ReadOffset(i, t, ps, now, K);
        SetOffset(i, x - kvLen, t, ps, now, K);
        now := now[i := x - kvLen];
        NKeysOfRaw(t, |now|, ps, now, K);
        i := i + 1;
      }
      assert os[..i] == os && os[i..] == [];
      assert now == Shifted(os, idx, -(kvLen as int));
    }

    /** FindIndex: the first entry whose key is not below the target, in the order of bytes.Compare. */
    method FindIndex(target: seq<byte>) returns (idx: u16)
      requires Valid()
      ensures idx == LB(page.kvs, target) <= |page.kvs|
      ensures forall j | 0 <= j < idx :: var a := page.kvs[j].key;
                exists i | 0 <= i <= |a| && i < |target| :: a[..i] == target[..i] && (i == |a| || a[i] < target[i])
      ensures idx < |page.kvs| ==> var a := page.kvs[idx].key;
                !exists i | 0 <= i <= |a| && i < |target| :: a[..i] == target[..i] && (i == |a| || a[i] < target[i])
    {
      hide Image, LB, Less;
      LBMeaning(page.kvs, target);
      if GetNKeys() <= 0 {
        return 0;
      }
      idx := 0;
      while idx < GetNKeys()
        invariant idx <= |page.kvs|
        invariant forall j | 0 <= j < idx :: Less(page.kvs[j].key, target)
      {
        var k := GetKV(idx).key;
        LessTotal(target, k);
        if Less(target, k) || target == k {
          LBUnique(page.kvs, target, idx);
          return;
        }
        idx := idx + 1;
      }
      LBUnique(page.kvs, target, idx);
    }

    method ContainsKey(k: seq<byte>) returns (found: bool)
      requires Valid()
      ensures found == Holds(page.kvs, k)
    {
      var idx := FindIndex(k);
      if idx < GetNKeys() {
        return GetKV(idx).key == k;
      }
      return false;
    }

    // ---- mutators

    /** SetType: two bytes, the higher one first. */
    method SetType(t: u16)
      requires Valid()
      modifies this`page, data
      ensures Valid() && page == old(page).(typ := t)
      ensures 0x100 * (data[0] as int) + data[1] == t && data[2..] == old(data[2..])
    {
      hide Put, Raw, BE16;
      BE16Value(t);
      PutParts(data[..], 0, BE16(t));
      assert Put(data[..], 0, BE16(t))[0 + 0] == BE16(t)[0] && Put(data[..], 0, BE16(t))[0 + 1] == BE16(t)[1];
      SetTyp(page.typ, t, |page.kvs|, page.ptrs, Offs(page.kvs), EncKVs(page.kvs));
      ImageIsRaw(page);
      PutBytes(data, 0, BE16(t));
      page := page.(typ := t);
      ImageIsRaw(page);
    }

    /** SetPtr: four bytes, the highest first. */
    method SetPtr(idx: u16, ptr: u32)
      requires Valid() && idx < |page.ptrs|
      modifies this`page, data
      ensures Valid() && page == WithPtr(old(page), idx, ptr)
      ensures var at := 4 + 4 * idx;
              && at + 4 <= PAGE_SIZE
              && 0x100_0000 * (data[at] as int) + 0x1_0000 * (data[at + 1] as int) +
                 0x100 * (data[at + 2] as int) + data[at + 3] == ptr
              && data[..at] == old(data[..at]) && data[at + 4..] == old(data[at + 4..])
    {
      hide Put, Image, BE32;
      BE32Value(ptr);
      PutParts(data[..], 4 + 4 * idx, BE32(ptr));
      PutFour(data[..], 4 + 4 * idx, BE32(ptr));
      SetPtrImage(page, idx, ptr);
      PutBytes(data, 4 + 4 * idx, BE32(ptr));
      page := WithPtr(page, idx, ptr);
    }

    /** InsertKV. The source panics where this returns false, and nothing has been touched then. */
    method InsertKV(k: seq<byte>, v: seq<byte>) returns (ok: bool)
      requires Valid() && |k| + |v| <= MAX_KV_LEN
      modifies this`page, data
      ensures ok == Fits(old(page), KV(k, v))
      ensures |old(page).kvs| > 0 ==> (ok <==> Used(old(page).kvs) + |k| + |v| + 10 < 4096)
      ensures Valid() && page == if ok then Inserted(old(page), KV(k, v)) else old(page)
    {
      hide Image, Raw, Area, Offs, Shifted, Inserted, EncKVs, EncKV, LB, Less, GetSize, KvPos, OneMore;
      var kvLen: u16 := |k| + |v| + 4;
      if (GetSize() + kvLen + 6) % 0x1_0000 >= PAGE_SIZE {
        return false;
      }
      ghost var p, e := page, KV(k, v);
      var insertIdx := FindIndex(k);
      var insertPos := KvPos(insertIdx);
      ghost var i: nat := insertIdx;
      InsertStart(p, e, i);
      OffsBound(p, Footprint(e));
      InsertBytes(k, v, insertIdx, insertPos, p.typ, p.ptrs[..i], p.ptrs[i..], Offs(p.kvs)[..i], Offs(p.kvs)[i..],
                  EncKVs(p.kvs[..i]), EncKVs(p.kvs[i..]));
      InsertEnd(p, e, i);
      page := Inserted(p, e);
      ok := true;
    }

    /** The part of InsertKV that moves bytes. */
    method InsertBytes(k: seq<byte>, v: seq<byte>, idx: u16, pos: u16, ghost t: nat, ghost pa: seq<nat>,
                       ghost pb: seq<nat>, ghost oa: seq<nat>, ghost ob: seq<nat>, ghost ka: seq<byte>,
                       ghost kb: seq<byte>)
      requires data.Length == PAGE_SIZE && |k| + |v| <= MAX_KV_LEN
      requires |pa| == |oa| == idx && |pb| == |ob| + 1
      requires pos == 4 + 4 * (|pa| + |pb|) + 2 * (|oa| + |ob|) + |ka|
      requires pos + |kb| + Footprint(KV(k, v)) <= PAGE_SIZE
      requires forall j | 0 <= j < |oa| :: oa[j] + Len(KV(k, v)) <= PAGE_SIZE
      requires forall j | 0 <= j < |ob| :: ob[j] + Len(KV(k, v)) <= PAGE_SIZE
      requires data[..] == Raw(t, |oa| + |ob|, pa + pb, oa + ob, ka + kb)
      modifies data
      ensures data[..] == Raw(t, |oa| + |ob| + 1, pa + [0] + pb, Shifted(oa + [|ka|] + ob, |oa| + 1, Len(KV(k, v))),
                              ka + EncKV(KV(k, v)) + kb)
    {
      hide Raw, Shifted, EncKV;
      ghost var n := |oa| + |ob|;
      ghost var ps, os: seq<nat> := pa + [0] + pb, oa + [0] + ob;
      NKeysOfRaw(t, n, pa + pb, oa + ob, ka + kb);
      SetNKeys(NKeys() + 1, t, n, pa + pb, oa + ob, ka + kb);
      OpenPtrSlot(idx, t, n + 1, pa, pb, oa + ob, ka + kb);
      OpenOffSlot(idx, t, n + 1, ps, oa, ob, ka + kb);
      OpenEntry(pos + 6, |k| + |v| + 4, t, n + 1, ps, os, ka, kb);
      PutEntry(k, v, pos + 6, t, n + 1, ps, os, ka, kb);
      InsertOffsets(idx, pos + 6, |k| + |v| + 4, t, ps, oa, ob, ka + EncKV(KV(k, v)) + kb);
    }

    method OpenEntry(pos: u16, kvLen: u16, ghost t: nat, ghost n: nat, ghost ps: seq<nat>, ghost os: seq<nat>,
                     ghost ka: seq<byte>, ghost kb: seq<byte>)
      requires data.Length == PAGE_SIZE
      requires pos == 4 + 4 * |ps| + 2 * |os| + |ka| && pos + |kb| + kvLen <= PAGE_SIZE
      requires data[..] == Raw(t, n, ps, os, ka + kb)
      modifies data
      ensures data[..] == Raw(t, n, ps, os, ka + Zeros(kvLen) + kb)
    {
      hide Raw, Open;
      OpenKV(t, n, ps, os, ka, kb, kvLen);
      OpenGap(data, pos, kvLen);
    }

    method PutEntry(k: seq<byte>, v: seq<byte>, pos: u16, ghost t: nat, ghost n: nat, ghost ps: seq<nat>,
                    ghost os: seq<nat>, ghost ka: seq<byte>, ghost kb: seq<byte>)
      requires data.Length == PAGE_SIZE
      requires pos == 4 + 4 * |ps| + 2 * |os| + |ka| && pos + |kb| + Len(KV(k, v)) <= PAGE_SIZE
      requires data[..] == Raw(t, n, ps, os, ka + Zeros(Len(KV(k, v))) + kb)
      modifies data
      ensures data[..] == Raw(t, n, ps, os, ka + EncKV(KV(k, v)) + kb)
    {
      hide Raw, Put, EncKV;
      PutKV(t, n, ps, os, ka, Zeros(Len(KV(k, v))), EncKV(KV(k, v)), kb);
      SetKV(k, v, pos);
    }

    /** The last two steps of InsertKV: store the offset of the new entry, move the offsets after it. */
    method InsertOffsets(idx: u16, insertPos: u16, kvLen: u16, ghost t: nat, ghost ps: seq<nat>, ghost oa: seq<nat>,
                         ghost ob: seq<nat>, ghost K: seq<byte>)
      requires data.Length == PAGE_SIZE
      requires |oa| == idx && |ps| == |oa| + |ob| + 2 && 4 + 4 * |ps| + 2 * (|oa| + |ob| + 1) + |K| <= PAGE_SIZE
      requires insertPos >= 4 + 4 * |ps| + 2 * (|oa| + |ob| + 1)
      requires forall j | 0 <= j < |oa| :: oa[j] + kvLen <= PAGE_SIZE
      requires forall j | 0 <= j < |ob| :: ob[j] + kvLen <= PAGE_SIZE
      requires insertPos + kvLen <= PAGE_SIZE
      requires data[..] == Raw(t, |oa| + |ob| + 1, ps, oa + [0] + ob, K)
      modifies data
      ensures var pos := insertPos - (4 + 4 * |ps| + 2 * (|oa| + |ob| + 1));
              data[..] == Raw(t, |oa| + |ob| + 1, ps, Shifted(oa + [pos] + ob, idx + 1, kvLen), K)
    {
      hide Raw, Shifted;
      ghost var os: seq<nat> := oa + [0] + ob;
      NKeysOfRaw(t, |os|, ps, os, K);
      var pos: u16 := insertPos - HeaderAndMetadataLen();
      SetOffset(idx, pos, t, ps, os, K);
      assert os[idx := pos] == oa + [pos] + ob;
      UpdateOffsets1(idx, kvLen, t, ps, oa + [pos] + ob, K);
    }

    /** DeleteKV: always drops the pointer to the left of the entry. */
    method DeleteKV(idx: u16)
      requires Valid() && idx < |page.kvs|
      modifies this`page, data
      ensures Valid() && page == Deleted(old(page), idx)
    {
      hide Image, Raw, Area, Offs, Shifted, Deleted, EncKVs, EncKV, GetSize, KvPos, GetKVLen;
      var kvLen, kvStart := GetKVLen(idx), KvPos(idx);
      var nodeSize := GetSize();
      ghost var p := page;
      ghost var i: nat := idx;
      DeleteStart(p, i);
      DeleteBytes(idx, kvStart, kvLen, nodeSize, p.typ, p.ptrs[..i], p.ptrs[i], p.ptrs[i + 1..],
                  Offs(p.kvs)[..i], Offs(p.kvs)[i], Offs(p.kvs)[i + 1..],
                  EncKVs(p.kvs[..i]), EncKV(p.kvs[i]), EncKVs(p.kvs[i + 1..]));
      DeleteEnd(p, i);
      page := Deleted(p, i);
    }

    /** The part of DeleteKV that moves bytes. */
    method DeleteBytes(idx: u16, kvStart: u16, kvLen: u16, size: u16, ghost t: nat, ghost pa: seq<nat>, ghost x: nat,
                       ghost pb: seq<nat>, ghost oa: seq<nat>, ghost o: nat, ghost ob: seq<nat>,
                       ghost ka: seq<byte>, ghost kx: seq<byte>, ghost kb: seq<byte>)
      requires data.Length == PAGE_SIZE
      requires |pa| == |oa| == idx && |pb| == |ob| + 1 && |kx| == kvLen
      requires kvStart == 8 + 4 * (|pa| + |pb|) + 2 * (|oa| + |ob| + 1) + |ka|
      requires kvStart + kvLen + |kb| == size <= PAGE_SIZE
      requires forall j | 0 <= j < |ob| :: kvLen <= ob[j] <= PAGE_SIZE
      requires data[..] == Raw(t, |oa| + |ob| + 1, pa + [x] + pb, oa + [o] + ob, ka + kx + kb)
      modifies data
      ensures forall j | |oa| <= j < |oa + ob| :: (oa + ob)[j] >= kvLen
      ensures data[..] == Raw(t, |oa| + |ob|, pa + pb, Shifted(oa + ob, |oa|, -(kvLen as int)), ka + kb)
    {
      hide Raw, Shifted;
      ghost var n := |oa| + |ob| + 1;
      CloseEntry(kvStart, kvLen, size, t, n, pa + [x] + pb, oa + [o] + ob, ka, kx, kb);
      CloseOffSlot(idx, size - kvLen, t, n, pa + [x] + pb, oa, o, ob, ka + kb);
      ClosePtrSlot(idx, size - kvLen - 2, t, n, pa, x, pb, oa + ob, ka + kb);
      NKeysOfRaw(t, n, pa + pb, oa + ob, ka + kb);
      SetNKeys(NKeys() - 1, t, n, pa + pb, oa + ob, ka + kb);
      UpdateOffsets2(idx, kvLen, t, pa + pb, oa + ob, ka + kb);
    }

    method CloseEntry(pos: u16, kvLen: u16, end: u16, ghost t: nat, ghost n: nat, ghost ps: seq<nat>,
                      ghost os: seq<nat>, ghost ka: seq<byte>, ghost x: seq<byte>, ghost kb: seq<byte>)
      requires data.Length == PAGE_SIZE
      requires pos == 4 + 4 * |ps| + 2 * |os| + |ka| && kvLen == |x| && pos + |x| + |kb| == end <= PAGE_SIZE
      requires data[..] == Raw(t, n, ps, os, ka + x + kb)
      modifies data
      ensures data[..] == Raw(t, n, ps, os, ka + kb)
    {
      hide Raw, Close;
      CloseKV(t, n, ps, os, ka, x, kb);
      CloseGap(data, pos, kvLen, end);
    }

    /** UpdateKV: delete, then insert. The source panics where this returns false. */
    method UpdateKV(idx: u16, k: seq<byte>, v: seq<byte>) returns (ok: bool)
      requires Valid() && idx < |page.kvs| && |k| + |v| <= MAX_KV_LEN
      modifies this`page, data
      ensures Valid()
      ensures ok == Fits(Deleted(old(page), idx), KV(k, v))
      ensures ok ==> page == Inserted(Deleted(old(page), idx), KV(k, v))
    {
      DeleteKV(idx);
      ok := InsertKV(k, v);
    }
  }

  method NewEmptyNode() returns (node: Node)
    ensures fresh(node) && fresh(node.data) && node.Valid() && node.page == EMPTY
  {
    var buf := new byte[PAGE_SIZE](_ => 0);
    ZeroBuffer();
    assert buf[..] == Zeros(PAGE_SIZE);
    node := new Node(buf, EMPTY);
  }

  /** The left half of a node: the entries before the median and the pointers around them. */
  function LeftHalf(p: Page): Page
    requires |p.ptrs| == |p.kvs| + 1
  {
    var m := |p.kvs| / 2;
    Page(p.typ, p.kvs[..m], p.ptrs[..m + 1])
  }

  function RightHalf(p: Page): Page
    requires |p.ptrs| == |p.kvs| + 1 && |p.kvs| > 0
  {
    var m := |p.kvs| / 2;
    Page(p.typ, p.kvs[m + 1..], p.ptrs[m + 1..])
  }

  predicate Small(kvs: seq<KV>) {
    forall e | e in kvs :: Footprint(e) <= MAX_KV_LEN + 10
  }

  lemma PartRoom(s: seq<KV>, lo: nat, i: nat)
    requires lo <= i < |s| && (lo > 0 || i + 1 < |s|)
    ensures Used(s[lo..i]) + Footprint(s[i]) + 10 <= Used(s)
  {
    hide Area;
    UsedAt(s, i);
    UsedSplit(s[..i], lo);
    assert s[..i][..lo] == s[..lo] && s[..i][lo..] == s[lo..i];
    if lo > 0 {
      UsedAt(s[..lo], 0);
    } else {
      UsedAt(s[i + 1..], 0);
    }
  }

  /** One step of copying: entry i of s goes to the end of a part that holds s[lo..i]. */
  lemma PartStep(s: seq<KV>, q: Page, lo: nat, i: nat)
    requires Sorted(s) && Used(s) <= PAGE_SIZE && lo <= i < |s| && (lo > 0 || i + 1 < |s|)
    requires WF(q) && q.ptrs[0] == 0 && q.kvs == s[lo..i]
    ensures Fits(q, s[i])
    ensures Inserted(q, s[i]) == Page(q.typ, s[lo..i + 1], q.ptrs[..i - lo] + [0, q.ptrs[i - lo]])
  {
    hide Less, LB;
    PartRoom(s, lo, i);
    assert s[lo..i] + [s[i]] == s[lo..i + 1];
    if i > lo {
      assert q.kvs[i - lo - 1] == s[i - 1];
      SortedSlice(s, lo, i);
    }
    InsertedLast(q, s[i]);
  }

  method CopyEntry(node: Node, part: Node, lo: u16, idx: u16)
    requires node.Valid() && part.Valid() && node != part && node.data != part.data
    requires Sorted(node.page.kvs) && Small(node.page.kvs)
    requires lo <= idx < |node.page.kvs| && (lo > 0 || idx + 1 < |node.page.kvs|)
    requires part.page.kvs == node.page.kvs[lo..idx] && part.page.ptrs[0] == 0
    modifies part`page, part.data
    ensures part.Valid()
    ensures part.page.typ == old(part.page.typ) && part.page.kvs == node.page.kvs[lo..idx + 1] && part.page.ptrs[0] == 0
  {
    hide Image, Fits, Inserted, Sorted, Used, LB;
    var e := node.GetKV(idx);
    assert e in node.page.kvs;
    PartStep(node.page.kvs, part.page, lo, idx);
    var ok := part.InsertKV(e.key, e.val);
  }

  method CopyEntries(node: Node, part: Node, lo: u16, hi: u16)
    requires node.Valid() && part.Valid() && node != part && node.data != part.data
    requires Sorted(node.page.kvs) && Small(node.page.kvs)
    requires lo <= hi <= |node.page.kvs| && (lo > 0 || hi < |node.page.kvs|)
    requires part.page.kvs == [] && part.page.ptrs == [0]
    modifies part`page, part.data
    ensures part.Valid()
    ensures part.page.typ == old(part.page.typ) && part.page.kvs == node.page.kvs[lo..hi]
  {
    hide Image, Sorted, Small, Used;
    var idx := lo;
    while idx < hi
      invariant lo <= idx <= hi && part.Valid() && node.Valid()
      invariant part.page.typ == old(part.page.typ) && part.page.kvs == node.page.kvs[lo..idx] && part.page.ptrs[0] == 0
    {
      CopyEntry(node, part, lo, idx);
      idx := idx + 1;
    }
  }

  method CopyPtrs(node: Node, part: Node, lo: u16, hi: u16)
    requires node.Valid() && part.Valid() && node != part && node.data != part.data
    requires lo <= hi < |node.page.ptrs| && |part.page.ptrs| == hi + 1 - lo
    modifies part`page, part.data
    ensures part.Valid()
    ensures part.page == old(part.page).(ptrs := node.page.ptrs[lo..hi + 1])
  {
    hide Image, Used;
    ghost var p := node.page.ptrs;
    var idx := lo;
    while idx < hi + 1
      invariant lo <= idx <= hi + 1 && part.Valid() && node.Valid()
      invariant part.page == old(part.page).(ptrs := part.page.ptrs) && |part.page.ptrs| == hi + 1 - lo
      invariant part.page.ptrs[..idx - lo] == p[lo..idx]
    {
      part.SetPtr(idx - lo, node.GetPtr(idx));
      idx := idx + 1;
    }
    assert part.page.ptrs == part.page.ptrs[..hi + 1 - lo];
  }

  /** Split: two new nodes around the median entry. */
  method Split(node: Node) returns (left: Node, right: Node, medianIndex: u16)
    requires node.Valid() && |node.page.kvs| > 0
    requires Sorted(node.page.kvs) && Small(node.page.kvs)
    ensures fresh(left) && fresh(left.data) && left.Valid() && left.page == LeftHalf(node.page)
    ensures fresh(right) && fresh(right.data) && right.Valid() && right.page == RightHalf(node.page)
    ensures left != right && left.data != right.data
    ensures medianIndex == |node.page.kvs| / 2
  {
    hide Image, Used, Sorted, Small;
    medianIndex := node.GetNKeys() / 2;
    left := NewEmptyNode();
    right := NewEmptyNode();
    right.SetType(node.GetType());
    left.SetType(node.GetType());
    CopyEntries(node, left, 0, medianIndex);
    CopyPtrs(node, left, 0, medianIndex);
    CopyEntries(node, right, medianIndex + 1, node.GetNKeys());
    CopyPtrs(node, right, medianIndex + 1, node.GetNKeys());
    assert node.page.kvs[0..medianIndex] == node.page.kvs[..medianIndex];
  }

  // ---- the regions of a page before and after an edit

  lemma ImageIsRaw(p: Page)
    requires WF(p)
    ensures 4 + 4 * |p.ptrs| + 2 * |Offs(p.kvs)| + |EncKVs(p.kvs)| <= PAGE_SIZE
    ensures Image(p) == Raw(p.typ, |p.kvs|, p.ptrs, Offs(p.kvs), EncKVs(p.kvs))
  {
  }

  lemma SetPtrImage(p: Page, i: nat, x: nat)
    requires WF(p) && i < |p.ptrs| && x < 0x1_0000_0000
    ensures WF(WithPtr(p, i, x))
    ensures Put(Image(p), 4 + 4 * i, BE32(x)) == Image(WithPtr(p, i, x))
  {
    hide Raw, Put, BE32, Image;
    ImageIsRaw(p);
    ImageIsRaw(WithPtr(p, i, x));
    var a, b := p.ptrs[..i], p.ptrs[i + 1..];
    assert p.ptrs == a + [p.ptrs[i]] + b && p.ptrs[i := x] == a + [x] + b;
    SetPtrAt(p.typ, |p.kvs|, a, p.ptrs[i], x, b, Offs(p.kvs), EncKVs(p.kvs));
  }

  lemma OffsBound(p: Page, d: nat)
    requires WF(p) && Used(p.kvs) + d <= PAGE_SIZE
    ensures forall j | 0 <= j < |p.kvs| :: Offs(p.kvs)[j] + d <= PAGE_SIZE
  {
    hide Offs, Area;
    forall j | 0 <= j < |p.kvs|
      ensures Offs(p.kvs)[j] + d <= PAGE_SIZE
    {
      OffAt(p.kvs, j);
      UsedSplit(p.kvs, j);
    }
  }

  lemma RawSame(t: nat, n: nat, ps: seq<nat>, os: seq<nat>, K: seq<byte>, m: nat, qs: seq<nat>, us: seq<nat>,
                L: seq<byte>)
    requires 4 + 4 * |ps| + 2 * |os| + |K| <= PAGE_SIZE
    requires n == m && ps == qs && os == us && K == L
    ensures Raw(t, n, ps, os, K) == Raw(t, m, qs, us, L)
  {
  }

  lemma InsertStart(p: Page, e: KV, i: nat)
    requires WF(p) && Fits(p, e) && Footprint(e) <= MAX_KV_LEN + 10 && i <= |p.kvs|
    ensures Used(p.kvs) + Footprint(e) < PAGE_SIZE
    ensures |EncKVs(p.kvs[..i])| == Area(p.kvs[..i])
    ensures Area(p.kvs[..i]) + |EncKVs(p.kvs[i..])| == Area(p.kvs)
    ensures Image(p) == Raw(p.typ, |p.kvs|, p.ptrs[..i] + p.ptrs[i..], Offs(p.kvs)[..i] + Offs(p.kvs)[i..],
                            EncKVs(p.kvs[..i]) + EncKVs(p.kvs[i..]))
  {
    hide Image, Raw, Area, EncKVs, Offs;
    UsedSplit(p.kvs, i);
    var a, c := p.kvs[..i], p.kvs[i..];
    assert p.kvs == a + c;
    EncKVsAppend(a, c);
    ImageIsRaw(p);
    RawSame(p.typ, |p.kvs|, p.ptrs, Offs(p.kvs), EncKVs(p.kvs), |p.kvs|,
            p.ptrs[..i] + p.ptrs[i..], Offs(p.kvs)[..i] + Offs(p.kvs)[i..], EncKVs(a) + EncKVs(c));
  }

  lemma AreaInserted(a: seq<KV>, e: KV, c: seq<KV>, j: nat)
    requires j <= |a| + |c|
    ensures j <= |a| ==> Area((a + [e] + c)[..j]) == Area((a + c)[..j])
    ensures j >= |a| ==> Area((a + [e] + c)[..j + 1]) == Area((a + c)[..j]) + Len(e)
  {
    if j <= |a| {
      assert (a + [e] + c)[..j] == (a + c)[..j];
    }
    if j >= |a| {
      var d := c[..j - |a|];
      assert (a + [e] + c)[..j + 1] == a + ([e] + d) && (a + c)[..j] == a + d;
      UsedAround(a, e, d);
      AreaAppend(a, d);
    }
  }

  lemma OffInsertedAt(a: seq<KV>, e: KV, c: seq<KV>, j: nat)
    requires j < |a + [e] + c|
    ensures Offs(a + [e] + c)[j] ==
            if j < |a| then Offs(a + c)[j] else if j == |a| then Area(a) else Offs(a + c)[j - 1] + Len(e)
  {
    hide Area, Len, Offs;
    OffAt(a + [e] + c, j);
    if j < |a| {
      OffAt(a + c, j);
      AreaInserted(a, e, c, j);
    } else if j == |a| {
      assert (a + [e] + c)[..j] == a;
    } else {
      OffAt(a + c, j - 1);
      AreaInserted(a, e, c, j - 1);
    }
  }

  ghost predicate OneMore(t: seq<nat>, s: seq<nat>, i: nat, x: nat, d: nat) {
    && i <= |s| && |t| == |s| + 1
    && (forall j | 0 <= j < i :: t[j] == s[j])
    && t[i] == x
    && (forall j | i <= j < |s| :: t[j + 1] == s[j] + d)
  }

  lemma OneMoreIsShifted(t: seq<nat>, s: seq<nat>, i: nat, x: nat, d: nat)
    requires OneMore(t, s, i, x, d)
    ensures t == Shifted(s[..i] + [x] + s[i..], i + 1, d)
  {
    var q := s[..i] + [x] + s[i..];
    var r := Shifted(q, i + 1, d);
    forall j | 0 <= j < |t|
      ensures t[j] == r[j]
    {
      if j > i {
        var m := j - 1;
        assert q[j] == s[m] && t[m + 1] == s[m] + d;
      }
    }
  }

  lemma OffsOneMore(a: seq<KV>, e: KV, c: seq<KV>)
    ensures OneMore(Offs(a + [e] + c), Offs(a + c), |a|, Area(a), Len(e))
  {
    hide Area, Len, Offs;
    OffInsertedAt(a, e, c, |a|);
    forall j | 0 <= j < |a|
      ensures Offs(a + [e] + c)[j] == Offs(a + c)[j]
    {
      OffInsertedAt(a, e, c, j);
    }
    forall j | |a| <= j < |a + c|
      ensures Offs(a + [e] + c)[j + 1] == Offs(a + c)[j] + Len(e)
    {
      OffInsertedAt(a, e, c, j + 1);
    }
  }

  /** The offsets of the entries after an insertion. */
  lemma OffsInserted(a: seq<KV>, e: KV, c: seq<KV>)
    ensures Offs(a + [e] + c) == Shifted(Offs(a + c)[..|a|] + [Area(a)] + Offs(a + c)[|a|..], |a| + 1, Len(e))
  {
    hide Area, Len, Offs, Shifted, OneMore;
    OffsOneMore(a, e, c);
    OneMoreIsShifted(Offs(a + [e] + c), Offs(a + c), |a|, Area(a), Len(e));
  }

  lemma InsertedIsRaw(t: nat, a: seq<KV>, e: KV, c: seq<KV>, ps: seq<nat>)
    requires WF(Page(t, a + [e] + c, ps))
    ensures |EncKVs(a)| + |EncKV(e)| + |EncKVs(c)| == Area(a + [e] + c)
    ensures Image(Page(t, a + [e] + c, ps)) ==
            Raw(t, |a + c| + 1, ps, Shifted(Offs(a + c)[..|a|] + [Area(a)] + Offs(a + c)[|a|..], |a| + 1, Len(e)),
                EncKVs(a) + EncKV(e) + EncKVs(c))
  {
    hide Image, Raw, Shifted, Offs, EncKV, EncKVs, Area, Len;
    var s := a + [e] + c;
    ImageIsRaw(Page(t, s, ps));
    OffsInserted(a, e, c);
    EncKVsAround(a, e, c);
    RawSame(t, |s|, ps, Offs(s), EncKVs(s), |a + c| + 1, ps,
            Shifted(Offs(a + c)[..|a|] + [Area(a)] + Offs(a + c)[|a|..], |a| + 1, Len(e)),
            EncKVs(a) + EncKV(e) + EncKVs(c));
  }

  lemma InsertEnd(p: Page, e: KV, i: nat)
    requires WF(p) && Fits(p, e) && Footprint(e) <= MAX_KV_LEN + 10 && i == LB(p.kvs, e.key)
    ensures WF(Inserted(p, e))
    ensures |EncKVs(p.kvs[..i])| + |EncKVs(p.kvs[i..])| == Area(p.kvs)
    ensures Used(p.kvs) + Footprint(e) < PAGE_SIZE
    ensures Image(Inserted(p, e)) ==
            Raw(p.typ, |p.kvs| + 1, p.ptrs[..i] + [0] + p.ptrs[i..],
                Shifted(Offs(p.kvs)[..i] + [Area(p.kvs[..i])] + Offs(p.kvs)[i..], i + 1, Len(e)),
                EncKVs(p.kvs[..i]) + EncKV(e) + EncKVs(p.kvs[i..]))
  {
    hide Image, Raw, Shifted, Offs, EncKV, EncKVs, Area, Len, LB, Used;
    InsertedWF(p, e);
    InsertStart(p, e, i);
    var a, c := p.kvs[..i], p.kvs[i..];
    assert p.kvs == a + c && |a| == i;
    InsertedIsRaw(p.typ, a, e, c, p.ptrs[..i] + [0] + p.ptrs[i..]);
  }

  lemma EncKVsAround(a: seq<KV>, e: KV, c: seq<KV>)
    ensures EncKVs(a + [e] + c) == EncKVs(a) + EncKV(e) + EncKVs(c)
  {
    EncKVsAppend(a + [e], c);
    EncKVsAppend(a, [e]);
    UsedSingle(e);
  }

  lemma DeleteStart(p: Page, i: nat)
    requires WF(p) && i < |p.kvs|
    ensures |EncKVs(p.kvs[..i])| == Area(p.kvs[..i]) && |EncKV(p.kvs[i])| == Len(p.kvs[i])
    ensures Area(p.kvs[..i]) + Len(p.kvs[i]) + |EncKVs(p.kvs[i + 1..])| == Area(p.kvs)
    ensures forall j | i < j < |p.kvs| :: Len(p.kvs[i]) <= Offs(p.kvs)[j] <= PAGE_SIZE
    ensures Image(p) == Raw(p.typ, |p.kvs|, p.ptrs[..i] + [p.ptrs[i]] + p.ptrs[i + 1..],
                            Offs(p.kvs)[..i] + [Offs(p.kvs)[i]] + Offs(p.kvs)[i + 1..],
                            EncKVs(p.kvs[..i]) + EncKV(p.kvs[i]) + EncKVs(p.kvs[i + 1..]))
  {
    hide Raw, Image, EncKV, Area, EncKVs;
    SplitKVs(p.kvs, i);
    assert p.ptrs == p.ptrs[..i] + [p.ptrs[i]] + p.ptrs[i + 1..];
    assert Offs(p.kvs) == Offs(p.kvs)[..i] + [Offs(p.kvs)[i]] + Offs(p.kvs)[i + 1..];
    ImageIsRaw(p);
    forall j | i < j < |p.kvs|
      ensures Len(p.kvs[i]) <= Offs(p.kvs)[j] <= PAGE_SIZE
    {
      OffAt(p.kvs, j);
      UsedSplit(p.kvs, j);
      UsedAt(p.kvs[..j], i);
    }
  }

  ghost predicate AtLeast(os: seq<nat>, lo: nat, m: nat) {
    forall j | lo <= j < |os| :: m <= os[j]
  }

  /** The offsets of the entries after a removal. */
  lemma OffsDeleted(a: seq<KV>, e: KV, c: seq<KV>)
    requires AtLeast(Offs(a + [e] + c), |a| + 1, Len(e))
    ensures var os := Offs(a + [e] + c); AtLeast(os[..|a|] + os[|a| + 1..], |a|, Len(e))
    ensures var os := Offs(a + [e] + c);
            Offs(a + c) == Shifted(os[..|a|] + os[|a| + 1..], |a|, -(Len(e) as int))
  {
    hide Area, Len;
    var t, s := a + [e] + c, a + c;
    var os := Offs(t);
    var q := os[..|a|] + os[|a| + 1..];
    forall j | |a| <= j < |q|
      ensures q[j] == os[j + 1]
    {
    }
    forall j | 0 <= j < |s|
      ensures Offs(s)[j] == if j < |a| then q[j] else q[j] - Len(e)
    {
      OffAt(s, j);
      if j < |a| {
        OffAt(t, j);
      } else {
        OffAt(t, j + 1);
      }
      AreaInserted(a, e, c, j);
    }
  }

  lemma DeleteEnd(p: Page, i: nat)
    requires WF(p) && i < |p.kvs|
    ensures WF(Deleted(p, i))
    ensures |EncKVs(p.kvs[..i])| + |EncKVs(p.kvs[i + 1..])| + Len(p.kvs[i]) == Area(p.kvs)
    ensures AtLeast(Offs(p.kvs)[..i] + Offs(p.kvs)[i + 1..], i, Len(p.kvs[i]))
    ensures Image(Deleted(p, i)) ==
            Raw(p.typ, |p.kvs| - 1, p.ptrs[..i] + p.ptrs[i + 1..],
                Shifted(Offs(p.kvs)[..i] + Offs(p.kvs)[i + 1..], i, -(Len(p.kvs[i]) as int)),
                EncKVs(p.kvs[..i]) + EncKVs(p.kvs[i + 1..]))
  {
    hide Image, Raw, Shifted, EncKV, Area, EncKVs;
    DeleteStart(p, i);
    ImageIsRaw(Deleted(p, i));
    assert p.kvs == p.kvs[..i] + [p.kvs[i]] + p.kvs[i + 1..];
    OffsDeleted(p.kvs[..i], p.kvs[i], p.kvs[i + 1..]);
    EncKVsAppend(p.kvs[..i], p.kvs[i + 1..]);
  }

  lemma AreaBound(p: Page, i: nat)
    requires WF(p) && i <= |p.kvs|
    ensures 8 + 6 * |p.kvs| + Area(p.kvs[..i]) <= PAGE_SIZE
  {
    UsedSplit(p.kvs, i);
  }

  /** Where an entry begins: behind the metadata and the entries before it, for the end of the last entry also behind
      that entry. */
  lemma PositionSums(p: Page, i: nat)
    requires WF(p)
    ensures |p.kvs| <= 682
    ensures i <= |p.kvs| ==> EntryPos(p, i) == 8 + 6 * |p.kvs| + Area(p.kvs[..i]) <= PAGE_SIZE
    ensures 0 < i == |p.kvs| ==> EntryPos(p, i - 1) + Len(p.kvs[i - 1]) == EntryPos(p, i)
    ensures |p.kvs| == 0 ==> EntryPos(p, 0) == 8
  {
    LastEnds(p);
    if i <= |p.kvs| {
      AreaBound(p, i);
    }
  }

  lemma LastEnds(p: Page)
    requires WF(p)
    ensures |p.kvs| <= 682 && 8 + 6 * |p.kvs| + Area(p.kvs) <= PAGE_SIZE
    ensures p.kvs[..|p.kvs|] == p.kvs
    ensures |p.kvs| > 0 ==> Area(p.kvs[..|p.kvs| - 1]) + Len(p.kvs[|p.kvs| - 1]) == Area(p.kvs)
  {
    if |p.kvs| > 0 {
      UsedAt(p.kvs, |p.kvs| - 1);
      assert p.kvs[|p.kvs|..] == [];
    }
  }
}
