/** The byte layout of the master page: root (4) | free-list length (4) | free page numbers (4 each) | zeros. */
module MasterCodec {
  import opened Bytes
  import opened PageCodec
  import opened PageEdit

  /** Page numbers that fit behind the eight header bytes. */
  const MASTER_CAPACITY := 1022

  ghost predicate MasterWF(root: nat, fl: seq<nat>) {
    root < 0x1_0000_0000 && |fl| <= MASTER_CAPACITY && forall i | 0 <= i < |fl| :: fl[i] < 0x1_0000_0000
  }

  function MasterImage(root: nat, fl: seq<nat>): (s: seq<byte>)
    requires |fl| <= MASTER_CAPACITY
    ensures |s| == PAGE_SIZE
  {
    BE32(root) + BE32(|fl|) + EncPtrs(fl) + Zeros(PAGE_SIZE - 8 - 4 * |fl|)
  }

  lemma ReadMaster(root: nat, fl: seq<nat>)
    requires MasterWF(root, fl)
    ensures Get32(MasterImage(root, fl), 0) == root
    ensures Get32(MasterImage(root, fl), 4) == |fl|
    ensures |fl| > 0 ==> Get32(MasterImage(root, fl), 8) == fl[0]
  {
    var z := Zeros(PAGE_SIZE - 8 - 4 * |fl|);
    assert MasterImage(root, fl) == [] + BE32(root) + (BE32(|fl|) + EncPtrs(fl) + z);
    assert MasterImage(root, fl) == BE32(root) + BE32(|fl|) + (EncPtrs(fl) + z);
    Get32Back([], root, BE32(|fl|) + EncPtrs(fl) + z);
    Get32Back(BE32(root), |fl|, EncPtrs(fl) + z);
    if |fl| > 0 {
      var rest := EncPtrs(fl[1..]) + z;
      assert MasterImage(root, fl) == (BE32(root) + BE32(|fl|)) + BE32(fl[0]) + rest;
      Get32Back(BE32(root) + BE32(|fl|), fl[0], rest);
    }
  }

  lemma MasterHead(root: nat, fl: seq<nat>)
    requires MasterWF(root, fl)
    ensures var s := MasterImage(root, fl);
            && 0x100_0000 * (s[0] as int) + 0x1_0000 * (s[1] as int) + 0x100 * (s[2] as int) + s[3] == root
            && 0x100_0000 * (s[4] as int) + 0x1_0000 * (s[5] as int) + 0x100 * (s[6] as int) + s[7] == |fl|
  {
    hide MasterImage, Get32;
    ReadMaster(root, fl);
    Get32Value(MasterImage(root, fl), 0);
    Get32Value(MasterImage(root, fl), 4);
  }

  /** The master page in terms of bytes: the root in the first four, the higher bytes first, then the length of the
      list, then the list. */
  lemma MasterBytes(root: nat, fl: seq<nat>)
    requires MasterWF(root, fl)
    ensures var s := MasterImage(root, fl);
            && 0x100_0000 * (s[0] as int) + 0x1_0000 * (s[1] as int) + 0x100 * (s[2] as int) + s[3] == root
            && 0x100_0000 * (s[4] as int) + 0x1_0000 * (s[5] as int) + 0x100 * (s[6] as int) + s[7] == |fl|
            && forall i | 0 <= i < |fl| ::
                 0x100_0000 * (s[8 + 4 * i] as int) + 0x1_0000 * (s[9 + 4 * i] as int) +
                 0x100 * (s[10 + 4 * i] as int) + s[11 + 4 * i] == fl[i]
  {
    hide MasterImage, Get32;
    var s := MasterImage(root, fl);
    MasterHead(root, fl);
    forall i | 0 <= i < |fl|
      ensures 0x100_0000 * (s[8 + 4 * i] as int) + 0x1_0000 * (s[9 + 4 * i] as int) +
              0x100 * (s[10 + 4 * i] as int) + s[11 + 4 * i] == fl[i]
    {
      ReadListed(root, fl, i);
      Get32Value(s, 8 + 4 * i);
    }
  }

  lemma ReadListed(root: nat, fl: seq<nat>, i: nat)
    requires MasterWF(root, fl) && i < |fl|
    ensures Get32(MasterImage(root, fl), 8 + 4 * i) == fl[i]
  {
    hide BE32, Get32;
    var a, b := EncPtrs(fl[..i]), EncPtrs(fl[i + 1..]);
    Tail(fl, i);
    EncPtrsAppend(fl[..i], fl[i..]);
    assert EncPtrs(fl) == a + BE32(fl[i]) + b;
    var pre, post := BE32(root) + BE32(|fl|) + a, b + Zeros(PAGE_SIZE - 8 - 4 * |fl|);
    assert MasterImage(root, fl) == pre + BE32(fl[i]) + post;
    Get32Back(pre, fl[i], post);
  }

  /** The master page determines root and free list. */
  lemma {:induction false} PtrsInjective(a: seq<nat>, b: seq<nat>, u: seq<byte>, v: seq<byte>)
    requires |a| == |b| && EncPtrs(a) + u == EncPtrs(b) + v
    requires forall i | 0 <= i < |a| :: a[i] < 0x1_0000_0000 && b[i] < 0x1_0000_0000
    ensures a == b
    decreases |a|
  {
    if |a| > 0 {
      var x, y := EncPtrs(a[1..]) + u, EncPtrs(b[1..]) + v;
      assert EncPtrs(a) + u == [] + BE32(a[0]) + x && EncPtrs(b) + v == [] + BE32(b[0]) + y;
      Get32Back([], a[0], x);
      Get32Back([], b[0], y);
      assert x == (EncPtrs(a) + u)[4..] && y == (EncPtrs(b) + v)[4..];
      PtrsInjective(a[1..], b[1..], u, v);
      assert a == [a[0]] + a[1..] && b == [b[0]] + b[1..];
    }
  }

  lemma MasterInjective(root: nat, fl: seq<nat>, root': nat, fl': seq<nat>)
    requires MasterWF(root, fl) && MasterWF(root', fl') && MasterImage(root, fl) == MasterImage(root', fl')
    ensures root == root' && fl == fl'
  {
    ReadMaster(root, fl);
    ReadMaster(root', fl');
    var u, v := Zeros(PAGE_SIZE - 8 - 4 * |fl|), Zeros(PAGE_SIZE - 8 - 4 * |fl'|);
    assert MasterImage(root, fl)[8..] == EncPtrs(fl) + u && MasterImage(root', fl')[8..] == EncPtrs(fl') + v;
    PtrsInjective(fl, fl', u, v);
  }

  lemma ZeroMaster()
    ensures MasterImage(0, []) == Zeros(PAGE_SIZE)
  {
    assert BE32(0) == Zeros(4);
  }

  // ---- edits

  lemma PutRoot(root: nat, x: nat, fl: seq<nat>)
    requires |fl| <= MASTER_CAPACITY
    ensures Put(MasterImage(root, fl), 0, BE32(x)) == MasterImage(x, fl)
  {
    var rest := BE32(|fl|) + EncPtrs(fl) + Zeros(PAGE_SIZE - 8 - 4 * |fl|);
    assert MasterImage(root, fl) == [] + BE32(root) + rest && MasterImage(x, fl) == [] + BE32(x) + rest;
    PutMid([], BE32(root), BE32(x), rest);
  }

  /** The page between the moment entries are written behind the list and the moment the length is stored:
      n is the stored length. */
  function MasterRaw(root: nat, n: nat, fl: seq<nat>): (s: seq<byte>)
    requires |fl| <= MASTER_CAPACITY
    ensures |s| == PAGE_SIZE
  {
    BE32(root) + BE32(n) + EncPtrs(fl) + Zeros(PAGE_SIZE - 8 - 4 * |fl|)
  }

  lemma PutLength(root: nat, n: nat, m: nat, fl: seq<nat>)
    requires |fl| <= MASTER_CAPACITY
    ensures Put(MasterRaw(root, n, fl), 4, BE32(m)) == MasterRaw(root, m, fl)
  {
    var rest := EncPtrs(fl) + Zeros(PAGE_SIZE - 8 - 4 * |fl|);
    assert MasterRaw(root, n, fl) == BE32(root) + BE32(n) + rest &&
           MasterRaw(root, m, fl) == BE32(root) + BE32(m) + rest;
    PutMid(BE32(root), BE32(n), BE32(m), rest);
  }

  lemma PutEntry(root: nat, n: nat, fl: seq<nat>, x: nat)
    requires |fl| < MASTER_CAPACITY
    ensures Put(MasterRaw(root, n, fl), 8 + 4 * |fl|, BE32(x)) == MasterRaw(root, n, fl + [x])
  {
    EncPtrsAppend(fl, [x]);
    assert EncPtrs([x]) == BE32(x);
    var pre := BE32(root) + BE32(n) + EncPtrs(fl);
    var m := PAGE_SIZE - 12 - 4 * |fl|;
    assert Zeros(m + 4) == Zeros(4) + Zeros(m);
    assert MasterRaw(root, n, fl) == pre + Zeros(4) + Zeros(m);
    PutMid(pre, Zeros(4), BE32(x), Zeros(m));
    assert MasterRaw(root, n, fl + [x]) == pre + BE32(x) + Zeros(m);
  }

  /** Shifting the list left by one entry drops its head. */
  lemma PopHead(root: nat, n: nat, fl: seq<nat>)
    requires 0 < |fl| <= MASTER_CAPACITY
    ensures Close(MasterRaw(root, n, fl), 8, 4, PAGE_SIZE) == MasterRaw(root, n, fl[1..])
  {
    var pre := BE32(root) + BE32(n);
    var b := EncPtrs(fl[1..]);
    var m := PAGE_SIZE - 8 - 4 * |fl|;
    assert MasterRaw(root, n, fl) == pre + BE32(fl[0]) + ((b + Zeros(m)) + Zeros(0));
    CloseMid(pre, BE32(fl[0]), b + Zeros(m), 0);
    assert Zeros(m + 4) == Zeros(m) + Zeros(4);
    assert MasterRaw(root, n, fl[1..]) == pre + ((b + Zeros(m)) + Zeros(4));
  }
}
