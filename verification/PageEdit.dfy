/** What the in-place edits of a page buffer (put a field, open a gap, close a gap) do to its five regions. */
module PageEdit {
  import opened Bytes
  import opened PageCodec
  import opened PageReads

  /** Overwrite the bytes at pos. */
  function Put(s: seq<byte>, pos: nat, b: seq<byte>): (r: seq<byte>)
    requires pos + |b| <= |s|
    ensures |r| == |s|
  {
    s[..pos] + b + s[pos + |b|..]
  }

  lemma PutParts(s: seq<byte>, pos: nat, b: seq<byte>)
    requires pos + |b| <= |s|
    ensures var r := Put(s, pos, b); r[..pos] == s[..pos] && r[pos + |b|..] == s[pos + |b|..]
    ensures forall i | 0 <= i < |b| :: Put(s, pos, b)[pos + i] == b[i]
  {
  }

  lemma PutFour(s: seq<byte>, pos: nat, b: seq<byte>)
    requires |b| == 4 && pos + 4 <= |s|
    ensures var r := Put(s, pos, b);
            r[pos] == b[0] && r[pos + 1] == b[1] && r[pos + 2] == b[2] && r[pos + 3] == b[3]
  {
    PutParts(s, pos, b);
    assert Put(s, pos, b)[pos + 0] == b[0];
  }

  /** Shift everything from pos right by n, losing the last n bytes, and clear the gap. */
  function Open(s: seq<byte>, pos: nat, n: nat): (r: seq<byte>)
    requires pos + n <= |s|
    ensures |r| == |s|
  {
    s[..pos] + Zeros(n) + s[pos..|s| - n]
  }

  /** Remove n bytes at pos, shifting left the bytes up to end, and clear everything after them. */
  function Close(s: seq<byte>, pos: nat, n: nat, end: nat): (r: seq<byte>)
    requires pos + n <= end <= |s|
    ensures |r| == |s|
  {
    s[..pos] + s[pos + n..end] + Zeros(|s| - end + n)
  }

  lemma PutMid(a: seq<byte>, x: seq<byte>, y: seq<byte>, c: seq<byte>)
    requires |x| == |y|
    ensures Put(a + x + c, |a|, y) == a + y + c
  {
  }

  /** Two adjacent writes are one. */
  lemma PutPut(s: seq<byte>, pos: nat, a: seq<byte>, b: seq<byte>)
    requires pos + |a| + |b| <= |s|
    ensures Put(Put(s, pos, a), pos + |a|, b) == Put(s, pos, a + b)
  {
  }

  lemma OpenMid(a: seq<byte>, b: seq<byte>, m: nat, n: nat)
    requires n <= m
    ensures Open(a + (b + Zeros(m)), |a|, n) == a + Zeros(n) + (b + Zeros(m - n))
  {
  }

  lemma CloseMid(a: seq<byte>, x: seq<byte>, b: seq<byte>, m: nat)
    ensures Close(a + x + (b + Zeros(m)), |a|, |x|, |a| + |x| + |b|) == a + (b + Zeros(m + |x|))
  {
  }

  /** A page in the middle of an edit: its regions need not yet agree with its key count. */
  function Raw(t: nat, n: nat, ps: seq<nat>, os: seq<nat>, K: seq<byte>): (s: seq<byte>)
    requires 4 + 4 * |ps| + 2 * |os| + |K| <= PAGE_SIZE
    ensures |s| == PAGE_SIZE
  {
    Layout(t, n, EncPtrs(ps), EncOffs(os), K)
  }

  lemma NKeysOfRaw(t: nat, n: nat, ps: seq<nat>, os: seq<nat>, K: seq<byte>)
    requires 4 + 4 * |ps| + 2 * |os| + |K| <= PAGE_SIZE && n < 0x1_0000
    ensures Get16(Raw(t, n, ps, os, K), 2) == n
  {
    var P, O := EncPtrs(ps), EncOffs(os);
    var rest := P + O + K + Zeros(PAGE_SIZE - 4 - |P| - |O| - |K|);
    assert Raw(t, n, ps, os, K) == BE16(t) + BE16(n) + rest;
    Get16Back(BE16(t), n, rest);
  }

  lemma SetNKeys(t: nat, n: nat, m: nat, ps: seq<nat>, os: seq<nat>, K: seq<byte>)
    requires 4 + 4 * |ps| + 2 * |os| + |K| <= PAGE_SIZE
    ensures Put(Raw(t, n, ps, os, K), 2, BE16(m)) == Raw(t, m, ps, os, K)
  {
    var P, O := EncPtrs(ps), EncOffs(os);
    var rest := P + O + K + Zeros(PAGE_SIZE - 4 - |P| - |O| - |K|);
    assert Raw(t, n, ps, os, K) == BE16(t) + BE16(n) + rest;
    assert Raw(t, m, ps, os, K) == BE16(t) + BE16(m) + rest;
    PutMid(BE16(t), BE16(n), BE16(m), rest);
  }

  lemma SetTyp(t: nat, u: nat, n: nat, ps: seq<nat>, os: seq<nat>, K: seq<byte>)
    requires 4 + 4 * |ps| + 2 * |os| + |K| <= PAGE_SIZE
    ensures Put(Raw(t, n, ps, os, K), 0, BE16(u)) == Raw(u, n, ps, os, K)
  {
    var P, O := EncPtrs(ps), EncOffs(os);
    var rest := BE16(n) + P + O + K + Zeros(PAGE_SIZE - 4 - |P| - |O| - |K|);
    assert Raw(t, n, ps, os, K) == [] + BE16(t) + rest;
    assert Raw(u, n, ps, os, K) == [] + BE16(u) + rest;
    PutMid([], BE16(t), BE16(u), rest);
  }

  // ---- pointers

  lemma EncPtrsAround(a: seq<nat>, x: nat, b: seq<nat>)
    ensures EncPtrs(a + [x] + b) == EncPtrs(a) + BE32(x) + EncPtrs(b)
  {
    EncPtrsAppend(a + [x], b);
    EncPtrsAppend(a, [x]);
    assert EncPtrs([x]) == BE32(x);
  }

  lemma SetPtrAt(t: nat, n: nat, a: seq<nat>, x: nat, y: nat, b: seq<nat>, os: seq<nat>, K: seq<byte>)
    requires 8 + 4 * |a| + 4 * |b| + 2 * |os| + |K| <= PAGE_SIZE
    ensures Put(Raw(t, n, a + [x] + b, os, K), 4 + 4 * |a|, BE32(y)) == Raw(t, n, a + [y] + b, os, K)
  {
    hide Open, Close, Put;
    EncPtrsAround(a, x, b);
    EncPtrsAround(a, y, b);
    var O := EncOffs(os);
    FocusP(t, n, EncPtrs(a), BE32(x), EncPtrs(b), O, K);
    FocusP(t, n, EncPtrs(a), BE32(y), EncPtrs(b), O, K);
    PutMid(BE16(t) + BE16(n) + EncPtrs(a), BE32(x), BE32(y),
           EncPtrs(b) + O + K + Zeros(PAGE_SIZE - 8 - 4 * |a| - 4 * |b| - |O| - |K|));
  }

  /** A page cut at a pointer boundary. */
  lemma CutPtrs(t: nat, n: nat, a: seq<nat>, b: seq<nat>, os: seq<nat>, K: seq<byte>)
    requires 4 + 4 * |a| + 4 * |b| + 2 * |os| + |K| <= PAGE_SIZE
    ensures Raw(t, n, a + b, os, K) ==
            (BE16(t) + BE16(n) + EncPtrs(a)) +
            (EncPtrs(b) + EncOffs(os) + K + Zeros(PAGE_SIZE - 4 - 4 * |a| - 4 * |b| - 2 * |os| - |K|))
  {
    EncPtrsAppend(a, b);
    FocusP(t, n, EncPtrs(a), [], EncPtrs(b), EncOffs(os), K);
    assert EncPtrs(a) + [] + EncPtrs(b) == EncPtrs(a + b);
  }

  lemma OpenPtr(t: nat, n: nat, a: seq<nat>, b: seq<nat>, os: seq<nat>, K: seq<byte>)
    requires 8 + 4 * |a| + 4 * |b| + 2 * |os| + |K| <= PAGE_SIZE
    ensures Open(Raw(t, n, a + b, os, K), 4 + 4 * |a|, 4) == Raw(t, n, a + [0] + b, os, K)
  {
    hide Open, Close, Put, Raw;
    CutPtrs(t, n, a, b, os, K);
    CutPtrs(t, n, a + [0], b, os, K);
    EncPtrsAppend(a, [0]);
    assert EncPtrs([0]) == BE32(0) == Zeros(4);
    OpenMid(BE16(t) + BE16(n) + EncPtrs(a), EncPtrs(b) + EncOffs(os) + K,
            PAGE_SIZE - 4 - 4 * |a| - 4 * |b| - 2 * |os| - |K|, 4);
  }

  lemma ClosePtr(t: nat, n: nat, a: seq<nat>, x: nat, b: seq<nat>, os: seq<nat>, K: seq<byte>)
    requires 8 + 4 * |a| + 4 * |b| + 2 * |os| + |K| <= PAGE_SIZE
    ensures Close(Raw(t, n, a + [x] + b, os, K), 4 + 4 * |a|, 4, 8 + 4 * |a| + 4 * |b| + 2 * |os| + |K|) ==
            Raw(t, n, a + b, os, K)
  {
    hide Open, Close, Put, Raw;
    CutPtrs(t, n, a, b, os, K);
    CutPtrs(t, n, a + [x], b, os, K);
    EncPtrsAppend(a, [x]);
    assert EncPtrs([x]) == BE32(x);
    var pre, rest := BE16(t) + BE16(n) + EncPtrs(a), EncPtrs(b) + EncOffs(os) + K;
    var m := PAGE_SIZE - 8 - 4 * |a| - 4 * |b| - 2 * |os| - |K|;
    assert Raw(t, n, a + [x] + b, os, K) == pre + BE32(x) + (rest + Zeros(m));
    CloseMid(pre, BE32(x), rest, m);
    assert |pre| == 4 + 4 * |a| && |pre| + 4 + |rest| == 8 + 4 * |a| + 4 * |b| + 2 * |os| + |K|;
  }

  // ---- offsets

  lemma EncOffsAround(a: seq<nat>, x: nat, b: seq<nat>)
    ensures EncOffs(a + [x] + b) == EncOffs(a) + BE16(x) + EncOffs(b)
  {
    EncOffsAppend(a + [x], b);
    EncOffsAppend(a, [x]);
    assert EncOffs([x]) == BE16(x);
  }

  lemma SetOffAt(t: nat, n: nat, ps: seq<nat>, a: seq<nat>, x: nat, y: nat, b: seq<nat>, K: seq<byte>)
    requires 6 + 4 * |ps| + 2 * |a| + 2 * |b| + |K| <= PAGE_SIZE
    ensures Put(Raw(t, n, ps, a + [x] + b, K), 4 + 4 * |ps| + 2 * |a|, BE16(y)) == Raw(t, n, ps, a + [y] + b, K)
  {
    hide Open, Close, Put;
    EncOffsAround(a, x, b);
    EncOffsAround(a, y, b);
    var P := EncPtrs(ps);
    FocusO(t, n, P, EncOffs(a), BE16(x), EncOffs(b), K);
    FocusO(t, n, P, EncOffs(a), BE16(y), EncOffs(b), K);
    PutMid(BE16(t) + BE16(n) + P + EncOffs(a), BE16(x), BE16(y),
           EncOffs(b) + K + Zeros(PAGE_SIZE - 6 - |P| - 2 * |a| - 2 * |b| - |K|));
  }

  lemma SetOff(t: nat, n: nat, ps: seq<nat>, os: seq<nat>, i: nat, y: nat, K: seq<byte>)
    requires i < |os| && 4 + 4 * |ps| + 2 * |os| + |K| <= PAGE_SIZE
    ensures Put(Raw(t, n, ps, os, K), 4 + 4 * |ps| + 2 * i, BE16(y)) == Raw(t, n, ps, os[i := y], K)
  {
    hide Raw, Put, BE16;
    assert os == os[..i] + [os[i]] + os[i + 1..];
    assert os[i := y] == os[..i] + [y] + os[i + 1..];
    SetOffAt(t, n, ps, os[..i], os[i], y, os[i + 1..], K);
  }

  /** The offsets os with everything from position lo on moved by d. */
  ghost function Shifted(os: seq<nat>, lo: nat, d: int): (r: seq<nat>)
    requires forall j | lo <= j < |os| :: os[j] + d >= 0
    ensures |r| == |os|
  {
    seq(|os|, j requires 0 <= j < |os| => if j < lo then os[j] else os[j] + d)
  }

  /** A page cut at an offset boundary. */
  lemma CutOffs(t: nat, n: nat, ps: seq<nat>, a: seq<nat>, b: seq<nat>, K: seq<byte>)
    requires 4 + 4 * |ps| + 2 * |a| + 2 * |b| + |K| <= PAGE_SIZE
    ensures Raw(t, n, ps, a + b, K) ==
            (BE16(t) + BE16(n) + EncPtrs(ps) + EncOffs(a)) +
            (EncOffs(b) + K + Zeros(PAGE_SIZE - 4 - 4 * |ps| - 2 * |a| - 2 * |b| - |K|))
  {
    EncOffsAppend(a, b);
    FocusO(t, n, EncPtrs(ps), EncOffs(a), [], EncOffs(b), K);
    assert EncOffs(a) + [] + EncOffs(b) == EncOffs(a + b);
  }

  lemma OpenOff(t: nat, n: nat, ps: seq<nat>, a: seq<nat>, b: seq<nat>, K: seq<byte>)
    requires 6 + 4 * |ps| + 2 * |a| + 2 * |b| + |K| <= PAGE_SIZE
    ensures Open(Raw(t, n, ps, a + b, K), 4 + 4 * |ps| + 2 * |a|, 2) == Raw(t, n, ps, a + [0] + b, K)
  {
    hide Open, Close, Put, Raw;
    CutOffs(t, n, ps, a, b, K);
    CutOffs(t, n, ps, a + [0], b, K);
    EncOffsAppend(a, [0]);
    assert EncOffs([0]) == BE16(0) == Zeros(2);
    OpenMid(BE16(t) + BE16(n) + EncPtrs(ps) + EncOffs(a), EncOffs(b) + K,
            PAGE_SIZE - 4 - 4 * |ps| - 2 * |a| - 2 * |b| - |K|, 2);
  }

  lemma CloseOff(t: nat, n: nat, ps: seq<nat>, a: seq<nat>, x: nat, b: seq<nat>, K: seq<byte>)
    requires 6 + 4 * |ps| + 2 * |a| + 2 * |b| + |K| <= PAGE_SIZE
    ensures Close(Raw(t, n, ps, a + [x] + b, K), 4 + 4 * |ps| + 2 * |a|, 2, 6 + 4 * |ps| + 2 * |a| + 2 * |b| + |K|) ==
            Raw(t, n, ps, a + b, K)
  {
    hide Open, Close, Put, Raw;
    CutOffs(t, n, ps, a, b, K);
    CutOffs(t, n, ps, a + [x], b, K);
    EncOffsAppend(a, [x]);
    assert EncOffs([x]) == BE16(x);
    var pre, rest := BE16(t) + BE16(n) + EncPtrs(ps) + EncOffs(a), EncOffs(b) + K;
    var m := PAGE_SIZE - 6 - 4 * |ps| - 2 * |a| - 2 * |b| - |K|;
    assert Raw(t, n, ps, a + [x] + b, K) == pre + BE16(x) + (rest + Zeros(m));
    CloseMid(pre, BE16(x), rest, m);
    assert |pre| == 4 + 4 * |ps| + 2 * |a| && |pre| + 2 + |rest| == 6 + 4 * |ps| + 2 * |a| + 2 * |b| + |K|;
  }

  // ---- key-values

  lemma PutKV(t: nat, n: nat, ps: seq<nat>, os: seq<nat>, A: seq<byte>, X: seq<byte>, Y: seq<byte>, B: seq<byte>)
    requires 4 + 4 * |ps| + 2 * |os| + |A| + |X| + |B| <= PAGE_SIZE && |X| == |Y|
    ensures Put(Raw(t, n, ps, os, A + X + B), 4 + 4 * |ps| + 2 * |os| + |A|, Y) == Raw(t, n, ps, os, A + Y + B)
  {
    hide Open, Close, Put;
    var P, O := EncPtrs(ps), EncOffs(os);
    FocusK(t, n, P, O, A, X, B);
    FocusK(t, n, P, O, A, Y, B);
    PutMid(BE16(t) + BE16(n) + P + O + A, X, Y, B + Zeros(PAGE_SIZE - 4 - |P| - |O| - |A| - |X| - |B|));
  }

  lemma OpenKV(t: nat, n: nat, ps: seq<nat>, os: seq<nat>, A: seq<byte>, B: seq<byte>, g: nat)
    requires 4 + 4 * |ps| + 2 * |os| + |A| + |B| + g <= PAGE_SIZE
    ensures Open(Raw(t, n, ps, os, A + B), 4 + 4 * |ps| + 2 * |os| + |A|, g) ==
            Raw(t, n, ps, os, A + Zeros(g) + B)
  {
    hide Open, Close, Put;
    var P, O := EncPtrs(ps), EncOffs(os);
    var m := PAGE_SIZE - 4 - |P| - |O| - |A| - |B|;
    FocusK(t, n, P, O, A, [], B);
    assert A + [] + B == A + B;
    FocusK(t, n, P, O, A, Zeros(g), B);
    var pre := BE16(t) + BE16(n) + P + O + A;
    assert Raw(t, n, ps, os, A + B) == pre + (B + Zeros(m));
    OpenMid(pre, B, m, g);
  }

  lemma CloseKV(t: nat, n: nat, ps: seq<nat>, os: seq<nat>, A: seq<byte>, X: seq<byte>, B: seq<byte>)
    requires 4 + 4 * |ps| + 2 * |os| + |A| + |X| + |B| <= PAGE_SIZE
    ensures Close(Raw(t, n, ps, os, A + X + B), 4 + 4 * |ps| + 2 * |os| + |A|, |X|,
                  4 + 4 * |ps| + 2 * |os| + |A| + |X| + |B|) ==
            Raw(t, n, ps, os, A + B)
  {
    hide Open, Close, Put;
    var P, O := EncPtrs(ps), EncOffs(os);
    var m := PAGE_SIZE - 4 - |P| - |O| - |A| - |X| - |B|;
    FocusK(t, n, P, O, A, X, B);
    FocusK(t, n, P, O, A, [], B);
    assert A + [] + B == A + B;
    var pre := BE16(t) + BE16(n) + P + O + A;
    CloseMid(pre, X, B, m);
    assert Raw(t, n, ps, os, A + B) == pre + (B + Zeros(m + |X|));
  }
}
