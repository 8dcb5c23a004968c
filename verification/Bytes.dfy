/** Bytes, big-endian fields and the byte order the engine compares keys with. */
module Bytes {

  type byte = x: int | 0 <= x < 0x100
  type u16 = x: int | 0 <= x < 0x1_0000
  type u32 = x: int | 0 <= x < 0x1_0000_0000

  const PAGE_SIZE := 4096
  const MAX_KV_LEN := 1344

  function Zeros(n: nat): (s: seq<byte>)
    ensures |s| == n
    ensures forall i | 0 <= i < n :: s[i] == 0
  {
    seq(n, _ => 0)
  }

  /** The low 16 bits of x, most significant byte first. */
  function BE16(x: nat): (s: seq<byte>)
    ensures |s| == 2
  {
    [x / 0x100 % 0x100, x % 0x100]
  }

  /** The low 32 bits of x, most significant byte first. */
  function BE32(x: nat): (s: seq<byte>)
    ensures |s| == 4
  {
    BE16(x / 0x1_0000 % 0x1_0000) + BE16(x % 0x1_0000)
  }

  function Get16(s: seq<byte>, pos: nat): (x: u16)
    requires pos + 2 <= |s|
  {
    var hi: int, lo: int := s[pos], s[pos + 1];
    hi * 0x100 + lo
  }

  function Get32(s: seq<byte>, pos: nat): (x: u32)
    requires pos + 4 <= |s|
  {
    var hi: int, lo: int := Get16(s, pos), Get16(s, pos + 2);
    hi * 0x1_0000 + lo
  }

  /** The value of a 16-bit field: the byte at the lower address weighs 256. */
  lemma Get16Value(s: seq<byte>, pos: nat)
    requires pos + 2 <= |s|
    ensures Get16(s, pos) == 0x100 * (s[pos] as int) + s[pos + 1]
  {
  }

  lemma Get32Value(s: seq<byte>, pos: nat)
    requires pos + 4 <= |s|
    ensures Get32(s, pos) == 0x100_0000 * (s[pos] as int) + 0x1_0000 * (s[pos + 1] as int) +
                             0x100 * (s[pos + 2] as int) + s[pos + 3]
  {
  }

  lemma BE16Value(x: nat)
    requires x < 0x1_0000
    ensures 0x100 * (BE16(x)[0] as int) + BE16(x)[1] == x
  {
  }

  lemma BE32Value(x: nat)
    requires x < 0x1_0000_0000
    ensures var b := BE32(x);
            0x100_0000 * (b[0] as int) + 0x1_0000 * (b[1] as int) + 0x100 * (b[2] as int) + b[3] == x
  {
    hide BE16;
    BE16Value(x / 0x1_0000);
    BE16Value(x % 0x1_0000);
  }

  lemma Get16Back(pre: seq<byte>, x: nat, post: seq<byte>)
    requires x < 0x1_0000
    ensures Get16(pre + BE16(x) + post, |pre|) == x
  {
    var s := pre + BE16(x) + post;
    assert s[|pre|] == BE16(x)[0] && s[|pre| + 1] == BE16(x)[1];
  }

  lemma Get32Back(pre: seq<byte>, x: nat, post: seq<byte>)
    requires x < 0x1_0000_0000
    ensures Get32(pre + BE32(x) + post, |pre|) == x
  {
    var hi, lo := BE16(x / 0x1_0000), BE16(x % 0x1_0000);
    assert pre + BE32(x) + post == pre + hi + (lo + post) == (pre + hi) + lo + post;
    Get16Back(pre, x / 0x1_0000, lo + post);
    Get16Back(pre + hi, x % 0x1_0000, post);
  }

  /** The low half of a 32-bit field, read where its last two bytes lie. */
  lemma LowHalf(pre: seq<byte>, x: nat, post: seq<byte>)
    ensures Get16(pre + BE32(x) + post, |pre| + 2) == x % 0x1_0000
  {
    var hi := BE16(x / 0x1_0000 % 0x1_0000);
    assert pre + BE32(x) + post == (pre + hi) + BE16(x % 0x1_0000) + post;
    Get16Back(pre + hi, x % 0x1_0000, post);
  }

  /** bytes.Compare(a, b) == -1 */
  predicate Less(a: seq<byte>, b: seq<byte>)
    decreases |a|
  {
    if |b| == 0 then false
    else if |a| == 0 then true
    else a[0] < b[0] || (a[0] == b[0] && Less(a[1..], b[1..]))
  }

  /** The order itself: a is below b where a ends inside b, or has the smaller byte at the first place they differ. */
  lemma {:induction false} LessMeaning(a: seq<byte>, b: seq<byte>)
    ensures Less(a, b) <==>
            exists i | 0 <= i <= |a| && i < |b| :: a[..i] == b[..i] && (i == |a| || a[i] < b[i])
    decreases |a|
  {
    if |b| == 0 {
    } else if |a| == 0 {
      assert a[..0] == b[..0];
    } else if a[0] == b[0] {
      LessMeaning(a[1..], b[1..]);
      SharedFirst(a, b);
    } else if Less(a, b) {
      assert a[..0] == b[..0];
    } else {
      forall i | 0 <= i <= |a| && i < |b| && a[..i] == b[..i]
        ensures i != |a| && a[i] >= b[i]
      {
        SamePrefix(a, b, i);
      }
    }
  }

  lemma SamePrefix(a: seq<byte>, b: seq<byte>, i: nat)
    requires i <= |a| && i <= |b| && a[..i] == b[..i]
    ensures i > 0 ==> a[0] == b[0]
  {
    if i > 0 {
      assert a[0] == a[..i][0];
    }
  }

  lemma SharedFirst(a: seq<byte>, b: seq<byte>)
    requires |a| > 0 && |b| > 0 && a[0] == b[0]
    ensures (exists i | 0 <= i <= |a| && i < |b| :: a[..i] == b[..i] && (i == |a| || a[i] < b[i])) <==>
            exists i | 0 <= i <= |a[1..]| && i < |b[1..]| ::
              a[1..][..i] == b[1..][..i] && (i == |a[1..]| || a[1..][i] < b[1..][i])
  {
    var c, d := a[1..], b[1..];
    if j :| 0 <= j <= |c| && j < |d| && c[..j] == d[..j] && (j == |c| || c[j] < d[j]) {
      assert a[..j + 1] == [a[0]] + c[..j] && b[..j + 1] == [b[0]] + d[..j];
    }
    if i :| 0 <= i <= |a| && i < |b| && a[..i] == b[..i] && (i == |a| || a[i] < b[i]) {
      assert i > 0;
      assert c[..i - 1] == a[..i][1..] && d[..i - 1] == b[..i][1..];
    }
  }

  lemma {:induction false} LessTransitive(a: seq<byte>, b: seq<byte>, c: seq<byte>)
    requires Less(a, b) && Less(b, c)
    ensures Less(a, c)
    decreases |a|
  {
    if |a| != 0 && a[0] == b[0] == c[0] {
      LessTransitive(a[1..], b[1..], c[1..]);
    }
  }

  lemma {:induction false} LessTotal(a: seq<byte>, b: seq<byte>)
    ensures Less(a, b) || a == b || Less(b, a)
    ensures !(Less(a, b) && Less(b, a))
    ensures a == b ==> !Less(a, b)
    decreases |a|
  {
    if |a| != 0 && |b| != 0 && a[0] == b[0] {
      LessTotal(a[1..], b[1..]);
      assert a == [a[0]] + a[1..] && b == [b[0]] + b[1..];
    }
  }
}
