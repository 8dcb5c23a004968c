/** Go's copy and clear on a page buffer. */
module Buffer {
  import opened Bytes
  import opened PageEdit

  /** copy(a[pos:], b) */
  method PutBytes(a: array<byte>, pos: nat, b: seq<byte>)
    requires pos + |b| <= a.Length
    modifies a
    ensures a[..] == Put(old(a[..]), pos, b)
  {
    forall i | 0 <= i < |b| {
      a[pos + i] := b[i];
    }
  }

  /** copy(a[pos+n:], a[pos:]); clear(a[pos:pos+n]) */
  method OpenGap(a: array<byte>, pos: nat, n: nat)
    requires pos + n <= a.Length
    modifies a
    ensures a[..] == Open(old(a[..]), pos, n)
  {
    forall i | pos + n <= i < a.Length {
      a[i] := a[i - n];
    }
    ghost var b := a[..];
    assert b[..pos] == old(a[..pos]) && b[pos + n..] == old(a[pos..a.Length - n]);
    forall i | pos <= i < pos + n {
      a[i] := 0;
    }
    assert a[..pos] == b[..pos] && a[pos..pos + n] == Zeros(n) && a[pos + n..] == b[pos + n..];
  }

  /** copy(a[pos:], a[pos+n:]); clear(a[end-n:]) */
  method CloseGap(a: array<byte>, pos: nat, n: nat, end: nat)
    requires pos + n <= end <= a.Length
    modifies a
    ensures a[..] == Close(old(a[..]), pos, n, end)
  {
    forall i | pos <= i < a.Length - n {
      a[i] := a[i + n];
    }
    ghost var b := a[..];
    assert b[..pos] == old(a[..pos]) && b[pos..end - n] == old(a[pos + n..end]);
    forall i | end - n <= i < a.Length {
      a[i] := 0;
    }
    assert a[..end - n] == b[..end - n] && a[end - n..] == Zeros(a.Length - end + n);
  }
}
