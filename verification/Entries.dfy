/** Key/value entries, the sorted sequences they form, and the map such a sequence stands for. */
module Entries {
  import opened Bytes

  datatype KV = KV(key: seq<byte>, val: seq<byte>)

  datatype Option<+T> = None | Some(value: T)

  /** The lower bound: how many leading entries have a key below k. */
  function LB(s: seq<KV>, k: seq<byte>): (i: nat)
    ensures i <= |s|
    ensures forall j | 0 <= j < i :: Less(s[j].key, k)
    ensures i < |s| ==> !Less(s[i].key, k)
  {
    if |s| == 0 || !Less(s[0].key, k) then 0 else 1 + LB(s[1..], k)
  }

  ghost predicate Sorted(s: seq<KV>) {
    forall i, j | 0 <= i < j < |s| :: Less(s[i].key, s[j].key)
  }

  predicate Holds(s: seq<KV>, k: seq<byte>) {
    LB(s, k) < |s| && s[LB(s, k)].key == k
  }

  function Lookup(s: seq<KV>, k: seq<byte>): Option<seq<byte>> {
    if Holds(s, k) then Some(s[LB(s, k)].val) else None
  }

  function Ins(s: seq<KV>, e: KV): seq<KV> {
    s[..LB(s, e.key)] + [e] + s[LB(s, e.key)..]
  }

  function Del(s: seq<KV>, k: seq<byte>): seq<KV>
    requires Holds(s, k)
  {
    s[..LB(s, k)] + s[LB(s, k) + 1..]
  }

  /** The lower bound in terms of bytes: every key before it is a proper prefix of k or has the smaller byte at the
      first difference, the key at it neither. */
  lemma LBMeaning(s: seq<KV>, k: seq<byte>)
    ensures forall j | 0 <= j < LB(s, k) :: var a := s[j].key;
              exists i | 0 <= i <= |a| && i < |k| :: a[..i] == k[..i] && (i == |a| || a[i] < k[i])
    ensures LB(s, k) < |s| ==> var a := s[LB(s, k)].key;
              !exists i | 0 <= i <= |a| && i < |k| :: a[..i] == k[..i] && (i == |a| || a[i] < k[i])
  {
    hide Less;
    var idx := LB(s, k);
    forall j | 0 <= j < idx
      ensures var a := s[j].key;
              exists i | 0 <= i <= |a| && i < |k| :: a[..i] == k[..i] && (i == |a| || a[i] < k[i])
    {
      LessMeaning(s[j].key, k);
    }
    if idx < |s| {
      LessMeaning(s[idx].key, k);
    }
  }

  /** The index is the lower bound as soon as it separates the keys below k from the first that is not. */
  lemma LBUnique(s: seq<KV>, k: seq<byte>, i: nat)
    requires i <= |s|
    requires forall j | 0 <= j < i :: Less(s[j].key, k)
    requires i < |s| ==> !Less(s[i].key, k)
    ensures LB(s, k) == i
  {
  }

  /** The last entry below k bounds every entry before it; the first entry not below k bounds every entry after it. */
  lemma SplitAtLB(s: seq<KV>, k: seq<byte>, i: nat)
    requires Sorted(s) && i <= |s|
    requires i > 0 ==> Less(s[i - 1].key, k)
    requires i < |s| ==> !Less(s[i].key, k)
    ensures LB(s, k) == i
  {
    forall j | 0 <= j < i
      ensures Less(s[j].key, k)
    {
      if j < i - 1 {
        LessTransitive(s[j].key, s[i - 1].key, k);
      }
    }
    LBUnique(s, k, i);
  }

  lemma HoldsIndex(s: seq<KV>, i: nat)
    requires Sorted(s) && i < |s|
    ensures LB(s, s[i].key) == i
    ensures Holds(s, s[i].key)
  {
    LessTotal(s[i].key, s[i].key);
    SplitAtLB(s, s[i].key, i);
  }

  lemma SortedSlice(s: seq<KV>, lo: nat, hi: nat)
    requires Sorted(s) && lo <= hi <= |s|
    ensures Sorted(s[lo..hi])
  {
  }

  lemma SortedParts(a: seq<KV>, b: seq<KV>, c: seq<KV>)
    requires Sorted(a + b + c)
    ensures Sorted(a) && Sorted(b) && Sorted(c)
  {
    var s := a + b + c;
    SortedSlice(s, 0, |a|);
    SortedSlice(s, |a|, |a| + |b|);
    SortedSlice(s, |a| + |b|, |s|);
    assert s[0..|a|] == a && s[|a|..|a| + |b|] == b && s[|a| + |b|..|s|] == c;
  }

  lemma SortedGap(x: seq<KV>, b: KV, y: seq<KV>)
    requires Sorted(x + [b] + y)
    ensures Sorted(x + y)
  {
    var s, t := x + [b] + y, x + y;
    forall i, j | 0 <= i < j < |t|
      ensures Less(t[i].key, t[j].key)
    {
      assert t[i] == s[if i < |x| then i else i + 1] && t[j] == s[if j < |x| then j else j + 1];
    }
  }

  /** In a sorted sequence the lower bound of k can be found inside the middle part that brackets k. */
  lemma LBMiddle(a: seq<KV>, b: seq<KV>, c: seq<KV>, k: seq<byte>)
    requires Sorted(a + b + c)
    requires |a| > 0 ==> Less(a[|a| - 1].key, k)
    requires |c| > 0 ==> !Less(c[0].key, k)
    ensures LB(a + b + c, k) == |a| + LB(b, k)
  {
    var s := a + b + c;
    var i := LB(b, k);
    if i > 0 {
      assert s[|a| + i - 1] == b[i - 1];
    } else if |a| > 0 {
      assert s[|a| - 1] == a[|a| - 1];
    }
    if i < |b| {
      assert s[|a| + i] == b[i];
    } else if |c| > 0 {
      assert s[|a| + i] == c[0];
    }
    SplitAtLB(s, k, |a| + i);
  }

  lemma CutMiddle(a: seq<KV>, b: seq<KV>, c: seq<KV>, i: nat)
    requires i <= |b|
    ensures (a + b + c)[..|a| + i] == a + b[..i]
    ensures (a + b + c)[|a| + i..] == b[i..] + c
  {
  }

  lemma Regroup(a: seq<KV>, x: seq<KV>, m: seq<KV>, y: seq<KV>, c: seq<KV>)
    ensures (a + x) + m + (y + c) == a + (x + m + y) + c
    ensures (a + x) + (y + c) == a + (x + y) + c
  {
  }

  lemma InsShifts(a: seq<KV>, b: seq<KV>, c: seq<KV>, e: KV)
    requires LB(a + b + c, e.key) == |a| + LB(b, e.key)
    ensures Ins(a + b + c, e) == a + Ins(b, e) + c
  {
    hide LB;
    var i := LB(b, e.key);
    CutMiddle(a, b, c, i);
    Regroup(a, b[..i], [e], b[i..], c);
  }

  lemma InsMiddle(a: seq<KV>, b: seq<KV>, c: seq<KV>, e: KV)
    requires Sorted(a + b + c)
    requires |a| > 0 ==> Less(a[|a| - 1].key, e.key)
    requires |c| > 0 ==> !Less(c[0].key, e.key)
    ensures Ins(a + b + c, e) == a + Ins(b, e) + c
  {
    hide Sorted, Ins;
    LBMiddle(a, b, c, e.key);
    InsShifts(a, b, c, e);
  }

  lemma HoldsShifts(a: seq<KV>, b: seq<KV>, c: seq<KV>, k: seq<byte>)
    requires LB(a + b + c, k) == |a| + LB(b, k)
    requires |c| > 0 ==> c[0].key != k
    ensures Holds(a + b + c, k) == Holds(b, k)
    ensures Lookup(a + b + c, k) == Lookup(b, k)
  {
    var s := a + b + c;
    var i := LB(b, k);
    if i < |b| {
      assert s[|a| + i] == b[i];
    } else if |c| > 0 {
      assert s[|a| + i] == c[0];
    }
  }

  lemma DelShifts(a: seq<KV>, b: seq<KV>, c: seq<KV>, k: seq<byte>)
    requires LB(a + b + c, k) == |a| + LB(b, k)
    requires Holds(a + b + c, k) && Holds(b, k)
    ensures Del(a + b + c, k) == a + Del(b, k) + c
  {
    hide LB;
    var i := LB(b, k);
    CutMiddle(a, b, c, i);
    CutMiddle(a, b, c, i + 1);
    Regroup(a, b[..i], [], b[i + 1..], c);
  }

  lemma HoldsMiddle(a: seq<KV>, b: seq<KV>, c: seq<KV>, k: seq<byte>)
    requires Sorted(a + b + c)
    requires |a| > 0 ==> Less(a[|a| - 1].key, k)
    requires |c| > 0 ==> Less(k, c[0].key)
    ensures Holds(a + b + c, k) == Holds(b, k)
    ensures Lookup(a + b + c, k) == Lookup(b, k)
    ensures Holds(b, k) ==> Del(a + b + c, k) == a + Del(b, k) + c
  {
    hide Sorted, Less, Del;
    if |c| > 0 {
      LessTotal(k, c[0].key);
    }
    LBMiddle(a, b, c, k);
    HoldsShifts(a, b, c, k);
    if Holds(b, k) {
      DelShifts(a, b, c, k);
    }
  }

  lemma HoldsAt(a: seq<KV>, e: KV, c: seq<KV>)
    requires Sorted(a + [e] + c)
    ensures Holds(a + [e] + c, e.key)
    ensures Lookup(a + [e] + c, e.key) == Some(e.val)
    ensures Del(a + [e] + c, e.key) == a + c
  {
    var s := a + [e] + c;
    assert s[|a|] == e;
    HoldsIndex(s, |a|);
    assert s[..|a|] == a && s[|a| + 1..] == c;
  }

  /** The finite map a sorted sequence stands for. */
  ghost function MapOf(s: seq<KV>): (m: map<seq<byte>, seq<byte>>)
    ensures forall k :: k in m <==> Holds(s, k)
    ensures forall k | k in m :: Lookup(s, k) == Some(m[k])
  {
    var keys := set i | 0 <= i < |s| :: s[i].key;
    map k | k in keys && Holds(s, k) :: s[LB(s, k)].val
  }

  /** Inserting at the lower bound keeps the sequence strictly sorted exactly when the key is new. */
  lemma InsSorted(s: seq<KV>, e: KV)
    requires Sorted(s)
    ensures Sorted(Ins(s, e)) <==> !Holds(s, e.key)
  {
    var i := LB(s, e.key);
    var t := Ins(s, e);
    assert t[i] == e;
    if Holds(s, e.key) {
      assert t[i + 1] == s[i];
      LessTotal(e.key, e.key);
    } else {
      forall y | i <= y < |s|
        ensures Less(e.key, s[y].key)
      {
        LessTotal(e.key, s[i].key);
        if y > i {
          LessTransitive(e.key, s[i].key, s[y].key);
        }
      }
    }
  }

  lemma DelSorted(s: seq<KV>, k: seq<byte>)
    requires Sorted(s) && Holds(s, k)
    ensures Sorted(Del(s, k))
  {
  }

  lemma LookupIns(s: seq<KV>, e: KV, q: seq<byte>)
    requires Sorted(s) && !Holds(s, e.key)
    ensures Lookup(Ins(s, e), q) == if q == e.key then Some(e.val) else Lookup(s, q)
  {
    hide Sorted, Less, LB;
    InsSorted(s, e);
    var i := LB(s, e.key);
    var a, c := s[..i], s[i..];
    assert s == a + [] + c == a + c + [] == [] + a + c;
    LessTotal(q, e.key);
    if q == e.key {
      HoldsAt(a, e, c);
    } else if Less(q, e.key) {
      assert Ins(s, e) == [] + a + ([e] + c);
      HoldsMiddle([], a, [e] + c, q);
      if |c| > 0 {
        LessTotal(c[0].key, e.key);
        LessTransitive(q, e.key, c[0].key);
      }
      HoldsMiddle([], a, c, q);
    } else {
      assert Ins(s, e) == (a + [e]) + c + [];
      HoldsMiddle(a + [e], c, [], q);
      if |a| > 0 {
        LessTransitive(a[|a| - 1].key, e.key, q);
      }
      HoldsMiddle(a, c, [], q);
    }
  }

  /** Insertion of a new key refines map update. */
  lemma InsRefinesUpdate(s: seq<KV>, e: KV)
    requires Sorted(s) && !Holds(s, e.key)
    ensures Sorted(Ins(s, e)) && MapOf(Ins(s, e)) == MapOf(s)[e.key := e.val]
  {
    hide Sorted, Ins;
    InsSorted(s, e);
    forall q
      ensures q in MapOf(Ins(s, e)) <==> q in MapOf(s)[e.key := e.val]
      ensures q in MapOf(Ins(s, e)) ==> MapOf(Ins(s, e))[q] == MapOf(s)[e.key := e.val][q]
    {
      LookupIns(s, e, q);
    }
  }

  lemma DelLB(s: seq<KV>, k: seq<byte>)
    requires Sorted(s) && Holds(s, k)
    ensures Sorted(Del(s, k)) && LB(Del(s, k), k) == LB(s, k) && !Holds(Del(s, k), k)
  {
    DelSorted(s, k);
    var d := Del(s, k);
    var i := LB(s, k);
    if i < |d| {
      assert d[i] == s[i + 1];
      LessTotal(k, s[i + 1].key);
    }
    SplitAtLB(d, k, i);
  }

  lemma PutBack(s: seq<KV>, i: nat)
    requires i < |s|
    ensures var d := s[..i] + s[i + 1..]; d[..i] + [s[i]] + d[i..] == s
  {
  }

  /** Removing an entry and inserting it again are inverse. */
  lemma InsUndoesDel(s: seq<KV>, k: seq<byte>)
    requires Sorted(s) && Holds(s, k)
    ensures Sorted(Del(s, k)) && !Holds(Del(s, k), k)
    ensures Ins(Del(s, k), s[LB(s, k)]) == s
  {
    DelLB(s, k);
    PutBack(s, LB(s, k));
  }

  lemma UpdateThenRemove<K, V>(m: map<K, V>, k: K, v: V)
    requires k !in m
    ensures m == m[k := v] - {k}
  {
  }

  /** Removal of a present key refines map removal. */
  lemma DelRefinesRemove(s: seq<KV>, k: seq<byte>)
    requires Sorted(s) && Holds(s, k)
    ensures Sorted(Del(s, k)) && MapOf(Del(s, k)) == MapOf(s) - {k}
  {
    hide Sorted, Ins, Del;
    InsUndoesDel(s, k);
    InsRefinesUpdate(Del(s, k), s[LB(s, k)]);
    UpdateThenRemove(MapOf(Del(s, k)), k, s[LB(s, k)].val);
  }
}
