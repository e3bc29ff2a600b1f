/** Ordered lists of index entries: what a tree holds, read left to right.
    Every tree operation is specified against these. */
module Entries {
  import opened Bytes

  datatype Option<+T> = None | Some(value: T)
  datatype Entry = Entry(key: Bytes, value: Bytes)

  ghost predicate Sorted(s: seq<Entry>) {
    forall i, j :: 0 <= i < j < |s| ==> Lt(s[i].key, s[j].key)
  }

  /** Every key is before `k`. */
  ghost predicate Below(s: seq<Entry>, k: Bytes) {
    forall e :: e in s ==> Lt(e.key, k)
  }

  /** Every key is after `k`. */
  ghost predicate Above(s: seq<Entry>, k: Bytes) {
    forall e :: e in s ==> Lt(k, e.key)
  }

  /** Every key is at or after `k`. */
  ghost predicate From(s: seq<Entry>, k: Bytes) {
    forall e :: e in s ==> !Lt(e.key, k)
  }

  ghost predicate Absent(s: seq<Entry>, k: Bytes) {
    forall e :: e in s ==> e.key != k
  }

  /** The finite map an ordered list stands for. */
  ghost function AsMap(s: seq<Entry>): map<Bytes, Bytes> {
    if s == [] then map[] else AsMap(s[1..])[s[0].key := s[0].value]
  }

  /** Insert or replace, keeping the order. */
  ghost function PutEntry(s: seq<Entry>, k: Bytes, v: Bytes): seq<Entry> {
    if s == [] then [Entry(k, v)]
    else if s[0].key == k then [Entry(k, v)] + s[1..]
    else if Lt(k, s[0].key) then [Entry(k, v)] + s
    else [s[0]] + PutEntry(s[1..], k, v)
  }

  /** Drop the entry under `k`, if any. */
  ghost function DelEntry(s: seq<Entry>, k: Bytes): seq<Entry> {
    if s == [] then []
    else if s[0].key == k then s[1..]
    else [s[0]] + DelEntry(s[1..], k)
  }

  lemma Split(s: seq<Entry>)
    requires s != []
    ensures s == [s[0]] + s[1..]
    ensures forall e :: e in s <==> e == s[0] || e in s[1..]
  {
    assert s == [s[0]] + s[1..];
  }

  /** An insert is local to the stretch of the list its key falls in. */
  lemma {:induction false} PutMiddle(a: seq<Entry>, c: seq<Entry>, b: seq<Entry>, k: Bytes, v: Bytes)
    requires Below(a, k) && Above(b, k)
    ensures PutEntry(a + c + b, k, v) == a + PutEntry(c, k, v) + b
  {
    OrderLaws();
    if a != [] {
      Split(a);
      assert (a + c + b)[1..] == a[1..] + c + b;
      PutMiddle(a[1..], c, b, k, v);
    } else if c != [] {
      assert a + c + b == c + b;
      Split(c);
      if c[0].key == k || Lt(k, c[0].key) {
        assert (c + b)[1..] == c[1..] + b;
      } else {
        assert (c + b)[1..] == [] + c[1..] + b;
        PutMiddle([], c[1..], b, k, v);
      }
    } else {
      assert a + c + b == b;
      if b != [] { assert b[0] in b; }
    }
  }

  lemma {:induction false} DelAbsent(s: seq<Entry>, k: Bytes)
    requires Absent(s, k)
    ensures DelEntry(s, k) == s
  {
    if s != [] { Split(s); DelAbsent(s[1..], k); }
  }

  /** A removal is local to the stretch of the list its key falls in. */
  lemma {:induction false} DelMiddle(a: seq<Entry>, c: seq<Entry>, b: seq<Entry>, k: Bytes)
    requires Absent(a, k) && Absent(b, k)
    ensures DelEntry(a + c + b, k) == a + DelEntry(c, k) + b
  {
    if a != [] {
      Split(a);
      assert (a + c + b)[1..] == a[1..] + c + b;
      DelMiddle(a[1..], c, b, k);
    } else if c != [] {
      assert a + c + b == c + b;
      Split(c);
      assert (c + b)[1..] == [] + c[1..] + b;
      if c[0].key != k { DelMiddle([], c[1..], b, k); }
    } else {
      assert a + c + b == b;
      DelAbsent(b, k);
    }
  }

  lemma BelowAbsent(s: seq<Entry>, k: Bytes)
    requires Below(s, k) || Above(s, k)
    ensures Absent(s, k)
  {
    OrderLaws();
  }

  lemma SortedTail(s: seq<Entry>)
    requires Sorted(s) && s != []
    ensures Sorted(s[1..]) && Above(s[1..], s[0].key)
  {
    forall e | e in s[1..] ensures Lt(s[0].key, e.key) {
      var i :| 0 <= i < |s[1..]| && s[1..][i] == e;
      assert s[1..][i] == s[i + 1];
    }
  }

  lemma SortedCons(e: Entry, s: seq<Entry>)
    requires Sorted(s) && Above(s, e.key)
    ensures Sorted([e] + s)
  {
    var t := [e] + s;
    forall i, j | 0 <= i < j < |t| ensures Lt(t[i].key, t[j].key) {
      assert t[j] == s[j - 1] && t[j] in s;
      if i > 0 { assert t[i] == s[i - 1]; }
    }
  }

  lemma SortedConcat(a: seq<Entry>, b: seq<Entry>)
    requires Sorted(a) && Sorted(b)
    requires forall x, y :: x in a && y in b ==> Lt(x.key, y.key)
    ensures Sorted(a + b)
  {
    var t := a + b;
    forall i, j | 0 <= i < j < |t| ensures Lt(t[i].key, t[j].key) {
      if i < |a| <= j { assert t[i] in a && t[j] in b; }
    }
  }

  lemma {:induction false} AsMapKeys(s: seq<Entry>)
    ensures forall k :: k in AsMap(s) <==> !Absent(s, k)
    ensures forall k :: k in AsMap(s) ==> Entry(k, AsMap(s)[k]) in s
  {
    if s != [] {
      Split(s);
      AsMapKeys(s[1..]);
      forall k ensures k in AsMap(s) <==> !Absent(s, k) {
        assert Absent(s, k) <==> s[0].key != k && Absent(s[1..], k);
      }
    }
  }

  /** In a sorted list the map holds exactly the listed entries, one key each. */
  lemma {:induction false} AsMapExact(s: seq<Entry>)
    requires Sorted(s)
    ensures forall e :: e in s <==> e.key in AsMap(s) && AsMap(s)[e.key] == e.value
  {
    if s != [] {
      Split(s);
      SortedTail(s);
      AsMapExact(s[1..]);
      LtIrreflexive(s[0].key);
    }
  }

  lemma {:induction false} AsMapSize(s: seq<Entry>)
    requires Sorted(s)
    ensures |AsMap(s)| == |s|
  {
    if s != [] {
      SortedTail(s);
      AsMapSize(s[1..]);
      AsMapKeys(s[1..]);
      BelowAbsent(s[1..], s[0].key);
      assert AsMap(s).Keys == AsMap(s[1..]).Keys + {s[0].key};
    }
  }

  lemma {:induction false} PutMembers(s: seq<Entry>, k: Bytes, v: Bytes)
    ensures forall e :: e in PutEntry(s, k, v) ==> e == Entry(k, v) || e in s
    ensures Entry(k, v) in PutEntry(s, k, v)
  {
    if s != [] {
      Split(s);
      if s[0].key != k && !Lt(k, s[0].key) { PutMembers(s[1..], k, v); }
    }
  }

  lemma {:induction false} PutSorted(s: seq<Entry>, k: Bytes, v: Bytes)
    requires Sorted(s)
    ensures Sorted(PutEntry(s, k, v))
  {
    if s != [] {
      SortedTail(s);
      if s[0].key == k {
        SortedCons(Entry(k, v), s[1..]);
      } else if Lt(k, s[0].key) {
        forall e | e in s ensures Lt(k, e.key) {
          if e != s[0] { Split(s); LtTransitive(k, s[0].key, e.key); }
        }
        SortedCons(Entry(k, v), s);
      } else {
        PutSorted(s[1..], k, v);
        PutMembers(s[1..], k, v);
        LtTotal(k, s[0].key);
        SortedCons(s[0], PutEntry(s[1..], k, v));
      }
    }
  }

  lemma {:induction false} PutMap(s: seq<Entry>, k: Bytes, v: Bytes)
    ensures AsMap(PutEntry(s, k, v)) == AsMap(s)[k := v]
  {
    if s != [] {
      if s[0].key == k {
        assert PutEntry(s, k, v)[1..] == s[1..];
      } else if Lt(k, s[0].key) {
        assert PutEntry(s, k, v)[1..] == s;
      } else {
        PutMap(s[1..], k, v);
        assert PutEntry(s, k, v)[1..] == PutEntry(s[1..], k, v);
      }
    } else {
      assert PutEntry(s, k, v)[1..] == [];
    }
  }

  /** `PutEntry` on a sorted list is a map update that keeps it sorted. */
  lemma PutMeaning(s: seq<Entry>, k: Bytes, v: Bytes)
    requires Sorted(s)
    ensures Sorted(PutEntry(s, k, v))
    ensures AsMap(PutEntry(s, k, v)) == AsMap(s)[k := v]
    ensures |PutEntry(s, k, v)| == |s| + (if k in AsMap(s) then 0 else 1)
  {
    PutSorted(s, k, v);
    PutMap(s, k, v);
    AsMapSize(s);
    AsMapSize(PutEntry(s, k, v));
    assert AsMap(s)[k := v].Keys == AsMap(s).Keys + {k};
  }

  lemma {:induction false} DelMembers(s: seq<Entry>, k: Bytes)
    requires Sorted(s)
    ensures forall e :: e in DelEntry(s, k) <==> e in s && e.key != k
  {
    if s != [] {
      Split(s);
      SortedTail(s);
      if s[0].key == k { LtIrreflexive(k); } else { DelMembers(s[1..], k); }
    }
  }

  lemma {:induction false} DelSorted(s: seq<Entry>, k: Bytes)
    requires Sorted(s)
    ensures Sorted(DelEntry(s, k))
  {
    if s != [] {
      SortedTail(s);
      if s[0].key != k {
        DelSorted(s[1..], k);
        DelMembers(s[1..], k);
        SortedCons(s[0], DelEntry(s[1..], k));
      }
    }
  }

  lemma {:induction false} DelMap(s: seq<Entry>, k: Bytes)
    requires Sorted(s)
    ensures AsMap(DelEntry(s, k)) == AsMap(s) - {k}
  {
    if s != [] {
      SortedTail(s);
      var rest := AsMap(s[1..]);
      if s[0].key == k {
        assert k !in rest by { AsMapKeys(s[1..]); BelowAbsent(s[1..], k); }
        assert rest[k := s[0].value] - {k} == rest;
      } else {
        DelMap(s[1..], k);
        assert DelEntry(s, k)[1..] == DelEntry(s[1..], k);
      }
    }
  }

  /** `DelEntry` on a sorted list is a map removal that keeps it sorted. */
  lemma DelMeaning(s: seq<Entry>, k: Bytes)
    requires Sorted(s)
    ensures Sorted(DelEntry(s, k))
    ensures AsMap(DelEntry(s, k)) == AsMap(s) - {k}
    ensures |DelEntry(s, k)| == |s| - (if k in AsMap(s) then 1 else 0)
  {
    DelSorted(s, k);
    DelMap(s, k);
    AsMapSize(s);
    AsMapSize(DelEntry(s, k));
    assert (AsMap(s) - {k}).Keys == AsMap(s).Keys - {k};
  }
}
