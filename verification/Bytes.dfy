/** Byte strings in the order the index compares them: Rust's lexicographic
    order on `[u8]`, where a proper prefix comes first. */
module Bytes {
  type Byte = x: int | 0 <= x < 256
  type Bytes = seq<Byte>

  /** `a < b` for byte slices. */
  predicate Lt(a: Bytes, b: Bytes) {
    |b| > 0 && (|a| == 0 || a[0] < b[0] || (a[0] == b[0] && Lt(a[1..], b[1..])))
  }

  lemma {:induction false} LtIrreflexive(a: Bytes)
    ensures !Lt(a, a)
  {
    if a != [] { LtIrreflexive(a[1..]); }
  }

  lemma {:induction false} LtTransitive(a: Bytes, b: Bytes, c: Bytes)
    requires Lt(a, b) && Lt(b, c)
    ensures Lt(a, c)
  {
    if a != [] && a[0] == b[0] && b[0] == c[0] { LtTransitive(a[1..], b[1..], c[1..]); }
  }

  lemma {:induction false} LtTotal(a: Bytes, b: Bytes)
    ensures Lt(a, b) || a == b || Lt(b, a)
  {
    if a == [] || b == [] {
    } else if a[0] == b[0] {
      LtTotal(a[1..], b[1..]);
      assert a == [a[0]] + a[1..] && b == [b[0]] + b[1..];
    }
  }

  /** The strict total order laws, in the form the tree proofs use them. */
  lemma OrderLaws()
    ensures forall a: Bytes {:trigger Lt(a, a)} :: !Lt(a, a)
    ensures forall a: Bytes, b: Bytes, c: Bytes {:trigger Lt(a, b), Lt(b, c)} :: Lt(a, b) && Lt(b, c) ==> Lt(a, c)
    ensures forall a: Bytes, b: Bytes {:trigger Lt(a, b)} :: Lt(a, b) || a == b || Lt(b, a)
  {
    forall a: Bytes ensures !Lt(a, a) { LtIrreflexive(a); }
    forall a: Bytes, b: Bytes, c: Bytes | Lt(a, b) && Lt(b, c) ensures Lt(a, c) { LtTransitive(a, b, c); }
    forall a: Bytes, b: Bytes ensures Lt(a, b) || a == b || Lt(b, a) { LtTotal(a, b); }
  }

  /** Byte strings agree up to `i`, where the first one's byte is smaller. */
  ghost predicate SmallerAt(a: Bytes, b: Bytes, i: nat) {
    i < |a| && i < |b| && a[..i] == b[..i] && a[i] < b[i]
  }

  /** The order is that of the first byte in which two strings differ, a proper prefix coming first. */
  lemma {:induction false} LtMeaning(a: Bytes, b: Bytes)
    ensures Lt(a, b) <==> a < b || exists i: nat :: SmallerAt(a, b, i)
    decreases |a|
  {
    if a != [] && b != [] && a[0] == b[0] {
      var c, d := a[1..], b[1..];
      assert a == [a[0]] + c && b == [a[0]] + d;
      LtMeaning(c, d);
      if i: nat :| SmallerAt(c, d, i) {
        assert a[..i + 1] == [a[0]] + c[..i] && b[..i + 1] == [a[0]] + d[..i];
        assert SmallerAt(a, b, i + 1);
      }
      if i: nat :| SmallerAt(a, b, i) {
        assert c[..i - 1] == a[..i][1..] && d[..i - 1] == b[..i][1..];
        assert SmallerAt(c, d, i - 1);
      }
    } else if a != [] && b != [] {
      forall i: nat ensures SmallerAt(a, b, i) ==> i == 0 || a[0] == b[0] { SameStart(a, b, i); }
      if a[0] < b[0] { assert SmallerAt(a, b, 0); }
    }
  }

  lemma SameStart(a: Bytes, b: Bytes, i: nat)
    requires a != [] && b != []
    ensures SmallerAt(a, b, i) && i > 0 ==> a[0] == b[0]
  {
    if SmallerAt(a, b, i) && i > 0 { assert a[0] == a[..i][0] && b[0] == b[..i][0]; }
  }
}
