/** Key prefixes: which keys start with one, and the first key past all of them. */
module Prefix {
  import opened Bytes
  import opened Entries

  predicate HasPrefix(k: Bytes, prefix: Bytes) {
    |prefix| <= |k| && k[..|prefix|] == prefix
  }

  /** The first key past every key starting with `prefix`; none when the prefix is
      empty or all 0xff. */
  function Upper(prefix: Bytes): Option<Bytes> {
    if prefix == [] then None
    else
      var n := |prefix| - 1;
      if prefix[n] != 255 then Some(prefix[..n] + [prefix[n] + 1]) else Upper(prefix[..n])
  }

  method PrefixUpperBound(prefix: Bytes) returns (r: Option<Bytes>)
    ensures r == Upper(prefix)
  {
    var bound := prefix;
    while |bound| > 0
      invariant Upper(bound) == Upper(prefix)
    {
      var last := bound[|bound| - 1];
      bound := bound[..|bound| - 1];
      if last != 255 { return Some(bound + [last + 1]); }
    }
    return None;
  }

  lemma {:induction false} LtAppend(c: Bytes, a: Bytes, b: Bytes)
    ensures Lt(c + a, c + b) <==> Lt(a, b)
  {
    if c == [] {
      assert c + a == a && c + b == b;
    } else {
      assert (c + a)[1..] == c[1..] + a && (c + b)[1..] == c[1..] + b;
      LtAppend(c[1..], a, b);
    }
  }

  /** A key that does not start with `q` compares the same to every extension of `q`. */
  lemma {:induction false} LtOffPrefix(k: Bytes, q: Bytes, a: Bytes)
    requires !HasPrefix(k, q)
    ensures Lt(k, q + a) <==> Lt(k, q)
  {
    if k != [] && k[0] == q[0] {
      assert (q + a)[1..] == q[1..] + a;
      assert q == [q[0]] + q[1..] && k == [k[0]] + k[1..];
      assert |q| <= |k| ==> k[..|q|] == [k[0]] + k[1..][..|q| - 1];
      LtOffPrefix(k[1..], q[1..], a);
    }
  }

  lemma OnPrefix(k: Bytes, q: Bytes)
    requires HasPrefix(k, q)
    ensures k == q + k[|q|..]
  {
  }

  /** The keys starting with `prefix` are exactly those from it up to its bound. */
  lemma {:induction false} UpperBounds(k: Bytes, prefix: Bytes)
    ensures HasPrefix(k, prefix) <==> !Lt(k, prefix) && (Upper(prefix).Some? ==> Lt(k, Upper(prefix).value))
  {
    if prefix != [] {
      var n := |prefix| - 1;
      var q, x := prefix[..n], prefix[n];
      assert prefix == q + [x];
      if HasPrefix(k, prefix) { assert k[..n] == k[..n + 1][..n]; }
      if HasPrefix(k, q) {
        OnPrefix(k, q);
        var r := k[n..];
        LtAppend(q, r, [x]);
        if x < 255 { LtAppend(q, r, [x + 1]); }
        LtAppend(q, r, []);
        assert q + [] == q;
        assert HasPrefix(k, prefix) <==> r != [] && r[0] == x;
      } else {
        LtOffPrefix(k, q, [x]);
        if x < 255 { LtOffPrefix(k, q, [x + 1]); }
      }
      if x == 255 { UpperBounds(k, q); }
    }
  }

  /** `cursor` followed by a zero byte is the very next key. */
  lemma {:induction false} NextKey(k: Bytes, cursor: Bytes)
    ensures Lt(cursor, k) <==> !Lt(k, cursor + [0])
  {
    if cursor == [] {
    } else if k == [] {
    } else {
      assert (cursor + [0])[1..] == cursor[1..] + [0];
      NextKey(k[1..], cursor[1..]);
    }
  }
}
