/** The write-ahead log as a value: records, the effects a log asks for, and what replaying
    them over keyed storage gives. */
module Wal {
  import opened Bytes
  import opened Entries

  type State = map<Bytes, Bytes>

  datatype Mutation = Store(key: Bytes, value: Bytes) | Erase(key: Bytes)

  datatype Op = Begin | Commit | Abort | Mutate(m: Mutation)

  /** Transaction 0 is reserved for standalone mutations. */
  datatype Record = Record(position: nat, tx: nat, op: Op)

  /** A mutation that takes effect, at the position of the record that makes it visible. */
  datatype Effect = Effect(at: nat, m: Mutation)

  function Lookup(s: State, key: Bytes): Option<Bytes> {
    if key in s then Some(s[key]) else None
  }

  function Apply(s: State, m: Mutation): State {
    match m
    case Store(k, v) => s[k := v]
    case Erase(k) => s - {k}
  }

  function Fold(s: State, es: seq<Effect>): State {
    if es == [] then s else Apply(Fold(s, es[..|es| - 1]), es[|es| - 1].m)
  }

  ghost predicate Touches(es: seq<Effect>, key: Bytes) {
    exists i :: 0 <= i < |es| && es[i].m.key == key
  }

  predicate Ascending(log: seq<Record>) {
    forall i, j :: 0 <= i < j < |log| ==> log[i].position < log[j].position
  }

  /** The mutations transaction `tx` has logged so far, in order. */
  function Staged(log: seq<Record>, tx: nat): seq<Mutation> {
    if log == [] then [] else
      var front, last := log[..|log| - 1], log[|log| - 1];
      if last.tx == tx && last.op.Mutate? then Staged(front, tx) + [last.op.m] else Staged(front, tx)
  }

  function Stamp(at: nat, ms: seq<Mutation>): (es: seq<Effect>)
    ensures |es| == |ms| && forall i :: 0 <= i < |ms| ==> es[i] == Effect(at, ms[i])
  {
    if ms == [] then [] else Stamp(at, ms[..|ms| - 1]) + [Effect(at, ms[|ms| - 1])]
  }

  /** What a record makes visible: a standalone mutation itself, and at a COMMIT everything its
      transaction staged before it. */
  function Gain(front: seq<Record>, r: Record): seq<Effect> {
    if r.tx == 0 then
      if r.op.Mutate? then [Effect(r.position, r.op.m)] else []
    else
      if r.op.Commit? then Stamp(r.position, Staged(front, r.tx)) else []
  }

  /** Every effect of a log, in the order of the records that make them visible. */
  function Effects(log: seq<Record>): seq<Effect> {
    if log == [] then [] else
      Effects(log[..|log| - 1]) + Gain(log[..|log| - 1], log[|log| - 1])
  }

  /** The records past a checkpoint: the ones recovery replays and rotation keeps. */
  function Suffix(log: seq<Record>, checkpoint: nat): seq<Record> {
    if log == [] then [] else
      var front, last := log[..|log| - 1], log[|log| - 1];
      if last.position > checkpoint then Suffix(front, checkpoint) + [last] else Suffix(front, checkpoint)
  }

  /** How many records of an ascending log lie at or below a checkpoint. */
  function Low(log: seq<Record>, checkpoint: nat): (n: nat)
    ensures n <= |log|
    ensures forall i :: 0 <= i < n ==> log[i].position <= checkpoint
    ensures n < |log| ==> log[n].position > checkpoint
  {
    if log == [] || log[0].position > checkpoint then 0 else 1 + Low(log[1..], checkpoint)
  }

  /** No transaction has records on both sides of index `n`. */
  ghost predicate Clear(log: seq<Record>, n: nat) {
    forall i, j :: 0 <= i < n <= j < |log| && log[i].tx == log[j].tx ==> log[i].tx == 0
  }

  // ---- replay over keyed storage ----

  lemma {:induction false} FoldConcat(s: State, a: seq<Effect>, b: seq<Effect>)
    ensures Fold(s, a + b) == Fold(Fold(s, a), b)
  {
    if b == [] {
      assert a + b == a;
    } else {
      assert (a + b)[..|a + b| - 1] == a + b[..|b| - 1];
      FoldConcat(s, a, b[..|b| - 1]);
    }
  }

  /** A key no effect touches keeps its value; one that some effect touches ends with a value
      the starting state has no part in. */
  lemma {:induction false} FoldAt(s: State, t: State, es: seq<Effect>, key: Bytes)
    ensures !Touches(es, key) ==> Lookup(Fold(s, es), key) == Lookup(s, key)
    ensures Touches(es, key) ==> Lookup(Fold(s, es), key) == Lookup(Fold(t, es), key)
  {
    if es != [] {
      var front, last := es[..|es| - 1], es[|es| - 1];
      FoldAt(s, t, front, key);
      assert last.m.key == key ==> Touches(es, key);
      if Touches(front, key) {
        var i :| 0 <= i < |front| && front[i].m.key == key;
        assert es[i].m.key == key;
      }
      if Touches(es, key) && last.m.key != key {
        var i :| 0 <= i < |es| && es[i].m.key == key;
        assert front[i].m.key == key;
      }
    }
  }

  lemma SameLookups(s: State, t: State)
    requires forall k: Bytes :: Lookup(s, k) == Lookup(t, k)
    ensures s == t
  {
    forall k: Bytes ensures k in s <==> k in t { assert Lookup(s, k) == Lookup(t, k); }
    forall k | k in s ensures s[k] == t[k] { assert Lookup(s, k) == Lookup(t, k); }
    assert s.Keys == t.Keys;
  }

  /** Replaying effects over storage that differs from the intended start only on keys those
      effects write gives exactly the intended result. */
  lemma ReplayAgain(disk: State, base: State, es: seq<Effect>)
    requires forall k: Bytes :: Touches(es, k) || Lookup(disk, k) == Lookup(base, k)
    ensures Fold(disk, es) == Fold(base, es)
  {
    forall k: Bytes ensures Lookup(Fold(disk, es), k) == Lookup(Fold(base, es), k) {
      FoldAt(disk, base, es, k);
      FoldAt(base, disk, es, k);
    }
    SameLookups(Fold(disk, es), Fold(base, es));
  }

  /** ... and only then: the exact condition for a replay to repair storage. */
  lemma ReplayExactly(disk: State, base: State, es: seq<Effect>)
    ensures Fold(disk, es) == Fold(base, es) <==>
            forall k: Bytes :: Touches(es, k) || Lookup(disk, k) == Lookup(base, k)
  {
    if Fold(disk, es) == Fold(base, es) {
      forall k: Bytes ensures Touches(es, k) || Lookup(disk, k) == Lookup(base, k) {
        FoldAt(disk, base, es, k);
        FoldAt(base, disk, es, k);
      }
    }
    if forall k: Bytes :: Touches(es, k) || Lookup(disk, k) == Lookup(base, k) {
      ReplayAgain(disk, base, es);
    }
  }

  /** Storage that already holds any prefix of the effects replays to the same state. */
  lemma ReplayOverPrefix(base: State, es: seq<Effect>, n: nat)
    requires n <= |es|
    ensures Fold(Fold(base, es[..n]), es) == Fold(base, es)
  {
    var part := es[..n];
    forall k: Bytes ensures Touches(es, k) || Lookup(Fold(base, part), k) == Lookup(base, k) {
      FoldAt(base, base, part, k);
      if Touches(part, k) {
        var i :| 0 <= i < |part| && part[i].m.key == k;
        assert es[i].m.key == k;
      }
    }
    ReplayAgain(Fold(base, part), base, es);
  }

  lemma TouchesConcat(a: seq<Effect>, b: seq<Effect>, key: Bytes)
    ensures Touches(a + b, key) <==> Touches(a, key) || Touches(b, key)
  {
    if Touches(a + b, key) {
      var i :| 0 <= i < |a + b| && (a + b)[i].m.key == key;
      if i < |a| { assert a[i].m.key == key; } else { assert b[i - |a|].m.key == key; }
    }
    if Touches(a, key) {
      var i :| 0 <= i < |a| && a[i].m.key == key;
      assert (a + b)[i].m.key == key;
    }
    if Touches(b, key) {
      var i :| 0 <= i < |b| && b[i].m.key == key;
      assert (a + b)[|a| + i].m.key == key;
    }
  }

  // ---- cutting logs ----

  lemma {:induction false} StagedConcat(a: seq<Record>, b: seq<Record>, tx: nat)
    ensures Staged(a + b, tx) == Staged(a, tx) + Staged(b, tx)
  {
    if b == [] {
      assert a + b == a;
    } else {
      assert (a + b)[..|a + b| - 1] == a + b[..|b| - 1];
      StagedConcat(a, b[..|b| - 1], tx);
    }
  }

  lemma {:induction false} StagedNone(a: seq<Record>, tx: nat)
    requires forall r :: r in a ==> r.tx != tx
    ensures Staged(a, tx) == []
  {
    if a != [] { StagedNone(a[..|a| - 1], tx); }
  }

  /** A transaction with no record in `a` gains nothing from it. */
  lemma GainSkips(a: seq<Record>, b: seq<Record>, r: Record)
    requires r.tx != 0 ==> forall i :: 0 <= i < |a| ==> a[i].tx != r.tx
    ensures Gain(a + b, r) == Gain(b, r)
  {
    StagedConcat(a, b, r.tx);
    if r.tx != 0 {
      StagedNone(a, r.tx);
      assert [] + Staged(b, r.tx) == Staged(b, r.tx);
    }
  }

  lemma ClearFront(a: seq<Record>, b: seq<Record>)
    requires Clear(a + b, |a|) && b != []
    ensures Clear(a + b[..|b| - 1], |a|)
    ensures b[|b| - 1].tx != 0 ==> forall i :: 0 <= i < |a| ==> a[i].tx != b[|b| - 1].tx
  {
    var c, d := a + b, a + b[..|b| - 1];
    forall i, j | 0 <= i < |a| <= j < |d| && d[i].tx == d[j].tx ensures d[i].tx == 0 {
      assert c[i] == d[i] && c[j] == d[j];
    }
    forall i | 0 <= i < |a| && a[i].tx == b[|b| - 1].tx ensures a[i].tx == 0 {
      assert c[i] == a[i] && c[|c| - 1] == b[|b| - 1];
    }
  }

  /** Effects split where no transaction straddles the cut. */
  lemma {:induction false} EffectsConcat(a: seq<Record>, b: seq<Record>)
    requires Clear(a + b, |a|)
    ensures Effects(a + b) == Effects(a) + Effects(b)
  {
    hide Clear, Gain, Staged;
    if b == [] {
      assert a + b == a;
      assert Effects(a) + [] == Effects(a);
    } else {
      var front, last := b[..|b| - 1], b[|b| - 1];
      assert (a + b)[..|a + b| - 1] == a + front;
      assert (a + b)[|a + b| - 1] == last;
      ClearFront(a, b);
      EffectsConcat(a, front);
      GainSkips(a, front, last);
      Assoc(Effects(a), Effects(front), Gain(front, last));
    }
  }

  lemma Assoc(a: seq<Effect>, b: seq<Effect>, c: seq<Effect>)
    ensures a + b + c == a + (b + c)
  {
  }

  lemma {:induction false} EffectsPosition(log: seq<Record>, k: nat) returns (i: nat)
    requires k < |Effects(log)|
    ensures i < |log| && log[i].position == Effects(log)[k].at
    ensures log[i].tx == 0 || log[i].op.Commit?
  {
    var front, last := log[..|log| - 1], log[|log| - 1];
    if k < |Effects(front)| {
      i := EffectsPosition(front, k);
    } else {
      i := |log| - 1;
    }
  }

  lemma {:induction false} SuffixConcat(a: seq<Record>, b: seq<Record>, checkpoint: nat)
    ensures Suffix(a + b, checkpoint) == Suffix(a, checkpoint) + Suffix(b, checkpoint)
  {
    if b == [] {
      assert a + b == a;
    } else {
      assert (a + b)[..|a + b| - 1] == a + b[..|b| - 1];
      SuffixConcat(a, b[..|b| - 1], checkpoint);
    }
  }

  lemma {:induction false} SuffixNone(a: seq<Record>, checkpoint: nat)
    requires forall i :: 0 <= i < |a| ==> a[i].position <= checkpoint
    ensures Suffix(a, checkpoint) == []
  {
    if a != [] { SuffixNone(a[..|a| - 1], checkpoint); }
  }

  lemma {:induction false} SuffixAll(a: seq<Record>, checkpoint: nat)
    requires forall i :: 0 <= i < |a| ==> a[i].position > checkpoint
    ensures Suffix(a, checkpoint) == a
  {
    if a != [] { SuffixAll(a[..|a| - 1], checkpoint); }
  }

  lemma LowAbove(log: seq<Record>, checkpoint: nat)
    requires Ascending(log)
    ensures forall i :: Low(log, checkpoint) <= i < |log| ==> log[i].position > checkpoint
  {
  }

  /** In an ascending log the records past the checkpoint are the ones after index `Low`. */
  lemma SuffixSlice(log: seq<Record>, checkpoint: nat)
    requires Ascending(log)
    ensures Suffix(log, checkpoint) == log[Low(log, checkpoint)..]
  {
    var n := Low(log, checkpoint);
    LowAbove(log, checkpoint);
    assert log == log[..n] + log[n..];
    SuffixConcat(log[..n], log[n..], checkpoint);
    SuffixNone(log[..n], checkpoint);
    SuffixAll(log[n..], checkpoint);
  }

  lemma LowIs(log: seq<Record>, checkpoint: nat, n: nat)
    requires Ascending(log) && n <= |log|
    requires forall i :: 0 <= i < n ==> log[i].position <= checkpoint
    requires n < |log| ==> log[n].position > checkpoint
    ensures Low(log, checkpoint) == n
  {
  }
}
