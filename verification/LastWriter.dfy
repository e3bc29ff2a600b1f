/** What each key holds after a replay, read off the log directly: the last mutation of the key, in
    commit order, decides. */
module LastWriter {
  import opened Bytes
  import opened Entries
  import opened Wal

  /** The key holds what the mutation left there: its value, or nothing. */
  ghost predicate Left(m: Mutation, after: State) {
    match m
    case Store(key, value) => key in after && after[key] == value
    case Erase(key) => key !in after
  }

  ghost predicate SameAt(before: State, after: State, key: Bytes) {
    && (key in after <==> key in before)
    && (key in before ==> after[key] == before[key])
  }

  /** One mutation took effect, and nothing else. */
  ghost predicate Took(before: State, m: Mutation, after: State) {
    Left(m, after) && forall key: Bytes :: key != m.key ==> SameAt(before, after, key)
  }

  lemma ApplyTakes(s: State, m: Mutation)
    ensures Took(s, m, Apply(s, m))
  {
  }

  /** A mutation of another key leaves alone what was there. */
  lemma TookElsewhere(start: State, before: State, m: Mutation, after: State, n: Mutation)
    requires Took(before, m, after) && m.key != n.key
    ensures Left(n, before) ==> Left(n, after)
    ensures SameAt(start, before, n.key) ==> SameAt(start, after, n.key)
  {
    assert SameAt(before, after, n.key);
  }

  lemma TookLeft(before: State, m: Mutation, after: State)
    requires Took(before, m, after)
    ensures Left(m, after)
  {
  }

  lemma NothingTaken(s: State)
    ensures forall key: Bytes :: SameAt(s, s, key)
  {
  }

  // ---- lists of effects ----

  /** Effect `i` is the last one on its key. */
  ghost predicate LastOn(es: seq<Effect>, i: nat) {
    i < |es| && forall j :: i < j < |es| ==> es[j].m.key != es[i].m.key
  }

  ghost predicate NoneOn(es: seq<Effect>, key: Bytes) { forall i :: 0 <= i < |es| ==> es[i].m.key != key }

  /** Every key holds what the last effect on it left there, or what it held before. */
  ghost predicate Followed(before: State, es: seq<Effect>, after: State) {
    && (forall i: nat :: LastOn(es, i) ==> Left(es[i].m, after))
    && forall key: Bytes :: NoneOn(es, key) ==> SameAt(before, after, key)
  }

  lemma {:induction false} FoldFollows(s: State, es: seq<Effect>)
    ensures Followed(s, es, Fold(s, es))
  {
    hide Apply, Took, Left, SameAt;
    if es == [] {
      NothingTaken(s);
    } else {
      var n := |es| - 1;
      var front, after := es[..n], Fold(s, es);
      FoldFollows(s, front);
      ApplyTakes(Fold(s, front), es[n].m);
      TookLeft(Fold(s, front), es[n].m, after);
      forall i: nat | LastOn(es, i) ensures Left(es[i].m, after) {
        if i < n {
          assert forall j :: i < j < |front| ==> front[j] == es[j];
          assert LastOn(front, i) && front[i] == es[i] && es[n].m.key != es[i].m.key;
          TookElsewhere(s, Fold(s, front), es[n].m, after, es[i].m);
        }
      }
      forall key: Bytes | NoneOn(es, key) ensures SameAt(s, after, key) {
        assert forall i :: 0 <= i < |front| ==> front[i] == es[i];
        assert NoneOn(front, key);
        assert es[n].m.key != key;
        TookElsewhere(s, Fold(s, front), es[n].m, after, Erase(key));
      }
    }
  }

  // ---- logs ----

  /** The mutation at `j` writes the key, past the checkpoint, and takes effect at `k`: at once when
      it stands alone, otherwise at a COMMIT of its transaction further on. */
  ghost predicate Writes(log: seq<Record>, checkpoint: nat, key: Bytes, j: nat, k: nat) {
    && j <= k < |log| && log[j].position > checkpoint
    && log[j].op.Mutate? && log[j].op.m.key == key
    && if log[j].tx == 0 then k == j else j < k && log[k].tx == log[j].tx && log[k].op.Commit?
  }

  /** Nothing that writes the key takes effect later. */
  ghost predicate Wins(log: seq<Record>, checkpoint: nat, key: Bytes, j: nat, k: nat) {
    && Writes(log, checkpoint, key, j, k)
    && forall i: nat, l: nat :: Writes(log, checkpoint, key, i, l) ==> l < k || (l == k && i <= j)
  }

  /** What a replay past a checkpoint makes of one key. */
  ghost predicate Replayed(log: seq<Record>, checkpoint: nat, disk: State, key: Bytes, after: State) {
    || (exists j: nat, k: nat :: Wins(log, checkpoint, key, j, k) && Left(log[j].op.m, after))
    || ((forall j: nat, k: nat :: !Writes(log, checkpoint, key, j, k)) && SameAt(disk, after, key))
  }

  /** The last mutation of the key a transaction has logged. */
  function LastStaged(log: seq<Record>, tx: nat, key: Bytes): Option<nat> {
    if log == [] then None else
      var n := |log| - 1;
      if log[n].tx == tx && log[n].op.Mutate? && log[n].op.m.key == key then Some(n)
      else LastStaged(log[..n], tx, key)
  }

  lemma {:induction false} LastStagedIs(log: seq<Record>, tx: nat, key: Bytes)
    ensures var r := LastStaged(log, tx, key);
            && (r.Some? ==> r.value < |log| && log[r.value].tx == tx && log[r.value].op.Mutate?
                            && log[r.value].op.m.key == key)
            && (forall i :: 0 <= i < |log| && log[i].tx == tx && log[i].op.Mutate? && log[i].op.m.key == key ==>
                  r.Some? && i <= r.value)
  {
    if log != [] {
      var n := |log| - 1;
      LastStagedIs(log[..n], tx, key);
      assert forall i :: 0 <= i < n ==> log[..n][i] == log[i];
    }
  }

  /** Applying what a transaction staged. */
  lemma {:induction false} StagedLeaves(s: State, log: seq<Record>, tx: nat, at: nat, key: Bytes)
    ensures var r, after := LastStaged(log, tx, key), Fold(s, Stamp(at, Staged(log, tx)));
            if r.Some? then r.value < |log| && log[r.value].op.Mutate? && Left(log[r.value].op.m, after)
            else SameAt(s, after, key)
  {
    hide Apply, Fold;
    if log == [] {
      FoldNone(s);
    } else {
      var n := |log| - 1;
      StagedLeaves(s, log[..n], tx, at, key);
      LastStagedIs(log[..n], tx, key);
      if log[n].tx == tx && log[n].op.Mutate? {
        StampedStep(s, at, Staged(log[..n], tx), log[n].op.m);
        var before := Fold(s, Stamp(at, Staged(log[..n], tx)));
        ApplyTakes(before, log[n].op.m);
        if log[n].op.m.key != key {
          var r := LastStaged(log[..n], tx, key);
          var other := if r.Some? then log[r.value].op.m else Erase(key);
          TookElsewhere(s, before, log[n].op.m, Apply(before, log[n].op.m), other);
        }
      }
    }
  }

  lemma FoldNone(s: State)
    ensures Fold(s, []) == s
  {
  }

  lemma StampedStep(s: State, at: nat, ms: seq<Mutation>, m: Mutation)
    ensures Fold(s, Stamp(at, ms + [m])) == Apply(Fold(s, Stamp(at, ms)), m)
  {
    hide Apply;
    assert (ms + [m])[..|ms|] == ms;
    var es := Stamp(at, ms);
    assert (es + [Effect(at, m)])[..|es|] == es;
  }

  /** Which mutation decides, and where it takes effect. */
  function Decider(log: seq<Record>, key: Bytes): Option<(nat, nat)> {
    if log == [] then None else
      var n := |log| - 1;
      var front, last := log[..n], log[n];
      if last.tx == 0 && last.op.Mutate? && last.op.m.key == key then Some((n, n))
      else if last.tx != 0 && last.op.Commit? && LastStaged(front, last.tx, key).Some? then
        Some((LastStaged(front, last.tx, key).value, n))
      else Decider(front, key)
  }

  lemma {:induction false} DeciderKey(log: seq<Record>, key: Bytes)
    ensures var d := Decider(log, key);
            d.Some? ==> d.value.0 < |log| && log[d.value.0].op.Mutate? && log[d.value.0].op.m.key == key
  {
    hide LastStaged;
    if log != [] {
      DeciderKey(log[..|log| - 1], key);
      LastStagedIs(log[..|log| - 1], log[|log| - 1].tx, key);
    }
  }

  lemma {:induction false} DeciderLeaves(s: State, log: seq<Record>, key: Bytes)
    ensures var d, after := Decider(log, key), Fold(s, Effects(log));
            if d.Some? then d.value.0 < |log| && log[d.value.0].op.Mutate? && Left(log[d.value.0].op.m, after)
            else SameAt(s, after, key)
  {
    hide Apply, Fold, Staged, Stamp, LastStaged;
    if log == [] {
      FoldNone(s);
    } else {
      var n := |log| - 1;
      var front, last := log[..n], log[n];
      DeciderLeaves(s, front, key);
      var before := Fold(s, Effects(front));
      FoldConcat(s, Effects(front), Gain(front, last));
      if last.tx == 0 {
        if last.op.Mutate? {
          FoldOne(before, Effect(last.position, last.op.m));
          ApplyTakes(before, last.op.m);
          if last.op.m.key != key {
            var d := Decider(front, key);
            DeciderKey(front, key);
            var other := if d.Some? then front[d.value.0].op.m else Erase(key);
            TookElsewhere(s, before, last.op.m, Apply(before, last.op.m), other);
          }
        } else {
          FoldNone(before);
        }
      } else if last.op.Commit? {
        StagedLeaves(before, front, last.tx, last.position, key);
        LastStagedIs(front, last.tx, key);
        DeciderKey(front, key);
      } else {
        FoldNone(before);
      }
    }
  }

  lemma FoldOne(s: State, e: Effect)
    ensures Fold(s, [e]) == Apply(s, e.m)
  {
    hide Apply;
    assert [e][..0] == [];
  }

  lemma {:induction false} DeciderWins(log: seq<Record>, key: Bytes)
    requires forall i :: 0 <= i < |log| ==> log[i].position > 0
    ensures var d := Decider(log, key);
            if d.Some? then Wins(log, 0, key, d.value.0, d.value.1)
            else forall j: nat, k: nat :: !Writes(log, 0, key, j, k)
  {
    hide LastStaged;
    if log != [] {
      var n := |log| - 1;
      var front, last := log[..n], log[n];
      assert forall i :: 0 <= i < n ==> front[i] == log[i];
      DeciderWins(front, key);
      LastStagedIs(front, last.tx, key);
      WritesFront(log, key);
    }
  }

  /** Leaving the last record out only takes away what takes effect there. */
  lemma WritesFront(log: seq<Record>, key: Bytes)
    requires log != []
    ensures forall j: nat, k: nat :: k < |log| - 1 ==>
              (Writes(log, 0, key, j, k) <==> Writes(log[..|log| - 1], 0, key, j, k))
  {
    assert forall i :: 0 <= i < |log| - 1 ==> log[..|log| - 1][i] == log[i];
  }

  /** Replaying the records past a checkpoint leaves every key as the last mutation of it, in commit
      order, says, and every other key alone. */
  lemma ReplayLeaves(disk: State, log: seq<Record>, checkpoint: nat, key: Bytes)
    requires Ascending(log)
    ensures Replayed(log, checkpoint, disk, key, Fold(disk, Effects(Suffix(log, checkpoint))))
  {
    hide Fold, Effects, Suffix, Decider, Left;
    var n := Low(log, checkpoint);
    var rest := log[n..];
    SuffixSlice(log, checkpoint);
    PastCheckpoint(log, checkpoint);
    DeciderLeaves(disk, rest, key);
    DeciderWins(rest, key);
    WritesPast(log, checkpoint, key);
    var d := Decider(rest, key);
    if d.Some? {
      WinsPast(log, checkpoint, key, d.value.0, d.value.1);
      assert rest[d.value.0] == log[n + d.value.0];
    }
  }

  lemma PastCheckpoint(log: seq<Record>, checkpoint: nat)
    requires Ascending(log)
    ensures var n := Low(log, checkpoint);
            forall i :: 0 <= i < |log| ==> (log[i].position > checkpoint <==> i >= n)
    ensures forall i :: 0 <= i < |log[Low(log, checkpoint)..]| ==> log[Low(log, checkpoint)..][i].position > checkpoint
  {
    var n := Low(log, checkpoint);
    forall i | n <= i < |log| ensures log[i].position > checkpoint {
      if i > n { assert log[n].position < log[i].position; }
    }
  }

  lemma WritesPast(log: seq<Record>, checkpoint: nat, key: Bytes)
    requires Ascending(log)
    ensures var n := Low(log, checkpoint);
            && (forall j: nat, k: nat :: Writes(log, checkpoint, key, j, k) ==>
                  j >= n && k >= n && Writes(log[n..], 0, key, j - n, k - n))
            && (forall j: nat, k: nat :: Writes(log[n..], 0, key, j, k) ==> Writes(log, checkpoint, key, j + n, k + n))
  {
    PastCheckpoint(log, checkpoint);
    var n := Low(log, checkpoint);
    var rest := log[n..];
    assert forall i :: 0 <= i < |rest| ==> rest[i] == log[n + i];
    forall j: nat, k: nat | Writes(log, checkpoint, key, j, k)
      ensures j >= n && k >= n && Writes(rest, 0, key, j - n, k - n)
    {
      assert rest[j - n] == log[j] && rest[k - n] == log[k];
    }
  }

  lemma WinsPast(log: seq<Record>, checkpoint: nat, key: Bytes, j: nat, k: nat)
    requires Ascending(log) && Wins(log[Low(log, checkpoint)..], 0, key, j, k)
    ensures var n := Low(log, checkpoint); Wins(log, checkpoint, key, n + j, n + k)
  {
    hide Writes;
    WritesPast(log, checkpoint, key);
    var n := Low(log, checkpoint);
    forall i: nat, l: nat | Writes(log, checkpoint, key, i, l) ensures l < n + k || (l == n + k && i <= n + j) {
      assert Writes(log[n..], 0, key, i - n, l - n);
    }
  }
}
