/** Transaction frames inside a log, and the verdict recovery reaches on each. */
module Frames {
  import opened Bytes
  import opened Entries
  import opened Wal

  datatype Verdict = Committed(at: nat) | Discarded | Malformed

  function Project(log: seq<Record>, tx: nat): seq<Record> {
    if log == [] then [] else
      var front, last := log[..|log| - 1], log[|log| - 1];
      if last.tx == tx then Project(front, tx) + [last] else Project(front, tx)
  }

  ghost predicate AllMutations(f: seq<Record>) {
    forall i :: 0 <= i < |f| ==> f[i].op.Mutate?
  }

  ghost predicate NoCommit(f: seq<Record>) {
    forall i :: 0 <= i < |f| ==> !f[i].op.Commit?
  }

  /** A frame is committed exactly when it reads BEGIN, mutations, COMMIT. One that was cut
      short or aborted is discarded, and so is a remainder that promises nothing; any other
      shape is an impossible log. */
  ghost function Judge(f: seq<Record>): Verdict {
    if f == [] then Discarded
    else if !f[0].op.Begin? then (if NoCommit(f) then Discarded else Malformed)
    else if |f| == 1 then Discarded
    else
      var last := f[|f| - 1];
      if !AllMutations(f[1..|f| - 1]) || last.op.Begin? then Malformed
      else if last.op.Commit? then Committed(last.position)
      else Discarded
  }

  /** A log recovery accepts: standalone records are mutations and no frame is impossible. */
  ghost predicate Sound(log: seq<Record>) {
    && (forall i :: 0 <= i < |log| && log[i].tx == 0 ==> log[i].op.Mutate?)
    && forall tx: nat :: tx != 0 ==> Judge(Project(log, tx)) != Malformed
  }

  predicate Numbered(log: seq<Record>) {
    forall i :: 0 <= i < |log| ==> log[i].position > 0
  }

  /** What start-up rebuilds from storage, a log file and a checkpoint, or nothing when it
      refuses to start. */
  ghost function Recovered(disk: State, log: seq<Record>, checkpoint: nat): Option<State> {
    if Numbered(log) && Ascending(log) && Sound(Suffix(log, checkpoint)) then
      Some(Fold(disk, Effects(Suffix(log, checkpoint))))
    else None
  }

  lemma {:induction false} ProjectConcat(a: seq<Record>, b: seq<Record>, tx: nat)
    ensures Project(a + b, tx) == Project(a, tx) + Project(b, tx)
  {
    if b == [] {
      assert a + b == a;
    } else {
      assert (a + b)[..|a + b| - 1] == a + b[..|b| - 1];
      ProjectConcat(a, b[..|b| - 1], tx);
    }
  }

  lemma {:induction false} ProjectNone(a: seq<Record>, tx: nat)
    requires forall i :: 0 <= i < |a| ==> a[i].tx != tx
    ensures Project(a, tx) == []
  {
    if a != [] { ProjectNone(a[..|a| - 1], tx); }
  }

  lemma {:induction false} ProjectAll(a: seq<Record>, tx: nat)
    requires forall i :: 0 <= i < |a| ==> a[i].tx == tx
    ensures Project(a, tx) == a
  {
    if a != [] { ProjectAll(a[..|a| - 1], tx); }
  }

  /** Where a record of a transaction sits in the transaction's projection. */
  lemma ProjectIndex(log: seq<Record>, i: nat)
    requires i < |log|
    ensures var tx := log[i].tx;
            |Project(log[..i], tx)| < |Project(log, tx)| &&
            Project(log, tx)[|Project(log[..i], tx)|] == log[i]
  {
    var tx := log[i].tx;
    assert log == log[..i] + log[i..];
    ProjectConcat(log[..i], log[i..], tx);
    assert log[i..] == [log[i]] + log[i + 1..];
    ProjectConcat([log[i]], log[i + 1..], tx);
    assert Project([log[i]], tx) == [log[i]];
  }

  lemma MiddleMutates(f: seq<Record>, i: nat)
    requires |f| > 1 && AllMutations(f[1..|f| - 1])
    ensures 0 < i < |f| - 1 ==> f[i].op.Mutate?
  {
    assert 0 < i < |f| - 1 ==> f[1..|f| - 1][i - 1] == f[i];
  }

  /** A committed frame has one COMMIT, its last record; a discarded one has none. */
  lemma CommitIsLast(f: seq<Record>, i: nat)
    requires i < |f| && f[i].op.Commit? && Judge(f) != Malformed
    ensures i == |f| - 1 && Judge(f) == Committed(f[i].position)
  {
    if f[0].op.Begin? && AllMutations(f[1..|f| - 1]) { MiddleMutates(f, i); }
  }

  lemma CommitOnce(log: seq<Record>, i: nat)
    requires i < |log| && log[i].tx != 0 && log[i].op.Commit? && Sound(log)
    ensures Judge(Project(log, log[i].tx)) == Committed(log[i].position)
    ensures forall j :: 0 <= j < i && log[j].tx == log[i].tx ==> !log[j].op.Commit?
  {
    var tx := log[i].tx;
    var f := Project(log, tx);
    ProjectIndex(log, i);
    CommitIsLast(f, |Project(log[..i], tx)|);
    forall j | 0 <= j < i && log[j].tx == tx ensures !log[j].op.Commit? {
      var a, b := Project(log[..j], tx), Project(log[..i], tx);
      ProjectIndex(log, j);
      ProjectIndex(log[..i], j);
      assert log[..i][..j] == log[..j];
      if log[j].op.Commit? { CommitIsLast(f, |a|); }
    }
  }

  /** Cutting a frame short never makes it impossible. */
  lemma JudgeFront(f: seq<Record>, n: nat)
    requires n <= |f| && Judge(f) != Malformed
    ensures Judge(f[..n]) != Malformed
    ensures n < |f| ==> Judge(f[..n]) == Discarded
  {
    var g := f[..n];
    if g != [] && !f[0].op.Begin? {
      assert NoCommit(g);
    } else if n > 1 && n < |f| {
      forall i | 0 <= i < n - 1 ensures f[1..n][i].op.Mutate? {
        assert f[1..|f| - 1][i] == f[1..n][i];
      }
      assert g[|g| - 1] == f[1..n][n - 2];
      assert g[1..|g| - 1] == f[1..n][..n - 2];
    } else {
      assert n == |f| ==> g == f;
    }
  }

  lemma SoundFront(log: seq<Record>, n: nat)
    requires n <= |log| && Sound(log)
    ensures Sound(log[..n])
  {
    forall tx: nat | tx != 0 ensures Judge(Project(log[..n], tx)) != Malformed {
      assert log == log[..n] + log[n..];
      ProjectConcat(log[..n], log[n..], tx);
      var f := Project(log, tx);
      assert Project(log[..n], tx) == f[..|Project(log[..n], tx)|];
      JudgeFront(f, |Project(log[..n], tx)|);
    }
  }

  lemma ClearAt(log: seq<Record>, n: nat, i: nat, j: nat)
    requires Clear(log, n) && i < n <= j < |log| && log[j].tx != 0
    ensures log[i].tx != log[j].tx
  {
  }

  /** Past a cut no frame straddles, every frame is whole or absent. */
  lemma ProjectPast(log: seq<Record>, n: nat, tx: nat)
    requires n <= |log| && Clear(log, n) && tx != 0
    ensures Project(log[n..], tx) == [] || Project(log[n..], tx) == Project(log, tx)
  {
    assert log == log[..n] + log[n..];
    ProjectConcat(log[..n], log[n..], tx);
    if exists j :: n <= j < |log| && log[j].tx == tx {
      var j :| n <= j < |log| && log[j].tx == tx;
      forall i | 0 <= i < n ensures log[..n][i].tx != tx { ClearAt(log, n, i, j); }
      ProjectNone(log[..n], tx);
    } else {
      ProjectNone(log[n..], tx);
    }
  }

  lemma SoundPast(log: seq<Record>, n: nat)
    requires n <= |log| && Clear(log, n) && Sound(log)
    ensures Sound(log[n..])
  {
    forall tx: nat | tx != 0 ensures Judge(Project(log[n..], tx)) != Malformed {
      ProjectPast(log, n, tx);
    }
  }
}
