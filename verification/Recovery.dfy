/** Start-up recovery: classify every transaction of the log, then replay in order. */
module Recovery {
  import opened Bytes
  import opened Entries
  import opened Wal
  import opened Frames
  import opened LastWriter

  /** Walk one transaction's records and decide what becomes of it. */
  method ClassifyTransaction(f: seq<Record>) returns (verdict: Verdict)
    ensures verdict == Judge(f)
  {
    if |f| == 0 { return Discarded; }
    if !f[0].op.Begin? {
      for i := 0 to |f|
        invariant NoCommit(f[..i])
      {
        if f[i].op.Commit? { return Malformed; }
      }
      assert f[..|f|] == f;
      return Discarded;
    }
    var committed: Option<nat> := None;
    for index := 1 to |f|
      invariant AllMutations(f[1..index]) || (index == |f| && AllMutations(f[1..index - 1]))
      invariant committed == (if index > 1 && f[index - 1].op.Commit? then Some(f[index - 1].position) else None)
      invariant index == |f| > 1 ==> !f[index - 1].op.Begin? && AllMutations(f[1..index - 1])
    {
      match f[index].op
      case Begin =>
        Impossible(f, index);
        return Malformed;
      case Commit =>
        if index != |f| - 1 { Impossible(f, index); return Malformed; }
        committed := Some(f[index].position);
      case Abort =>
        if index != |f| - 1 { Impossible(f, index); return Malformed; }
      case Mutate(_) =>
        assert f[1..index + 1] == f[1..index] + [f[index]];
    }
    return if committed.Some? then Committed(committed.value) else Discarded;
  }

  lemma Impossible(f: seq<Record>, i: nat)
    requires 0 < i < |f| && f[0].op.Begin? && !f[i].op.Mutate?
    requires i < |f| - 1 || f[i].op.Begin?
    ensures Judge(f) == Malformed
  {
    if i < |f| - 1 { assert f[1..|f| - 1][i - 1] == f[i]; }
  }

  ghost predicate Classified(records: seq<Record>, committed: map<nat, nat>) {
    forall tx: nat ::
      && (tx in committed ==> tx != 0 && Judge(Project(records, tx)) == Committed(committed[tx]))
      && (tx != 0 && Judge(Project(records, tx)).Committed? ==> tx in committed)
  }

  ghost predicate Grouped(records: seq<Record>, frames: map<nat, seq<Record>>) {
    forall tx: nat :: tx != 0 ==>
      Project(records, tx) == if tx in frames then frames[tx] else []
  }

  method GroupFrames(records: seq<Record>) returns (r: Option<map<nat, seq<Record>>>)
    ensures r.None? <==> exists i :: 0 <= i < |records| && records[i].tx == 0 && !records[i].op.Mutate?
    ensures r.Some? ==> Grouped(records, r.value) && 0 !in r.value
  {
    var frames: map<nat, seq<Record>> := map[];
    for i := 0 to |records|
      invariant Grouped(records[..i], frames) && 0 !in frames
      invariant forall j :: 0 <= j < i && records[j].tx == 0 ==> records[j].op.Mutate?
    {
      var record := records[i];
      assert records[..i + 1][..i] == records[..i];
      if record.tx == 0 {
        if !record.op.Mutate? { return None; }
      } else {
        frames := frames[record.tx := (if record.tx in frames then frames[record.tx] else []) + [record]];
      }
    }
    assert records[..|records|] == records;
    return Some(frames);
  }

  /** The committed transactions and their COMMIT positions; refuses exactly the impossible
      logs. */
  method ClassifyTransactions(records: seq<Record>) returns (r: Option<map<nat, nat>>)
    ensures r.Some? <==> Sound(records)
    ensures r.Some? ==> Classified(records, r.value)
  {
    var frames := GroupFrames(records);
    if frames.None? { return None; }
    var todo := frames.value.Keys;
    var committed: map<nat, nat> := map[];
    while todo != {}
      invariant todo <= frames.value.Keys
      invariant forall tx :: tx in frames.value && tx !in todo ==> Judge(frames.value[tx]) != Malformed
      invariant forall tx: nat ::
                  (tx in committed ==> tx in frames.value && Judge(frames.value[tx]) == Committed(committed[tx])) &&
                  (tx in frames.value && tx !in todo && Judge(frames.value[tx]).Committed? ==> tx in committed)
      decreases |todo|
    {
      var tx :| tx in todo;
      var verdict := ClassifyTransaction(frames.value[tx]);
      if verdict.Malformed? {
        assert Judge(Project(records, tx)) == Malformed;
        return None;
      }
      if verdict.Committed? { committed := committed[tx := verdict.at]; }
      todo := todo - {tx};
    }
    return Some(committed);
  }

  ghost predicate Buffered(log: seq<Record>, committed: map<nat, nat>, buffers: map<nat, seq<Mutation>>) {
    forall tx: nat :: tx in committed && Unfinished(log, tx) ==>
      Staged(log, tx) == if tx in buffers then buffers[tx] else []
  }

  ghost predicate Unfinished(log: seq<Record>, tx: nat) {
    forall j :: 0 <= j < |log| && log[j].tx == tx ==> !log[j].op.Commit?
  }

  /** Replay in log order: a standalone mutation where it stands, a transaction's mutations
      together at its COMMIT. */
  method Replay(disk: State, records: seq<Record>, committed: map<nat, nat>) returns (state: State)
    requires Sound(records) && Classified(records, committed)
    ensures state == Fold(disk, Effects(records))
  {
    hide Fold, Staged, Gain, Project, Judge, Buffered, Stamp;
    var buffers: map<nat, seq<Mutation>> := map[];
    state := disk;
    NothingYet(disk, committed);
    for i := 0 to |records|
      invariant state == Fold(disk, Effects(records[..i]))
      invariant Buffered(records[..i], committed, buffers)
    {
      var record := records[i];
      ghost var front := records[..i];
      assert records[..i + 1] == front + [record];
      EffectsStep(disk, front, record);
      if record.tx == 0 {
        GainOf(front, record);
        FoldStep(Fold(disk, Effects(front)), [], Effect(record.position, record.op.m));
        state := Apply(state, record.op.m);
        OtherStep(front, record, committed, buffers);
      } else if record.tx in committed {
        GainOf(front, record);
        match record.op {
          case Commit =>
            CommitOnce(records, i);
            BufferIs(front, committed, buffers, record.tx);
            var mutations := if record.tx in buffers then buffers[record.tx] else [];
            state := ApplyAll(state, record.position, mutations);
            CommitStep(front, record, committed, buffers);
            buffers := buffers - {record.tx};
          case Mutate(m) =>
            MutateStep(front, record, committed, buffers);
            buffers := buffers[record.tx := (if record.tx in buffers then buffers[record.tx] else []) + [m]];
          case Begin => OtherStep(front, record, committed, buffers);
          case Abort => OtherStep(front, record, committed, buffers);
        }
      } else {
        Skipped(records, i, committed);
        GainOf(front, record);
        OtherStep(front, record, committed, buffers);
      }
    }
    assert records[..|records|] == records;
  }

  lemma NothingYet(disk: State, committed: map<nat, nat>)
    ensures Fold(disk, Effects([])) == disk && Buffered([], committed, map[])
  {
  }

  lemma Skipped(records: seq<Record>, i: nat, committed: map<nat, nat>)
    requires Sound(records) && Classified(records, committed)
    requires i < |records| && records[i].tx != 0 && records[i].tx !in committed
    ensures !records[i].op.Commit?
  {
    if records[i].op.Commit? { CommitOnce(records, i); }
  }

  lemma BufferIs(log: seq<Record>, committed: map<nat, nat>, buffers: map<nat, seq<Mutation>>, tx: nat)
    requires Buffered(log, committed, buffers) && tx in committed && Unfinished(log, tx)
    ensures Staged(log, tx) == if tx in buffers then buffers[tx] else []
  {
  }

  lemma FoldStep(s: State, es: seq<Effect>, e: Effect)
    ensures Fold(s, es + [e]) == Apply(Fold(s, es), e.m)
    ensures Fold(s, []) == s
    ensures [] + [e] == [e]
  {
    assert (es + [e])[..|es|] == es;
  }

  lemma EffectsStep(s: State, log: seq<Record>, r: Record)
    ensures Fold(s, Effects(log + [r])) == Fold(Fold(s, Effects(log)), Gain(log, r))
  {
    assert (log + [r])[..|log|] == log;
    FoldConcat(s, Effects(log), Gain(log, r));
  }

  lemma GainOf(log: seq<Record>, r: Record)
    ensures r.tx == 0 && r.op.Mutate? ==> Gain(log, r) == [Effect(r.position, r.op.m)]
    ensures r.tx != 0 && r.op.Commit? ==> Gain(log, r) == Stamp(r.position, Staged(log, r.tx))
    ensures r.tx != 0 && !r.op.Commit? ==> forall s :: Fold(s, Gain(log, r)) == s
  {
  }

  method ApplyAll(s: State, ghost at: nat, mutations: seq<Mutation>) returns (state: State)
    ensures state == Fold(s, Stamp(at, mutations))
  {
    hide Fold, Stamp;
    state := s;
    StampStep(at, [], Erase([]));
    FoldStep(s, [], Effect(at, Erase([])));
    for i := 0 to |mutations|
      invariant state == Fold(s, Stamp(at, mutations[..i]))
    {
      state := Apply(state, mutations[i]);
      assert mutations[..i + 1] == mutations[..i] + [mutations[i]];
      StampStep(at, mutations[..i], mutations[i]);
      FoldStep(s, Stamp(at, mutations[..i]), Effect(at, mutations[i]));
    }
    assert mutations[..|mutations|] == mutations;
  }

  lemma StampStep(at: nat, ms: seq<Mutation>, m: Mutation)
    ensures Stamp(at, ms + [m]) == Stamp(at, ms) + [Effect(at, m)]
    ensures Stamp(at, []) == []
  {
    assert (ms + [m])[..|ms|] == ms;
  }

  lemma UnfinishedFront(log: seq<Record>, r: Record, tx: nat)
    requires Unfinished(log + [r], tx)
    ensures Unfinished(log, tx)
    ensures r.tx == tx ==> !r.op.Commit?
  {
    forall j | 0 <= j < |log| && log[j].tx == tx ensures !log[j].op.Commit? { assert (log + [r])[j] == log[j]; }
    assert (log + [r])[|log|] == r;
  }

  lemma StagedStep(log: seq<Record>, r: Record, tx: nat)
    ensures Staged(log + [r], tx) ==
            if r.tx == tx && r.op.Mutate? then Staged(log, tx) + [r.op.m] else Staged(log, tx)
  {
    assert (log + [r])[..|log|] == log;
  }

  lemma OtherStep(log: seq<Record>, r: Record, committed: map<nat, nat>, buffers: map<nat, seq<Mutation>>)
    requires Buffered(log, committed, buffers)
    requires r.tx in committed ==> !r.op.Mutate?
    ensures Buffered(log + [r], committed, buffers)
  {
    hide Unfinished, Staged;
    forall tx: nat | tx in committed && Unfinished(log + [r], tx)
      ensures Staged(log + [r], tx) == if tx in buffers then buffers[tx] else []
    {
      UnfinishedFront(log, r, tx);
      StagedStep(log, r, tx);
    }
  }

  lemma MutateStep(log: seq<Record>, r: Record, committed: map<nat, nat>, buffers: map<nat, seq<Mutation>>)
    requires Buffered(log, committed, buffers) && r.op.Mutate?
    ensures Buffered(log + [r], committed,
                     buffers[r.tx := (if r.tx in buffers then buffers[r.tx] else []) + [r.op.m]])
  {
    hide Unfinished, Staged;
    var after := buffers[r.tx := (if r.tx in buffers then buffers[r.tx] else []) + [r.op.m]];
    forall tx: nat | tx in committed && Unfinished(log + [r], tx)
      ensures Staged(log + [r], tx) == if tx in after then after[tx] else []
    {
      UnfinishedFront(log, r, tx);
      StagedStep(log, r, tx);
    }
  }

  lemma CommitStep(log: seq<Record>, r: Record, committed: map<nat, nat>, buffers: map<nat, seq<Mutation>>)
    requires Buffered(log, committed, buffers) && r.op.Commit?
    ensures Buffered(log + [r], committed, buffers - {r.tx})
  {
    hide Unfinished, Staged;
    forall tx: nat | tx in committed && Unfinished(log + [r], tx)
      ensures Staged(log + [r], tx) == if tx in buffers - {r.tx} then (buffers - {r.tx})[tx] else []
    {
      UnfinishedFront(log, r, tx);
      StagedStep(log, r, tx);
    }
  }

  /** Positions must be positive and strictly increasing. */
  method ValidateSequence(log: seq<Record>) returns (ok: bool)
    ensures ok <==> Numbered(log) && Ascending(log)
  {
    for i := 0 to |log|
      invariant Numbered(log[..i]) && Ascending(log[..i])
    {
      assert log[..i + 1][i] == log[i];
      if log[i].position == 0 { return false; }
      if i > 0 {
        assert log[..i][i - 1] == log[i - 1];
        if log[i].position <= log[i - 1].position { return false; }
      }
    }
    assert log[..|log|] == log;
    return true;
  }

  /** Recovery: refuse an impossible log, otherwise replay everything past the checkpoint. */
  method Recover(disk: State, log: seq<Record>, checkpoint: nat) returns (r: Option<State>)
    ensures r == Recovered(disk, log, checkpoint)
    ensures r.Some? ==> forall key: Bytes :: Replayed(log, checkpoint, disk, key, r.value)
  {
    hide Replayed, Fold, Effects, Suffix, Sound;
    var ok := ValidateSequence(log);
    if !ok { return None; }
    var records := Suffix(log, checkpoint);
    var committed := ClassifyTransactions(records);
    if committed.None? { return None; }
    var state := Replay(disk, records, committed.value);
    forall key: Bytes ensures Replayed(log, checkpoint, disk, key, state) { ReplayLeaves(disk, log, checkpoint, key); }
    return Some(state);
  }
}
