/** A whole transaction through the commit protocol, and where the protocol falls short. */
module CommitTheorems {
  import opened Bytes
  import opened Entries
  import opened Wal
  import opened Frames
  import opened CommitLog
  import opened LastWriter
  import opened CommitProtocol
  import Recovery

  /** Run a batch through a frame: open, stage everything, commit, apply everything, settle.
      `luck` is how many of its writes succeed before one fails. Whatever fails, the batch is
      committed as a whole or not at all; only a failure after COMMIT leaves a fence behind. */
  method Transact(e: Engine, ops: seq<Mutation>, luck: nat, abortWritten: bool, debris: Option<Bytes>)
    returns (r: Option<nat>)
    requires e.Valid() && e.frame.None?
    modifies e
    ensures e.Valid() && e.frame.None? && (old(e.WriteAhead()) ==> e.WriteAhead())
    ensures r.Some? <==> ops == [] || luck > 2 * |ops| + 1
    ensures e.Committed() == old(e.Committed()) ||
            exists at: nat :: e.Committed() == old(e.Committed()) + Stamp(at, ops)
    ensures r.Some? && ops != [] ==> e.Committed() == old(e.Committed()) + Stamp(r.value, ops)
    ensures r.Some? || luck <= |ops| + 1 ==> e.fences <= old(e.fences)
    ensures e.synced == old(e.synced) && e.checkpoint == old(e.checkpoint)
    ensures e.disk == old(e.disk) && e.lost == old(e.lost)
    ensures e.past == old(e.past)
  {
    hide Engine.Valid, Engine.WriteAhead, Engine.Committed, Stamp, Staged, Fold;
    if ops == [] { return Some(0); }
    var ok := e.Open(luck > 0);
    if !ok { return None; }
    FreshFrame(e);
    ok := StageAll(e, ops, luck, abortWritten);
    if !ok { return None; }
    var at := e.Commit(luck > |ops| + 1);
    if at.None? {
      e.Drop(abortWritten);
      return None;
    }
    ok := ApplyAll(e, ops, luck, debris);
    if !ok { return None; }
    r := e.Settle(abortWritten);
  }

  /** Stage a batch under the open frame; if a record cannot be written the frame is disposed of. */
  method StageAll(e: Engine, ops: seq<Mutation>, luck: nat, abortWritten: bool) returns (ok: bool)
    requires e.Valid() && e.frame.Some? && e.frame.value.commit.None? && Staged(e.log, e.frame.value.tx) == []
    requires luck > 0
    modifies e
    ensures e.Valid() && (old(e.WriteAhead()) ==> e.WriteAhead()) && e.Committed() == old(e.Committed())
    ensures ok <==> luck > |ops|
    ensures ok ==> e.frame == old(e.frame) && Staged(e.log, e.frame.value.tx) == ops && e.fences == old(e.fences)
    ensures !ok ==> e.frame.None? && e.fences == old(e.fences) - {old(e.frame.value.begin)}
    ensures e.synced == old(e.synced) && e.checkpoint == old(e.checkpoint) && e.disk == old(e.disk)
    ensures e.lost == old(e.lost) && e.past == old(e.past)
  {
    hide Engine.Valid, Engine.WriteAhead, Engine.Committed, Staged, Fold;
    var i := 0;
    while i < |ops|
      invariant 0 <= i <= |ops| && e.Valid() && (old(e.WriteAhead()) ==> e.WriteAhead())
      invariant e.frame == old(e.frame) && Staged(e.log, e.frame.value.tx) == ops[..i]
      invariant e.Committed() == old(e.Committed()) && e.fences == old(e.fences) && i < luck
      invariant e.synced == old(e.synced) && e.checkpoint == old(e.checkpoint) && e.disk == old(e.disk)
      invariant e.lost == old(e.lost) && e.past == old(e.past)
    {
      ghost var before := e.log;
      var staged := e.Stage(Mutate(ops[i]), luck > i + 1);
      if staged.None? {
        e.Drop(abortWritten);
        return false;
      }
      Recovery.StagedStep(before, Record(staged.value, e.frame.value.tx, Mutate(ops[i])), e.frame.value.tx);
      assert ops[..i + 1] == ops[..i] + [ops[i]];
      i := i + 1;
    }
    assert ops[..i] == ops;
    return true;
  }

  /** Apply a committed frame's mutations one by one; a failure leaves its fence standing. */
  method ApplyAll(e: Engine, ops: seq<Mutation>, luck: nat, debris: Option<Bytes>) returns (ok: bool)
    requires e.Valid() && e.frame.Some? && e.frame.value.commit.Some? && e.done == 0
    requires Staged(e.log, e.frame.value.tx) == ops && luck > |ops| + 1
    modifies e
    ensures e.Valid() && (old(e.WriteAhead()) ==> e.WriteAhead()) && e.Committed() == old(e.Committed())
    ensures ok <==> luck > 2 * |ops| + 1
    ensures ok ==> e.frame == old(e.frame) && e.done == |ops| && e.log == old(e.log)
    ensures !ok ==> e.frame.None?
    ensures e.fences == old(e.fences)
    ensures e.synced == old(e.synced) && e.checkpoint == old(e.checkpoint) && e.disk == old(e.disk)
    ensures e.lost == old(e.lost) && e.past == old(e.past)
  {
    hide Engine.Valid, Engine.WriteAhead, Engine.Committed, Staged, Fold, Took;
    var i := 0;
    while i < |ops|
      invariant 0 <= i <= |ops| && e.Valid() && (old(e.WriteAhead()) ==> e.WriteAhead())
      invariant e.frame == old(e.frame) && e.log == old(e.log) && e.done == i
      invariant e.Committed() == old(e.Committed()) && e.fences == old(e.fences) && luck > |ops| + 1 + i
      invariant e.synced == old(e.synced) && e.checkpoint == old(e.checkpoint) && e.disk == old(e.disk)
      invariant e.lost == old(e.lost) && e.past == old(e.past)
    {
      var applied := e.ApplyNext(ops[i], luck > |ops| + 2 + i, debris);
      if !applied { return false; }
      i := i + 1;
    }
    return true;
  }

  lemma FreshFrame(e: Engine)
    requires e.Valid() && e.frame.Some? && |e.log| > 0
    requires e.log[|e.log| - 1] == Record(e.frame.value.begin, e.frame.value.tx, Begin)
    ensures Staged(e.log, e.frame.value.tx) == []
  {
    var tx := e.frame.value.tx;
    assert e.start == |e.log| - 1;
    StagedNone(e.log[..|e.log| - 1], tx);
  }

  // ---- all or nothing ----

  /** The effects a record at position `at` makes visible. */
  function Only(es: seq<Effect>, at: nat): seq<Effect> {
    if es == [] then [] else
      Only(es[..|es| - 1], at) + if es[|es| - 1].at == at then [es[|es| - 1]] else []
  }

  lemma {:induction false} OnlyConcat(a: seq<Effect>, b: seq<Effect>, at: nat)
    ensures Only(a + b, at) == Only(a, at) + Only(b, at)
  {
    if b == [] {
      assert a + b == a;
    } else {
      assert (a + b)[..|a + b| - 1] == a + b[..|b| - 1];
      OnlyConcat(a, b[..|b| - 1], at);
    }
  }

  lemma {:induction false} OnlyNone(es: seq<Effect>, at: nat)
    requires forall i :: 0 <= i < |es| ==> es[i].at != at
    ensures Only(es, at) == []
  {
    if es != [] { OnlyNone(es[..|es| - 1], at); }
  }

  lemma {:induction false} OnlyAll(es: seq<Effect>, at: nat)
    requires forall i :: 0 <= i < |es| ==> es[i].at == at
    ensures Only(es, at) == es
  {
    if es != [] { OnlyAll(es[..|es| - 1], at); }
  }

  lemma EffectsApart(log: seq<Record>, at: nat)
    requires forall i :: 0 <= i < |log| ==> log[i].position != at
    ensures Only(Effects(log), at) == []
  {
    forall i | 0 <= i < |Effects(log)| ensures Effects(log)[i].at != at {
      var j := EffectsPosition(log, i);
    }
    OnlyNone(Effects(log), at);
  }

  /** In an ascending log, a record's position names exactly what that record made visible. */
  lemma {:induction false} OnlyGain(log: seq<Record>, i: nat)
    requires Ascending(log) && i < |log|
    ensures Only(Effects(log), log[i].position) == Gain(log[..i], log[i])
  {
    hide Effects, Gain, Only;
    var front, last, at := log[..|log| - 1], log[|log| - 1], log[i].position;
    assert log == front + [last];
    EffectsStay(front, last);
    GainAt(front, last);
    OnlyConcat(Effects(front), Gain(front, last), at);
    if i == |log| - 1 {
      EffectsApart(front, at);
      OnlyAll(Gain(front, last), at);
      assert [] + Gain(front, last) == Gain(front, last);
    } else {
      OnlyGain(front, i);
      assert front[..i] == log[..i];
      OnlyNone(Gain(front, last), at);
      assert Gain(log[..i], log[i]) + [] == Gain(log[..i], log[i]);
    }
  }

  lemma GainAt(front: seq<Record>, r: Record)
    ensures forall i :: 0 <= i < |Gain(front, r)| ==> Gain(front, r)[i].at == r.position
  {
  }

  /** A crash takes a committed frame as a whole: if its COMMIT survives, every mutation it
      staged is among the surviving effects and in order; if not, none is. */
  lemma WholeFrames(e: Engine, cut: nat, i: nat)
    requires e.Valid() && cut <= |e.log| && i < |e.log|
    requires e.log[i].tx != 0 && e.log[i].op.Commit? && e.log[i].position > e.checkpoint
    ensures Only(Effects(Suffix(e.log[..cut], e.checkpoint)), e.log[i].position) ==
            if i < cut then Stamp(e.log[i].position, Staged(e.log[..i], e.log[i].tx)) else []
  {
    hide LogOK, EdgesOK, Effects, Suffix, Steady, Grounded, Noted, FrameOK, InMemory, Stamp, Staged, Only;
    LogFacts(e.log, e.nextPosition, e.nextTx);
    CheckpointEdge(e.log, e.checkpoint, e.applied, e.fences, e.nextPosition);
    WholeAt(e.log, e.checkpoint, cut, i);
  }

  lemma WholeAt(log: seq<Record>, checkpoint: nat, cut: nat, i: nat)
    requires Ascending(log) && Edge(log, checkpoint) && cut <= |log| && i < |log|
    requires log[i].tx != 0 && log[i].op.Commit? && log[i].position > checkpoint
    ensures Only(Effects(Suffix(log[..cut], checkpoint)), log[i].position) ==
            if i < cut then Stamp(log[i].position, Staged(log[..i], log[i].tx)) else []
  {
    hide Effects, Suffix, Edge, Stamp, Staged, Only;
    var rest, r := log[..cut], log[i];
    SuffixSlice(rest, checkpoint);
    EdgeCut(log, cut, checkpoint);
    var n := Low(rest, checkpoint);
    if i < cut {
      LowBefore(rest, checkpoint, i);
      assert rest[..i] == log[..i];
      WholeGain(rest, checkpoint, i);
    } else {
      EffectsApart(rest[n..], r.position);
    }
  }

  lemma WholeGain(log: seq<Record>, checkpoint: nat, i: nat)
    requires Ascending(log) && Edge(log, checkpoint) && Low(log, checkpoint) <= i < |log| && log[i].tx != 0
    ensures Only(Effects(log[Low(log, checkpoint)..]), log[i].position) == Gain(log[..i], log[i])
  {
    hide Effects, Only, Gain;
    var n := Low(log, checkpoint);
    var tail := log[n..];
    assert tail[i - n] == log[i];
    OnlyGain(tail, i - n);
    OutsideFrame(log, n, i);
    GainSkips(log[..n], tail[..i - n], log[i]);
    assert log[..i] == log[..n] + tail[..i - n];
  }

  lemma OutsideFrame(log: seq<Record>, n: nat, i: nat)
    requires Clear(log, n) && n <= i < |log| && log[i].tx != 0
    ensures forall j :: 0 <= j < n ==> log[..n][j].tx != log[i].tx
  {
    forall j | 0 <= j < n ensures log[..n][j].tx != log[i].tx { ClearAt(log, n, j, i); }
  }

  /** Key by key: recovery gives a key its committed value exactly when some surviving effect
      past the checkpoint writes it, or storage holds its value at the checkpoint. */
  lemma KeyRecovers(e: Engine, cut: nat, key: Bytes)
    requires e.Valid() && cut <= |e.log|
    ensures var r, es := Recovered(e.disk, e.log[..cut], e.checkpoint), Effects(Suffix(e.log[..cut], e.checkpoint));
            r.Some? &&
            (Lookup(r.value, key) == Lookup(Fold(map[], e.Survivors(cut)), key) <==>
             Touches(es, key) || Lookup(e.disk, key) == Lookup(e.Base(), key))
  {
    hide LogOK, EdgesOK, Steady, Grounded, Noted, Fold, Effects, Suffix, Touches, Lookup, Recovered, FrameOK, Staged,
         InMemory;
    var es := Effects(Suffix(e.log[..cut], e.checkpoint));
    var _ := Restarts(e.disk, e.Base(), e.log, e.checkpoint, e.applied, e.fences, e.nextPosition, e.nextTx, cut,
        e.lost);
    FoldConcat(map[], e.past, es);
    FoldAt(e.disk, e.Base(), es, key);
    FoldAt(e.Base(), e.disk, es, key);
  }

  /** The checkpoint is below every fence, so below every frame that is open or committed and
      unsettled, and it never has one transaction's records on both sides of it. */
  lemma CheckpointOutside(e: Engine, i: nat, j: nat)
    requires e.Valid() && i < j < |e.log| && e.log[i].tx == e.log[j].tx != 0
    ensures e.checkpoint < e.log[i].position || e.log[j].position <= e.checkpoint
    ensures forall f :: f in e.fences ==> e.checkpoint < f
    ensures e.frame.Some? ==> e.checkpoint < e.frame.value.begin
  {
    hide Sound, Serial, Steady, Grounded, Noted, FrameOK, InMemory, Effects, Suffix, Fold;
    LowAbove(e.log, e.checkpoint);
    ClearApart(e.log, Low(e.log, e.checkpoint), i, j);
  }

  lemma ClearApart(log: seq<Record>, n: nat, i: nat, j: nat)
    requires Clear(log, n) && i < j < |log| && log[i].tx == log[j].tx != 0
    ensures j < n || n <= i
  {
  }

  // ---- two runs that lose exactness ----

  /** A checkpoint may write storage before the log is synced. Here one file of it reaches the
      disk and a crash takes the whole log: half of a transaction comes back, though nothing
      committed survives. */
  method FlushedTooEarly(a: Bytes, b: Bytes) returns (e: Engine)
    requires a != b
    ensures e.Valid() && e.lost == {} && e.synced == 0 && !e.WriteAhead()
    ensures exists at: nat :: e.Committed() == Stamp(at, [Store(a, a), Store(b, b)])
    ensures e.Survivors(0) == [] && Recovered(e.disk, [], e.checkpoint) == Some(map[a := a])
  {
    hide Engine.Valid, Engine.WriteAhead, Engine.Committed, Fold, Effects, Suffix, Stamp, Touches, Lookup, Persisted,
         Recovered;
    e := new Engine();
    var batch := [Store(a, a), Store(b, b)];
    var at := Transact(e, batch, 6, false, None);
    Quiet(e);
    assert [] + Stamp(at.value, batch) == Stamp(at.value, batch);
    FoldTwo(at.value, Store(a, a), Store(b, b));
    e.Flush({a});
    PersistedOne(map[a := a, b := b], a);
    NothingSurvives(e, a);
  }

  /** With no fence up and nothing lost, memory is the state of everything committed. */
  lemma Quiet(e: Engine)
    requires e.Valid() && e.fences == {} && e.lost == {}
    ensures e.memory == Fold(map[], e.Committed())
  {
    hide LogOK, EdgesOK, Grounded, Noted, Fold, Effects, Suffix, Lookup;
    FoldConcat(map[], e.past, Effects(e.Tail()));
    SameLookups(e.memory, e.Truth());
  }

  /** With no fence up, every key but the lost ones holds in memory what the last committed mutation
      of it left there, and nothing if there is none. */
  lemma MemoryFollows(e: Engine)
    requires e.Valid() && e.fences == {}
    ensures forall i: nat :: LastOn(e.Committed(), i) && e.Committed()[i].m.key !in e.lost ==>
                               Left(e.Committed()[i].m, e.memory)
    ensures forall key: Bytes :: key !in e.lost && NoneOn(e.Committed(), key) ==> key !in e.memory
  {
    hide LogOK, EdgesOK, Grounded, Noted, Fold, Effects, Suffix, Left;
    var es := e.Committed();
    FoldConcat(map[], e.past, Effects(e.Tail()));
    FoldFollows(map[], es);
    forall i: nat | LastOn(es, i) && es[i].m.key !in e.lost ensures Left(es[i].m, e.memory) {
      LeftBy(Fold(map[], es), e.memory, es[i].m);
    }
    forall key: Bytes | key !in e.lost && NoneOn(es, key) ensures key !in e.memory {
      assert SameAt(map[], Fold(map[], es), key);
      assert Lookup(e.memory, key) == Lookup(e.Truth(), key);
    }
  }

  lemma FoldTwo(at: nat, m: Mutation, n: Mutation)
    ensures Fold(map[], Stamp(at, [m, n])) == Apply(Apply(map[], m), n)
  {
    assert [m, n][..1] == [m] && [m][..0] == [];
    var e, f := Effect(at, m), Effect(at, n);
    assert Stamp(at, [m]) == [e] && Stamp(at, [m, n]) == [e] + [f];
    Recovery.FoldStep(map[], [e], f);
    Recovery.FoldStep(map[], [], e);
  }

  lemma PersistedOne(memory: State, key: Bytes)
    requires key in memory
    ensures Persisted(map[], memory, {key}) == map[key := memory[key]]
  {
  }

  lemma NothingSurvives(e: Engine, key: Bytes)
    requires e.disk == map[key := key] && e.past == [] && e.lost == {} && e.synced == 0 && e.checkpoint == 0
    ensures e.Survivors(0) == [] && Recovered(e.disk, [], e.checkpoint) == Some(e.disk) && !e.WriteAhead()
  {
    assert e.log[..0] == [];
    assert Lookup(e.disk, key) != Lookup(e.Base(), key);
  }

  /** A standalone mutation whose apply fails has no fence in front of it. Here the checkpoint
      passes it, and recovery from the whole, synced log never brings it back. */
  method LostWrite(a: Bytes, b: Bytes) returns (e: Engine)
    requires a != b
    ensures e.Valid() && e.WriteAhead() && e.synced == |e.log| && e.lost == {a}
    ensures e.Committed() == [Effect(1, Store(a, a)), Effect(2, Store(b, b))]
    ensures Recovered(e.disk, e.log, e.checkpoint) == Some(map[b := b])
  {
    hide Engine.Valid, Engine.WriteAhead, Fold, Effects, Suffix, Touches, Lookup, Persisted, Recovered;
    e := OneFailed(a, b);
    e.Sync();
    e.Flush({a, b});
    PersistedTwo(e.memory, a, b);
    e.Advance();
    NothingLeft(e);
  }

  /** Two standalone mutations, the first of which is logged but not applied. */
  method OneFailed(a: Bytes, b: Bytes) returns (e: Engine)
    requires a != b
    ensures fresh(e) && e.Valid() && e.frame.None? && e.fences == {} && e.applied == 2 && e.lost == {a}
    ensures e.memory == map[b := b] && e.disk == map[]
    ensures e.Committed() == [Effect(1, Store(a, a)), Effect(2, Store(b, b))]
    ensures e.log == [Record(1, 0, Mutate(Store(a, a))), Record(2, 0, Mutate(Store(b, b)))]
  {
    hide Engine.Valid, Engine.WriteAhead, Engine.Committed, Took;
    e := new Engine();
    var _ := e.Write(Store(a, a), true, false, None);
    var _ := e.Write(Store(b, b), true, true, None);
  }

  lemma PersistedTwo(memory: State, a: Bytes, b: Bytes)
    requires memory.Keys <= {a, b}
    ensures Persisted(map[], memory, {a, b}) == memory
  {
  }

  lemma NothingLeft(e: Engine)
    requires e.Valid() && forall i :: 0 <= i < |e.log| ==> e.log[i].position <= e.checkpoint
    ensures Recovered(e.disk, e.log, e.checkpoint) == Some(e.disk)
  {
    SuffixNone(e.log, e.checkpoint);
    assert forall tx: nat :: Project([], tx) == [];
  }
}
