/** Commit frames, standalone writes, the checkpoint fence, flushes, rotation and crashes. */
module CommitProtocol {
  import opened Bytes
  import opened Entries
  import opened Wal
  import opened Frames
  import opened CommitLog
  import opened LastWriter
  import Recovery

  class Engine {
    var log: seq<Record>              // the log file, durable up to `synced`
    var synced: nat
    var checkpoint: nat               // durable
    var disk: State                   // durable storage
    var memory: State
    var fences: set<nat>
    var nextPosition: nat
    var nextTx: nat
    var applied: nat                  // highest position noted as applied
    var frame: Option<StagedCommit>   // the writer lock admits one at a time
    ghost var start: nat              // index of the open frame's BEGIN
    ghost var done: nat               // how many of its mutations are applied
    ghost var past: seq<Effect>       // every effect at or below the checkpoint
    ghost var lost: set<Bytes>        // keys whose standalone apply failed

    ghost function Tail(): seq<Record>
      reads this`log, this`checkpoint
    {
      Suffix(log, checkpoint)
    }

    /** Everything ever committed, in order. */
    ghost function Committed(): seq<Effect>
      reads this`log, this`checkpoint, this`past
    {
      past + Effects(Tail())
    }

    ghost function Base(): State
      reads this`past
    {
      Fold(map[], past)
    }

    /** The state of everything committed. */
    ghost function Truth(): State
      reads this`log, this`checkpoint, this`past
    {
      Fold(Base(), Effects(Tail()))
    }

    ghost predicate Edges()
      reads this`log, this`checkpoint, this`applied, this`fences, this`nextPosition
    {
      EdgesOK(log, checkpoint, applied, fences, nextPosition)
    }

    ghost predicate Framed()
      reads this`log, this`frame, this`start, this`fences, this`applied, this`nextTx
    {
      frame.Some? ==>
        && FrameOK(log, frame.value, start)
        && frame.value.tx < nextTx
        && frame.value.begin in fences && applied < frame.value.begin
        && forall f :: f in fences ==> f <= frame.value.begin
    }

    /** The applied part of a committed frame is in memory. */
    ghost predicate Progress()
      reads this`log, this`frame, this`done, this`memory
    {
      frame.Some? ==>
        var staged := Staged(log, frame.value.tx);
        if frame.value.commit.None? then done == 0
        else done <= |staged| && InMemory(memory, staged[..done])
    }

    ghost predicate Valid()
      reads this
    {
      && LogOK(log, nextPosition, nextTx) && synced <= |log|
      && Edges() && Framed() && Progress()
      && Steady(memory, Truth(), Effects(Tail()), fences, lost)
      && Grounded(disk, Base(), Effects(Tail()), lost)
      && Noted(Effects(Tail()), applied, fences, lost)
    }

    /** Storage has run ahead of no record a crash could still take away. */
    ghost predicate WriteAhead()
      reads this
    {
      synced <= |log| && Grounded(disk, Base(), Effects(Suffix(log[..synced], checkpoint)), lost)
    }

    /** The effects that outlive a crash leaving `cut` records of the log: those at or below the
        checkpoint, and those whose COMMIT or standalone record survives. */
    ghost function Survivors(cut: nat): seq<Effect>
      requires cut <= |log|
      reads this`log, this`checkpoint, this`past
    {
      past + Effects(Suffix(log[..cut], checkpoint))
    }

    /** After such a crash recovery starts, and rebuilds exactly the surviving effects. */
    ghost predicate RecoversAt(cut: nat)
      requires cut <= |log|
      reads this
    {
      var r := Recovered(disk, log[..cut], checkpoint);
      r.Some? && forall k: Bytes :: k !in lost ==> Lookup(r.value, k) == Lookup(Fold(map[], Survivors(cut)), k)
    }

    /** A fresh database. */
    constructor ()
      ensures Valid() && WriteAhead() && frame.None?
      ensures Committed() == [] && lost == {} && log == [] && past == [] && disk == map[] && memory == map[]
      ensures fences == {} && checkpoint == 0 && applied == 0 && synced == 0 && nextPosition == 1
    {
      log, synced, checkpoint, disk, memory, fences := [], 0, 0, map[], map[], {};
      nextPosition, nextTx, applied, frame := 1, 1, 0, None;
      start, done, past, lost := 0, 0, [], {};
    }

    /** Open a frame: take a transaction id, append BEGIN and raise the fence at it. */
    method Open(written: bool) returns (ok: bool)
      requires Valid() && frame.None?
      modifies this`log, this`fences, this`nextPosition, this`nextTx, this`frame, this`start, this`done
      ensures Valid() && (old(WriteAhead()) ==> WriteAhead())
      ensures ok == written == frame.Some?
      ensures nextTx == old(nextTx) + 1 && nextPosition == old(nextPosition) + 1
      ensures ok ==> frame.value == StagedCommit(old(nextTx), old(nextPosition), None)
                     && fences == old(fences) + {old(nextPosition)}
                     && log == old(log) + [Record(old(nextPosition), old(nextTx), Begin)]
      ensures !ok ==> log == old(log) && fences == old(fences)
      ensures Committed() == old(Committed())
    {
      hide LogOK, EdgesOK, Sound, Serial, Steady, Grounded, Noted, Fold, Effects, Suffix, Staged, FrameOK;
      var tx, position := nextTx, nextPosition;
      var r := Record(position, tx, Begin);
      LogFacts(log, position, tx);
      EdgesFacts(log, checkpoint, applied, fences, position);
      LogBurns(log, position, tx, position + 1, tx + 1);
      EdgesBurn(log, checkpoint, applied, fences, position, position + 1);
      FreshGrows(log, position, tx, r);
      LogBurns(log, position, tx, position, tx + 1);
      LogStays(log, r, position, tx + 1);
      FenceRaised(log, r, checkpoint, applied, fences, position, tx);
      SuffixStays(log, r, checkpoint);
      EffectsStay(Suffix(log, checkpoint), r);
      Wider(memory, Truth(), Effects(Tail()), applied, fences, fences + {position}, lost);
      assert (log + [r])[..synced] == log[..synced];
      nextTx, nextPosition := tx + 1, position + 1;
      if !written { return false; }
      log, start, done := log + [r], |log|, 0;
      fences := fences + {position};
      frame := Some(StagedCommit(tx, position, None));
      return true;
    }

    /** Log one mutation of the frame. Control records, and anything after COMMIT, are refused. */
    method Stage(op: Op, written: bool) returns (r: Option<nat>)
      requires Valid() && frame.Some?
      modifies this`log, this`nextPosition
      ensures Valid() && (old(WriteAhead()) ==> WriteAhead())
      ensures r.Some? <==> op.Mutate? && frame.value.commit.None? && written
      ensures r.Some? ==> log == old(log) + [Record(r.value, frame.value.tx, op)]
      ensures r.None? ==> log == old(log)
      ensures Committed() == old(Committed())
    {
      hide LogOK, EdgesOK, Sound, Serial, Steady, Grounded, Noted, Fold, Effects, Suffix, FrameOK;
      if !op.Mutate? || frame.value.commit.Some? { return None; }
      var position := nextPosition;
      var record := Record(position, frame.value.tx, op);
      EdgesFacts(log, checkpoint, applied, fences, position);
      FrameTx(log, frame.value, start);
      LogBurns(log, position, nextTx, position + 1, nextTx);
      EdgesBurn(log, checkpoint, applied, fences, position, position + 1);
      FrameAppends(log, frame.value, start, record, checkpoint, applied, fences, position, nextTx);
      SuffixStays(log, record, checkpoint);
      EffectsStay(Suffix(log, checkpoint), record);
      assert (log + [record])[..synced] == log[..synced];
      nextPosition := position + 1;
      if !written { return None; }
      log := log + [record];
      return Some(position);
    }

    /** Append COMMIT: the point at which the whole frame takes effect. */
    method Commit(written: bool) returns (r: Option<nat>)
      requires Valid() && frame.Some?
      modifies this`log, this`nextPosition, this`frame
      ensures Valid() && (old(WriteAhead()) ==> WriteAhead())
      ensures r.Some? <==> old(frame.value.commit.None?) && written
      ensures r.Some? ==> frame == Some(old(frame.value).(commit := r)) && done == 0
                          && log == old(log) + [Record(r.value, frame.value.tx, Op.Commit)]
                          && Staged(log, frame.value.tx) == old(Staged(log, frame.value.tx))
                          && Committed() == old(Committed()) + Stamp(r.value, Staged(log, frame.value.tx))
      ensures r.None? ==> frame == old(frame) && log == old(log) && Committed() == old(Committed())
    {
      hide LogOK, EdgesOK, Sound, Serial, Steady, Grounded, Noted, Fold, Effects, Suffix, FrameOK, Staged, Stamp,
           InMemory;
      if frame.value.commit.Some? { return None; }
      var position, fr := nextPosition, frame.value;
      var record := Record(position, fr.tx, Op.Commit);
      LogFacts(log, position, nextTx);
      EdgesFacts(log, checkpoint, applied, fences, position);
      LogBurns(log, position, nextTx, position + 1, nextTx);
      EdgesBurn(log, checkpoint, applied, fences, position, position + 1);
      FrameAppends(log, fr, start, record, checkpoint, applied, fences, position, nextTx);
      SuffixStays(log, record, checkpoint);
      StagedTail(log, fr, start, checkpoint);
      FrameTx(log, fr, start);
      ghost var es, more := Effects(Tail()), Stamp(position, Staged(log, fr.tx));
      EffectsStay(Suffix(log, checkpoint), record);
      Grows(memory, disk, Base(), es, position, Staged(log, fr.tx), applied, fences, lost, fr.begin);
      Assoc(past, es, more);
      NoneInMemory(memory, Staged(log, fr.tx));
      Recovery.StagedStep(log, record, fr.tx);
      assert (log + [record])[..synced] == log[..synced];
      nextPosition := position + 1;
      if !written { return None; }
      log := log + [record];
      frame := Some(fr.(commit := Some(position)));
      return Some(position);
    }

    /** Apply the frame's next mutation to memory. A failure may leave anything at its key, and
        drops the committed frame without releasing its fence. */
    method ApplyNext(m: Mutation, works: bool, debris: Option<Bytes>) returns (ok: bool)
      requires Valid() && frame.Some? && frame.value.commit.Some?
      requires done < |Staged(log, frame.value.tx)| && m == Staged(log, frame.value.tx)[done]
      modifies this`memory, this`done, this`frame
      ensures Valid() && (old(WriteAhead()) ==> WriteAhead()) && ok == works
      ensures works ==> frame == old(frame) && done == old(done) + 1 && memory == Apply(old(memory), m)
      ensures works ==> Took(old(memory), m, memory)
      ensures !works ==> frame.None? && memory == Failed(old(memory), m.key, debris)
    {
      hide LogOK, EdgesOK, Sound, Serial, Steady, Grounded, Noted, Fold, Effects, Suffix, FrameOK, Stamp, InMemory,
           Took;
      ghost var staged := Staged(log, frame.value.tx);
      LogFacts(log, nextPosition, nextTx);
      EdgesFacts(log, checkpoint, applied, fences, nextPosition);
      StagedTail(log, frame.value, start, checkpoint);
      StagedPinned(log, frame.value, start, checkpoint, fences, done);
      AppliedNext(memory, staged, done);
      if works {
        SteadyAt(memory, Apply(memory, m), Truth(), Effects(Tail()), fences, lost, m.key);
        ApplyTakes(memory, m);
        memory := Apply(memory, m);
        done := done + 1;
      } else {
        var after := Failed(memory, m.key, debris);
        SteadyAt(memory, after, Truth(), Effects(Tail()), fences, lost, m.key);
        memory := after;
        frame := None;
      }
      return works;
    }

    /** Release the fence of a fully applied frame and note its COMMIT position; an uncommitted
        frame is refused, and disposed of as `Drop` does. */
    method Settle(abortWritten: bool) returns (r: Option<nat>)
      requires Valid() && frame.Some?
      requires frame.value.commit.Some? ==> done == |Staged(log, frame.value.tx)|
      modifies this`fences, this`applied, this`frame, this`log, this`nextPosition
      ensures Valid() && (old(WriteAhead()) ==> WriteAhead()) && frame.None?
      ensures r == old(frame.value.commit) && (r.Some? ==> applied == r.value && log == old(log))
      ensures r.Some? ==> HoldsLast(memory, Staged(log, old(frame.value.tx)))
      ensures fences == old(fences) - {old(frame.value.begin)} && Committed() == old(Committed())
    {
      hide LogOK, EdgesOK, Sound, Serial, Steady, Grounded, Noted, Fold, Effects, Suffix, FrameOK, Staged, Stamp,
           InMemory;
      if frame.value.commit.None? {
        Drop(abortWritten);
        return None;
      }
      var fr := frame.value;
      FrameTx(log, fr, start);
      LogFacts(log, nextPosition, nextTx);
      EdgesFacts(log, checkpoint, applied, fences, nextPosition);
      StagedTail(log, fr, start, checkpoint);
      SuffixSlice(log, checkpoint);
      ghost var front := LoudFrame(log, fr, start, Low(log, checkpoint));
      ghost var last := Stamp(fr.commit.value, Staged(log, fr.tx));
      WholeInMemory(memory, Staged(log, fr.tx), fr.commit.value);
      FrameLeaves(memory, Staged(log, fr.tx), fr.commit.value);
      SteadyReleased(memory, Base(), front, last, fences, lost, fr.begin);
      NotedReleased(front, last, applied, fr.commit.value, fences, lost, fr.begin);
      EdgesNoted(log, checkpoint, applied, fences, nextPosition);
      EdgesFewer(log, checkpoint, fr.commit.value, fences, fences - {fr.begin}, nextPosition);
      fences := fences - {fr.begin};
      applied := Max(applied, fr.commit.value);
      frame := None;
      return fr.commit;
    }

    /** Dispose of an unsettled frame. An uncommitted one releases its fence and logs ABORT if it
        can; a committed one keeps its fence. */
    method Drop(abortWritten: bool)
      requires Valid() && frame.Some?
      modifies this`fences, this`frame, this`log, this`nextPosition
      ensures Valid() && (old(WriteAhead()) ==> WriteAhead()) && frame.None?
      ensures fences == if old(frame.value.commit.None?) then old(fences) - {old(frame.value.begin)} else old(fences)
      ensures log == if old(frame.value.commit.None?) && abortWritten
                     then old(log) + [Record(old(nextPosition), old(frame.value.tx), Abort)] else old(log)
      ensures Committed() == old(Committed())
    {
      hide LogOK, EdgesOK, Sound, Serial, Steady, Grounded, Noted, Fold, Effects, Suffix, FrameOK, Staged, Stamp,
           InMemory;
      if frame.value.commit.None? {
        var position, fr := nextPosition, frame.value;
        var record := Record(position, fr.tx, Abort);
        LogFacts(log, nextPosition, nextTx);
        EdgesFacts(log, checkpoint, applied, fences, position);
        Aborts(log, fr, start, checkpoint, applied, fences, position, nextTx);
        Released(memory, Base(), Effects(Tail()), applied, fences, lost, fr.begin);
        assert (log + [record])[..synced] == log[..synced];
        fences := fences - {fr.begin};
        nextPosition := position + 1;
        if abortWritten { log := log + [record]; }
      }
      frame := None;
    }

    /** A standalone mutation: append, apply, note. Its apply failing leaves the key's value in
        the log only, with no fence in front of it. */
    method Write(m: Mutation, written: bool, works: bool, debris: Option<Bytes>) returns (ok: bool)
      requires Valid() && frame.None?
      modifies this`log, this`nextPosition, this`memory, this`applied, this`lost
      ensures Valid() && (old(WriteAhead()) ==> WriteAhead()) && ok == (written && works)
      ensures Committed() == if written then old(Committed()) + [Effect(old(nextPosition), m)] else old(Committed())
      ensures lost == if written && !works then old(lost) + {m.key} else old(lost)
      ensures log == if written then old(log) + [Record(old(nextPosition), 0, Mutate(m))] else old(log)
      ensures written && works ==> Took(old(memory), m, memory)
      ensures memory == if !written then old(memory) else if works then Apply(old(memory), m)
                  else Failed(old(memory), m.key, debris)
      ensures applied == (if ok then old(nextPosition) else old(applied)) && nextPosition == old(nextPosition) + 1
    {
      hide LogOK, EdgesOK, Sound, Serial, Steady, Grounded, Noted, Fold, Effects, Suffix, FrameOK, Took;
      var position := nextPosition;
      var record := Record(position, 0, Mutate(m));
      WriteLog(log, record, checkpoint, applied, fences, position, nextTx);
      var after, noted := Failed(memory, m.key, debris), applied;
      ghost var gone := lost + {m.key};
      if works { after, noted, gone := Apply(memory, m), position, lost; }
      ApplyTakes(memory, m);
      WriteSteps(memory, after, disk, Base(), Effects(Tail()), Effect(position, m), applied, noted, fences, lost, gone);
      Assoc(past, Effects(Tail()), [Effect(position, m)]);
      MoreLost(disk, Base(), Effects(Suffix(log[..synced], checkpoint)), lost, m.key);
      assert (log + [record])[..synced] == log[..synced];
      nextPosition := position + 1;
      if !written { return false; }
      log, memory, applied, lost := log + [record], after, noted, gone;
      return works;
    }

    /** Make every appended record durable. */
    method Sync()
      requires Valid()
      modifies this`synced
      ensures Valid() && WriteAhead() && synced == |log|
    {
      assert log[..|log|] == log;
      synced := |log|;
    }

    /** Write some keys through to storage: one file of a flush, or a part of one. This keeps
        storage behind the log exactly when each such key is either rewritten by a record
        already durable past the checkpoint, or has its checkpoint value. */
    method Flush(keys: set<Bytes>)
      requires Valid() && frame.None?
      modifies this`disk
      ensures Valid()
      ensures disk == Persisted(old(disk), memory, keys)
      ensures synced == |log| ==> WriteAhead()
      ensures old(WriteAhead()) ==>
                (WriteAhead() <==>
                 forall k :: k in keys && k !in lost ==>
                               Touches(Effects(Suffix(log[..synced], checkpoint)), k)
                               || Lookup(memory, k) == Lookup(Base(), k))
    {
      hide LogOK, EdgesOK, Steady, Noted, Fold, Effects, Suffix, Touches, Lookup, Persisted;
      SteadyGrounded(memory, Base(), Effects(Tail()), fences, lost);
      FlushGrounds(disk, memory, Base(), Effects(Tail()), lost, keys);
      if WriteAhead() {
        FlushGrounds(disk, memory, Base(), Effects(Suffix(log[..synced], checkpoint)), lost, keys);
      }
      assert log[..|log|] == log;
      disk := Persisted(disk, memory, keys);
    }

    /** Move the checkpoint to the noted position, or as far as the lowest fence lets it. The
        caller has flushed everything first. */
    method Advance()
      requires Valid() && frame.None? && disk == memory
      modifies this`checkpoint, this`past
      ensures Valid() && Committed() == old(Committed())
      ensures old(checkpoint) <= checkpoint <= Max(old(checkpoint), applied)
      ensures forall f :: f in fences ==> checkpoint < f
      ensures checkpoint >= applied || exists f :: f in fences && checkpoint >= f - 1
      ensures fences == {} || synced == |log| ==> WriteAhead()
    {
      hide LogOK, EdgesOK, Steady, Grounded, Noted, Fold, Effects, Suffix, Touches, Lookup;
      LogFacts(log, nextPosition, nextTx);
      EdgesFacts(log, checkpoint, applied, fences, nextPosition);
      var target := applied;
      if fences != {} {
        var lowest := Lowest(fences);
        target := Min(applied, lowest - 1);
      }
      if target > checkpoint {
        EdgesMoved(log, checkpoint, applied, fences, nextPosition, target);
        ghost var early := EffectsBetween(log, checkpoint, target);
        ghost var late := Effects(Suffix(log, target));
        FoldConcat(Base(), early, late);
        FoldConcat(map[], past, early);
        AdvancedSteady(memory, Base(), early, late, fences, lost, target);
        AdvancedGrounded(memory, Base(), early, late, fences, lost, target);
        NotedPast(early, late, applied, fences, lost, target);
        Assoc(past, early, late);
        checkpoint, past := target, past + early;
      }
      assert log[..|log|] == log;
      if fences == {} { NothingOwed(memory, Base(), log, synced, checkpoint, applied, lost); }
    }

    /** Rewrite the log without the records at or below the checkpoint. */
    method Rotate()
      requires Valid() && frame.None?
      modifies this`log, this`synced
      ensures Valid() && WriteAhead() && Committed() == old(Committed())
      ensures log == Suffix(old(log), checkpoint) && synced == |log|
    {
      hide LogOK, EdgesOK, Steady, Grounded, Noted, Fold, Effects, Suffix;
      LogFacts(log, nextPosition, nextTx);
      RotatedEdges(log, checkpoint, applied, fences, nextPosition, nextTx);
      log := Suffix(log, checkpoint);
      synced := |log|;
      assert log[..|log|] == log;
    }

    /** A crash that leaves the synced records and any prefix of the rest, and the recovery
        after it. */
    method Crash(cut: nat)
      requires Valid() && synced <= cut <= |log|
      modifies this`log, this`synced, this`memory, this`fences, this`nextPosition, this`nextTx,
        this`applied, this`frame, this`lost
      ensures Valid() && WriteAhead() && frame.None? && fences == {}
      ensures log == old(log)[..cut] && synced == cut
      ensures Committed() == old(Survivors(cut))
      ensures Recovered(disk, log, checkpoint) == Some(memory)
      ensures old(WriteAhead()) ==> lost <= old(lost)
      ensures lost == {} ==> memory == Truth()
    {
      hide LogOK, EdgesOK, Steady, Grounded, Noted, Fold, Effects, Suffix, Lookup, Touches, Sound, Recovered,
        Numbered, Ascending, MaxPosition, MaxTx, LastClosing, Differences, FrameOK, Staged, InMemory;
      var file := log[..cut];
      ghost var es := Effects(Suffix(file, checkpoint));
      assert file[..|file|] == file;
      StillGrounded(disk, Base(), log, checkpoint, lost, synced, cut);
      ghost var gone := Restarts(disk, Base(), log, checkpoint, applied, fences, nextPosition, nextTx, cut, lost);
      var r := Recovery.Recover(disk, file, checkpoint);
      log, memory, lost := file, r.value, gone;
      synced, fences, frame := cut, {}, None;
      nextPosition, nextTx := Max(checkpoint, MaxPosition(file)) + 1, MaxTx(file) + 1;
      applied := LastClosing(Suffix(file, checkpoint));
    }
  }

  ghost predicate InMemory(memory: State, ms: seq<Mutation>) {
    forall k: Bytes :: Touches(Stamp(0, ms), k) ==> Lookup(memory, k) == Lookup(Fold(map[], Stamp(0, ms)), k)
  }

  lemma AppliedNext(memory: State, ms: seq<Mutation>, n: nat)
    requires n < |ms| && InMemory(memory, ms[..n])
    ensures InMemory(Apply(memory, ms[n]), ms[..n + 1])
  {
    hide Fold, Touches;
    var front, m, after := Stamp(0, ms[..n]), ms[n], Stamp(0, ms[..n + 1]);
    assert ms[..n + 1] == ms[..n] + [m];
    Recovery.StampStep(0, ms[..n], m);
    Recovery.FoldStep(map[], front, Effect(0, m));
    forall k: Bytes | Touches(after, k) ensures Lookup(Apply(memory, m), k) == Lookup(Fold(map[], after), k) {
      TouchesConcat(front, [Effect(0, m)], k);
      TouchesOne(Effect(0, m), k);
    }
  }

  lemma TouchesOne(e: Effect, key: Bytes)
    ensures Touches([e], key) <==> e.m.key == key
  {
    assert [e][0] == e;
  }

  /** Every key of a committed frame is pinned by the frame's fence. */
  lemma StagedPinned(log: seq<Record>, fr: StagedCommit, start: nat, checkpoint: nat, fences: set<nat>, n: nat)
    requires Ascending(log) && FrameOK(log, fr, start) && fr.commit.Some?
    requires checkpoint < fr.begin && fr.begin in fences && n < |Staged(log, fr.tx)|
    ensures Pinned(Effects(Suffix(log, checkpoint)), fences, Staged(log, fr.tx)[n].key)
  {
    hide FrameOK, Effects, Suffix;
    StagedTail(log, fr, start, checkpoint);
    SuffixSlice(log, checkpoint);
    var front := LoudFrame(log, fr, start, Low(log, checkpoint));
    var last := Stamp(fr.commit.value, Staged(log, fr.tx));
    assert last[n].m.key == Staged(log, fr.tx)[n].key;
    FencePins(front, last, fences, fr.begin, Staged(log, fr.tx)[n].key);
  }

  lemma SteadyAt(memory: State, after: State, truth: State, es: seq<Effect>, fences: set<nat>, lost: set<Bytes>,
                 key: Bytes)
    requires Steady(memory, truth, es, fences, lost) && Pinned(es, fences, key)
    requires forall k: Bytes :: k != key ==> Lookup(after, k) == Lookup(memory, k)
    ensures Steady(after, truth, es, fences, lost)
  {
    hide Pinned;
  }

  lemma WholeInMemory(memory: State, ms: seq<Mutation>, at: nat)
    requires InMemory(memory, ms[..|ms|])
    ensures forall k: Bytes :: Touches(Stamp(at, ms), k) ==>
                                 Lookup(memory, k) == Lookup(Fold(map[], Stamp(at, ms)), k)
  {
    hide Fold, Stamp, Touches, Lookup;
    assert ms[..|ms|] == ms;
    StampFold(map[], 0, at, ms);
    forall k: Bytes | Touches(Stamp(at, ms), k) ensures Touches(Stamp(0, ms), k) { StampTouches(at, 0, ms, k); }
  }

  /** Every key the mutations write holds what the last of them on it left there. */
  ghost predicate HoldsLast(memory: State, ms: seq<Mutation>) {
    forall i :: 0 <= i < |ms| && (forall j :: i < j < |ms| ==> ms[j].key != ms[i].key) ==> Left(ms[i], memory)
  }

  lemma FrameLeaves(memory: State, ms: seq<Mutation>, at: nat)
    requires forall k: Bytes :: Touches(Stamp(at, ms), k) ==>
                                  Lookup(memory, k) == Lookup(Fold(map[], Stamp(at, ms)), k)
    ensures HoldsLast(memory, ms)
  {
    hide Fold, Stamp, Lookup, Left;
    var es := Stamp(at, ms);
    FoldFollows(map[], es);
    forall i | 0 <= i < |ms| && (forall j :: i < j < |ms| ==> ms[j].key != ms[i].key) ensures Left(ms[i], memory) {
      assert es[i].m == ms[i] && LastOn(es, i) && Touches(es, ms[i].key);
      LeftBy(Fold(map[], es), memory, ms[i]);
    }
  }

  lemma LeftBy(s: State, t: State, m: Mutation)
    requires Lookup(s, m.key) == Lookup(t, m.key) && Left(m, s)
    ensures Left(m, t)
  {
  }

  /** Releasing the fence of a frame that has no effect. */
  lemma Released(memory: State, base: State, es: seq<Effect>, applied: nat, fences: set<nat>, lost: set<Bytes>, f: nat)
    requires Steady(memory, Fold(base, es), es, fences, lost) && Noted(es, applied, fences, lost)
    requires forall i :: 0 <= i < |es| ==> es[i].at < f
    ensures Steady(memory, Fold(base, es), es, fences - {f}, lost) && Noted(es, applied, fences - {f}, lost)
  {
    hide Fold, Steady, Noted;
    assert es + [] == es;
    SteadyReleased(memory, base, es, [], fences, lost, f);
    NotedReleased(es, [], applied, applied, fences, lost, f);
  }

  function Max(a: nat, b: nat): nat { if a < b then b else a }

  /** A frame's effects become visible above its fence, before any of them is applied. */
  lemma Grows(memory: State, disk: State, base: State, es: seq<Effect>, at: nat, ms: seq<Mutation>,
              applied: nat, fences: set<nat>, lost: set<Bytes>, f: nat)
    requires Steady(memory, Fold(base, es), es, fences, lost) && Grounded(disk, base, es, lost)
    requires Noted(es, applied, fences, lost) && f in fences && f < at
    ensures Steady(memory, Fold(base, es + Stamp(at, ms)), es + Stamp(at, ms), fences, lost)
    ensures Grounded(disk, base, es + Stamp(at, ms), lost)
    ensures Noted(es + Stamp(at, ms), applied, fences, lost)
  {
    hide Steady, Grounded, Noted, Fold;
    SteadyGrows(memory, base, es, Stamp(at, ms), fences, lost, f);
    GroundedGrows(disk, base, es, Stamp(at, ms), lost);
    NotedGrows(es, Stamp(at, ms), applied, fences, lost, f);
  }

  lemma MoreLost(disk: State, base: State, es: seq<Effect>, lost: set<Bytes>, key: Bytes)
    ensures Grounded(disk, base, es, lost) ==> Grounded(disk, base, es, lost + {key})
  {
    hide Touches, Lookup;
  }

  lemma EffectsBelow(log: seq<Record>, checkpoint: nat, top: nat)
    requires Ascending(log) && forall i :: 0 <= i < |log| ==> log[i].position < top
    ensures forall i :: 0 <= i < |Effects(Suffix(log, checkpoint))| ==> Effects(Suffix(log, checkpoint))[i].at < top
  {
    hide Effects, Suffix;
    SuffixSlice(log, checkpoint);
    var n := Low(log, checkpoint);
    forall i | 0 <= i < |Effects(log[n..])| ensures Effects(log[n..])[i].at < top {
      var j := EffectsPosition(log[n..], i);
      assert log[n..][j] == log[n + j];
    }
  }

  function Failed(memory: State, key: Bytes, debris: Option<Bytes>): State {
    if debris.Some? then memory[key := debris.value] else memory - {key}
  }

  lemma WriteLog(log: seq<Record>, r: Record, checkpoint: nat, applied: nat, fences: set<nat>, position: nat,
                 nextTx: nat)
    requires LogOK(log, position, nextTx) && EdgesOK(log, checkpoint, applied, fences, position)
    requires r.position == position && r.tx == 0 && r.op.Mutate?
    ensures LogOK(log, position + 1, nextTx) && EdgesOK(log, checkpoint, applied, fences, position + 1)
    ensures LogOK(log + [r], position + 1, nextTx)
    ensures EdgesOK(log + [r], checkpoint, applied, fences, position + 1)
    ensures EdgesOK(log + [r], checkpoint, position, fences, position + 1)
    ensures Effects(Suffix(log + [r], checkpoint)) == Effects(Suffix(log, checkpoint)) + [Effect(position, r.op.m)]
    ensures forall i :: 0 <= i < |Effects(Suffix(log, checkpoint))| ==>
                Effects(Suffix(log, checkpoint))[i].at < position
  {
    hide LogOK, EdgesOK, Sound, Serial, Effects, Suffix;
    LogFacts(log, position, nextTx);
    EdgesFacts(log, checkpoint, applied, fences, position);
    LogBurns(log, position, nextTx, position + 1, nextTx);
    EdgesBurn(log, checkpoint, applied, fences, position, position + 1);
    FreshGrows(log, position, nextTx, r);
    LogStays(log, r, position, nextTx);
    EdgesStay(log, r, checkpoint, applied, fences, position, |log|);
    EdgesNoted(log + [r], checkpoint, applied, fences, position + 1);
    SuffixStays(log, r, checkpoint);
    EffectsStay(Suffix(log, checkpoint), r);
    EffectsBelow(log, checkpoint, position);
  }

  /** What a standalone effect does to the invariants, applied or not. */
  lemma WriteSteps(memory: State, after: State, disk: State, base: State, es: seq<Effect>, e: Effect,
                   applied: nat, noted: nat, fences: set<nat>, lost: set<Bytes>, gone: set<Bytes>)
    requires Steady(memory, Fold(base, es), es, fences, lost) && Grounded(disk, base, es, lost)
    requires Noted(es, applied, fences, lost) && forall i :: 0 <= i < |es| ==> es[i].at < e.at
    requires forall k: Bytes :: k != e.m.key ==> Lookup(after, k) == Lookup(memory, k)
    requires (after == Apply(memory, e.m) && noted == e.at && gone == lost)
             || (noted == applied && gone == lost + {e.m.key})
    ensures Steady(after, Fold(base, es + [e]), es + [e], fences, gone)
    ensures Grounded(disk, base, es + [e], gone) && Noted(es + [e], noted, fences, gone)
  {
    hide Steady, Noted, Grounded, Fold, Touches;
    WriteSteady(memory, after, base, es, e, fences, lost, gone);
    GroundedGrows(disk, base, es, [e], lost);
    MoreLost(disk, base, es + [e], lost, e.m.key);
    WriteNoted(es, e, applied, fences, lost);
  }

  lemma WriteSteady(memory: State, after: State, base: State, es: seq<Effect>, e: Effect,
                    fences: set<nat>, lost: set<Bytes>, gone: set<Bytes>)
    requires Steady(memory, Fold(base, es), es, fences, lost) && lost <= gone
    requires forall k: Bytes :: k != e.m.key ==> Lookup(after, k) == Lookup(memory, k)
    requires e.m.key in gone || after == Apply(memory, e.m)
    ensures Steady(after, Fold(base, es + [e]), es + [e], fences, gone)
  {
    hide Pinned, Fold;
    Recovery.FoldStep(base, es, e);
    forall k: Bytes | k !in gone
      ensures Lookup(after, k) == Lookup(Fold(base, es + [e]), k) || Pinned(es + [e], fences, k)
    {
      if Pinned(es, fences, k) { PinnedGrows(es, [e], fences, fences, k); }
    }
  }

  lemma WriteNoted(es: seq<Effect>, e: Effect, applied: nat, fences: set<nat>, lost: set<Bytes>)
    requires Noted(es, applied, fences, lost) && forall i :: 0 <= i < |es| ==> es[i].at < e.at
    ensures Noted(es + [e], e.at, fences, lost)
    ensures Noted(es + [e], applied, fences, lost + {e.m.key})
  {
    hide Pinned;
    var all := es + [e];
    forall i | 0 <= i < |all|
      ensures all[i].at <= e.at
      ensures all[i].at <= applied || all[i].m.key in lost + {e.m.key} || Pinned(all, fences, all[i].m.key)
    {
      if i < |es| {
        assert all[i] == es[i];
        if Pinned(es, fences, es[i].m.key) { PinnedGrows(es, [e], fences, fences, es[i].m.key); }
      }
    }
  }

  function Persisted(disk: State, memory: State, keys: set<Bytes>): State {
    (disk - keys) + map k | k in memory && k in keys :: memory[k]
  }

  lemma PersistedAt(disk: State, memory: State, keys: set<Bytes>, key: Bytes)
    ensures Lookup(Persisted(disk, memory, keys), key) == if key in keys then Lookup(memory, key) else Lookup(disk, key)
  {
  }

  lemma SteadyGrounded(memory: State, base: State, es: seq<Effect>, fences: set<nat>, lost: set<Bytes>)
    requires Steady(memory, Fold(base, es), es, fences, lost)
    ensures Grounded(memory, base, es, lost)
  {
    hide Fold, Touches, Pinned, Lookup;
    forall k: Bytes | k !in lost ensures Touches(es, k) || Lookup(memory, k) == Lookup(base, k) {
      FoldAt(base, base, es, k);
      if Pinned(es, fences, k) { PinnedTouches(es, fences, k); }
    }
  }

  lemma FlushGrounds(disk: State, memory: State, base: State, es: seq<Effect>, lost: set<Bytes>, keys: set<Bytes>)
    requires Grounded(disk, base, es, lost)
    ensures Grounded(Persisted(disk, memory, keys), base, es, lost) <==>
            forall k :: k in keys && k !in lost ==> Touches(es, k) || Lookup(memory, k) == Lookup(base, k)
  {
    hide Persisted, Touches, Lookup;
    forall k: Bytes { PersistedAt(disk, memory, keys, k); }
  }

  function Min(a: nat, b: nat): nat { if a < b then a else b }

  method Lowest(s: set<nat>) returns (m: nat)
    requires s != {}
    ensures m in s && forall f :: f in s ==> m <= f
  {
    m :| m in s;
    var rest := s;
    while rest != {}
      invariant rest <= s && m in s
      invariant forall f :: f in s && f !in rest ==> m <= f
      decreases |rest|
    {
      var f :| f in rest;
      if f < m { m := f; }
      rest := rest - {f};
    }
  }

  lemma EdgesMoved(log: seq<Record>, checkpoint: nat, applied: nat, fences: set<nat>, nextPosition: nat, target: nat)
    requires EdgesOK(log, checkpoint, applied, fences, nextPosition)
    requires target == applied || exists f :: f in fences && target == f - 1
    requires forall f :: f in fences ==> target < f
    ensures EdgesOK(log, target, applied, fences, nextPosition) && Edge(log, target)
  {
  }

  /** With no fence up, an advanced checkpoint leaves nothing for a crash to take away. */
  lemma NothingOwed(disk: State, base: State, log: seq<Record>, synced: nat, checkpoint: nat, applied: nat,
                    lost: set<Bytes>)
    requires Ascending(log) && synced <= |log| && applied <= checkpoint
    requires Noted(Effects(Suffix(log, checkpoint)), applied, {}, lost)
    requires Grounded(disk, base, Effects(Suffix(log, checkpoint)), lost)
    ensures Grounded(disk, base, Effects(Suffix(log[..synced], checkpoint)), lost)
  {
    hide Effects, Suffix, Lookup;
    var es := Effects(Suffix(log, checkpoint));
    forall k: Bytes | k !in lost
      ensures Touches(Effects(Suffix(log[..synced], checkpoint)), k) || Lookup(disk, k) == Lookup(base, k)
    {
      if Touches(es, k) {
        var i :| 0 <= i < |es| && es[i].m.key == k;
        EffectAbove(log, checkpoint, i);
      }
    }
  }

  lemma EffectAbove(log: seq<Record>, checkpoint: nat, i: nat)
    requires Ascending(log) && i < |Effects(Suffix(log, checkpoint))|
    ensures Effects(Suffix(log, checkpoint))[i].at > checkpoint
  {
    hide Effects, Suffix;
    SuffixSlice(log, checkpoint);
    LowAbove(log, checkpoint);
    var n := Low(log, checkpoint);
    var j := EffectsPosition(log[n..], i);
    assert log[n..][j] == log[n + j];
  }

  lemma RotatedEdges(log: seq<Record>, checkpoint: nat, applied: nat, fences: set<nat>, nextPosition: nat, nextTx: nat)
    requires LogOK(log, nextPosition, nextTx) && EdgesOK(log, checkpoint, applied, fences, nextPosition)
    ensures LogOK(Suffix(log, checkpoint), nextPosition, nextTx)
    ensures EdgesOK(Suffix(log, checkpoint), checkpoint, applied, fences, nextPosition)
    ensures Suffix(Suffix(log, checkpoint), checkpoint) == Suffix(log, checkpoint)
  {
    hide Edge, LogOK, Suffix;
    LogFacts(log, nextPosition, nextTx);
    LogRotates(log, checkpoint, nextPosition, nextTx);
    EdgeRotates(log, checkpoint, checkpoint);
    EdgeRotates(log, checkpoint, applied);
    forall f | f in fences ensures Edge(Suffix(log, checkpoint), f - 1) { EdgeRotates(log, checkpoint, f - 1); }
  }

  function MaxPosition(log: seq<Record>): (n: nat)
    ensures forall i :: 0 <= i < |log| ==> log[i].position <= n
  {
    if log == [] then 0 else Max(MaxPosition(log[..|log| - 1]), log[|log| - 1].position)
  }

  function MaxTx(log: seq<Record>): (n: nat)
    ensures forall i :: 0 <= i < |log| ==> log[i].tx <= n
  {
    if log == [] then 0 else Max(MaxTx(log[..|log| - 1]), log[|log| - 1].tx)
  }

  /** The position of the last record recovery replays something at, or 0. */
  function LastClosing(log: seq<Record>): (n: nat)
    ensures n == 0 || exists i :: 0 <= i < |log| && Closing(log[i]) && n == log[i].position
  {
    if log == [] then 0
    else if Closing(log[|log| - 1]) then log[|log| - 1].position
    else LastClosing(log[..|log| - 1])
  }

  lemma {:induction false} LastClosingIs(log: seq<Record>)
    requires Ascending(log)
    ensures forall i :: 0 <= i < |log| && Closing(log[i]) ==> log[i].position <= LastClosing(log)
  {
    if log != [] { LastClosingIs(log[..|log| - 1]); }
  }

  ghost function Differences(s: State, t: State): set<Bytes> {
    set k | k in s.Keys + t.Keys && Lookup(s, k) != Lookup(t, k)
  }

  lemma DifferencesAre(s: State, t: State)
    ensures forall k: Bytes :: k in Differences(s, t) <==> Lookup(s, k) != Lookup(t, k)
    ensures Differences(s, t) == {} ==> s == t
  {
    if Differences(s, t) == {} {
      forall k: Bytes ensures Lookup(s, k) == Lookup(t, k) { assert k !in Differences(s, t); }
      SameLookups(s, t);
    }
  }

  /** The surviving log is one recovery accepts, and the restarted counters clear it. */
  lemma Reopens(log: seq<Record>, checkpoint: nat, applied: nat, fences: set<nat>, nextPosition: nat, nextTx: nat,
                cut: nat)
    requires LogOK(log, nextPosition, nextTx) && EdgesOK(log, checkpoint, applied, fences, nextPosition)
    requires cut <= |log|
    ensures var rest := log[..cut];
            var np := Max(checkpoint, MaxPosition(rest)) + 1;
            var last := LastClosing(Suffix(rest, checkpoint));
            && Numbered(rest) && Ascending(rest) && Sound(Suffix(rest, checkpoint))
            && LogOK(rest, np, MaxTx(rest) + 1)
            && EdgesOK(rest, checkpoint, last, {}, np)
            && Noted(Effects(Suffix(rest, checkpoint)), last, {}, {})
  {
    hide Sound, Serial, Edge, Effects, Suffix, LogOK, EdgesOK, Noted, MaxPosition, MaxTx, LastClosing;
    var rest := log[..cut];
    LogCut(log, cut, nextPosition, nextTx);
    LogFacts(log, nextPosition, nextTx);
    LogFacts(rest, nextPosition, nextTx);
    CheckpointEdge(log, checkpoint, applied, fences, nextPosition);
    EdgeCut(log, cut, checkpoint);
    SuffixSlice(rest, checkpoint);
    EdgeSound(rest, checkpoint);
    ClosingEdge(rest, checkpoint);
    ClosingNoted(rest, checkpoint);
    var np := Max(checkpoint, MaxPosition(rest)) + 1;
    LogCounters(rest, nextPosition, nextTx, np, MaxTx(rest) + 1);
    EdgesFresh(rest, checkpoint, LastClosing(Suffix(rest, checkpoint)), np);
  }

  lemma CheckpointEdge(log: seq<Record>, checkpoint: nat, applied: nat, fences: set<nat>, nextPosition: nat)
    requires EdgesOK(log, checkpoint, applied, fences, nextPosition)
    ensures Edge(log, checkpoint)
  {
  }

  lemma LogCounters(log: seq<Record>, nextPosition: nat, nextTx: nat, np: nat, nt: nat)
    requires LogOK(log, nextPosition, nextTx) && np > 0 && nt > 0
    requires forall i :: 0 <= i < |log| ==> log[i].position < np && log[i].tx < nt
    ensures LogOK(log, np, nt)
  {
    hide Sound, Serial;
  }

  lemma EdgesFresh(log: seq<Record>, checkpoint: nat, applied: nat, nextPosition: nat)
    requires Edge(log, checkpoint) && Edge(log, applied) && checkpoint < nextPosition && applied < nextPosition
    ensures EdgesOK(log, checkpoint, applied, {}, nextPosition)
  {
  }

  /** Everything a restart needs of the surviving log and of storage. */
  lemma Restarts(disk: State, base: State, log: seq<Record>, checkpoint: nat, applied: nat, fences: set<nat>,
                 nextPosition: nat, nextTx: nat, cut: nat, lost: set<Bytes>) returns (gone: set<Bytes>)
    requires LogOK(log, nextPosition, nextTx) && EdgesOK(log, checkpoint, applied, fences, nextPosition)
    requires cut <= |log|
    ensures var rest := log[..cut];
            var np, es := Max(checkpoint, MaxPosition(rest)) + 1, Effects(Suffix(rest, checkpoint));
            var last := LastClosing(Suffix(rest, checkpoint));
            && LogOK(rest, np, MaxTx(rest) + 1)
            && EdgesOK(rest, checkpoint, last, {}, np)
            && Noted(es, last, {}, gone)
            && Recovered(disk, rest, checkpoint) == Some(Fold(disk, es))
            && Steady(Fold(disk, es), Fold(base, es), es, {}, gone)
            && Grounded(disk, base, es, gone)
            && (Grounded(disk, base, es, lost) ==> gone <= lost)
            && (gone == {} ==> Fold(disk, es) == Fold(base, es))
  {
    hide LogOK, EdgesOK, Steady, Grounded, Noted, Fold, Effects, Suffix, Sound, Recovered,
      Numbered, Ascending, MaxPosition, MaxTx, LastClosing, Differences;
    var es := Effects(Suffix(log[..cut], checkpoint));
    gone := Differences(Fold(disk, es), Fold(base, es));
    Reopens(log, checkpoint, applied, fences, nextPosition, nextTx, cut);
    Differing(disk, base, es, lost);
    RecoveredIs(disk, log[..cut], checkpoint);
    NotedMore(es, LastClosing(Suffix(log[..cut], checkpoint)), gone);
  }

  lemma RecoveredIs(disk: State, log: seq<Record>, checkpoint: nat)
    requires Numbered(log) && Ascending(log) && Sound(Suffix(log, checkpoint))
    ensures Recovered(disk, log, checkpoint) == Some(Fold(disk, Effects(Suffix(log, checkpoint))))
  {
  }

  lemma NotedMore(es: seq<Effect>, applied: nat, lost: set<Bytes>)
    requires Noted(es, applied, {}, {})
    ensures Noted(es, applied, {}, lost)
  {
  }

  lemma EdgeSound(log: seq<Record>, p: nat)
    requires Edge(log, p) && Sound(log)
    ensures Sound(log[Low(log, p)..])
  {
    SoundPast(log, Low(log, p));
  }

  lemma ClosingAt(log: seq<Record>, i: nat)
    requires Ascending(log) && Serial(log) && i < |log| && Closing(log[i])
    ensures Edge(log, log[i].position) && log[i].position <= MaxPosition(log)
  {
    LowIs(log, log[i].position, i + 1);
  }

  lemma ClosingEdge(log: seq<Record>, checkpoint: nat)
    requires Ascending(log) && Numbered(log) && Serial(log)
    ensures Edge(log, LastClosing(Suffix(log, checkpoint)))
    ensures LastClosing(Suffix(log, checkpoint)) <= MaxPosition(log)
  {
    hide Suffix, LastClosing, MaxPosition, Serial;
    SuffixSlice(log, checkpoint);
    var n := Low(log, checkpoint);
    var tail := log[n..];
    var last := LastClosing(tail);
    if last == 0 {
      LowIs(log, 0, 0);
      ClearEnd(log);
    } else {
      var i :| 0 <= i < |tail| && Closing(tail[i]) && last == tail[i].position;
      assert tail[i] == log[n + i];
      ClosingAt(log, n + i);
    }
  }

  lemma ClosingNoted(log: seq<Record>, checkpoint: nat)
    requires Ascending(log)
    ensures Noted(Effects(Suffix(log, checkpoint)), LastClosing(Suffix(log, checkpoint)), {}, {})
  {
    hide Effects, Suffix, LastClosing;
    SuffixSlice(log, checkpoint);
    var tail := log[Low(log, checkpoint)..];
    LastClosingIs(tail);
    forall i | 0 <= i < |Effects(tail)| ensures Effects(tail)[i].at <= LastClosing(tail) {
      var j := EffectsPosition(tail, i);
      assert Closing(tail[j]);
    }
  }

  /** Storage behind the synced records is behind every longer surviving log. */
  lemma StillGrounded(disk: State, base: State, log: seq<Record>, checkpoint: nat, lost: set<Bytes>, a: nat, b: nat)
    requires a <= b <= |log|
    ensures Grounded(disk, base, Effects(Suffix(log[..a], checkpoint)), lost) ==>
              Grounded(disk, base, Effects(Suffix(log[..b], checkpoint)), lost)
  {
    hide Effects, Suffix, Grounded;
    SurvivorsGrow(log, checkpoint, a, b);
    var es, all := Effects(Suffix(log[..a], checkpoint)), Effects(Suffix(log[..b], checkpoint));
    assert all == es + all[|es|..];
    if Grounded(disk, base, es, lost) { GroundedGrows(disk, base, es, all[|es|..], lost); }
  }

  /** Replaying over storage: where it differs from the truth, and that nothing else does. */
  lemma Differing(disk: State, base: State, es: seq<Effect>, lost: set<Bytes>)
    ensures var gone := Differences(Fold(disk, es), Fold(base, es));
            && Grounded(disk, base, es, gone)
            && Steady(Fold(disk, es), Fold(base, es), es, {}, gone)
            && (Grounded(disk, base, es, lost) ==> gone <= lost)
            && (gone == {} ==> Fold(disk, es) == Fold(base, es))
  {
    hide Fold, Touches, Lookup;
    var s, t := Fold(disk, es), Fold(base, es);
    DifferencesAre(s, t);
    forall k: Bytes
      ensures !Touches(es, k) ==> Lookup(s, k) == Lookup(disk, k) && Lookup(t, k) == Lookup(base, k)
      ensures Touches(es, k) ==> Lookup(s, k) == Lookup(t, k)
    {
      FoldAt(disk, base, es, k);
      FoldAt(base, disk, es, k);
    }
  }

  lemma NoneInMemory(memory: State, ms: seq<Mutation>)
    ensures InMemory(memory, ms[..0])
  {
  }

  /** What disposing of an uncommitted frame leaves of the log, with or without its ABORT. */
  lemma Aborts(log: seq<Record>, fr: StagedCommit, start: nat, checkpoint: nat, applied: nat, fences: set<nat>,
               position: nat, nextTx: nat)
    requires LogOK(log, position, nextTx) && EdgesOK(log, checkpoint, applied, fences, position)
    requires FrameOK(log, fr, start) && fr.commit.None? && fr.tx < nextTx
    requires checkpoint < fr.begin && applied < fr.begin && forall f :: f in fences ==> f <= fr.begin
    ensures LogOK(log, position + 1, nextTx) && EdgesOK(log, checkpoint, applied, fences - {fr.begin}, position + 1)
    ensures forall i :: 0 <= i < |Effects(Suffix(log, checkpoint))| ==>
                          Effects(Suffix(log, checkpoint))[i].at < fr.begin
    ensures var longer := log + [Record(position, fr.tx, Abort)];
            && LogOK(longer, position + 1, nextTx)
            && EdgesOK(longer, checkpoint, applied, fences - {fr.begin}, position + 1)
            && Effects(Suffix(longer, checkpoint)) == Effects(Suffix(log, checkpoint))
  {
    hide LogOK, EdgesOK, Sound, Serial, Effects, Suffix, FrameOK, Staged;
    var record := Record(position, fr.tx, Abort);
    LogFacts(log, position, nextTx);
    EdgesFacts(log, checkpoint, applied, fences, position);
    FrameTx(log, fr, start);
    StagedTail(log, fr, start, checkpoint);
    SuffixSlice(log, checkpoint);
    QuietFrame(log, fr, start, Low(log, checkpoint));
    LogBurns(log, position, nextTx, position + 1, nextTx);
    EdgesBurn(log, checkpoint, applied, fences, position, position + 1);
    EdgesFewer(log, checkpoint, applied, fences, fences - {fr.begin}, position + 1);
    FrameAppends(log, fr, start, record, checkpoint, applied, fences, position, nextTx);
    EdgesFewer(log + [record], checkpoint, applied, fences, fences - {fr.begin}, position + 1);
    SuffixStays(log, record, checkpoint);
    EffectsStay(Suffix(log, checkpoint), record);
  }

  lemma FrameTx(log: seq<Record>, fr: StagedCommit, start: nat)
    requires FrameOK(log, fr, start)
    ensures fr.tx != 0 && log != []
    ensures fr.commit.Some? ==> log[|log| - 1].position == fr.commit.value
  {
  }

  // ---- crash at any point ----

  /** A crash at any moment of any run, taking away any part of the unsynced log: recovery
      rebuilds exactly what survives, whatever is taken, if and only if storage has not run
      ahead of the synced log. */
  lemma CrashAnywhere(e: Engine)
    requires e.Valid()
    ensures e.WriteAhead() <==> forall cut :: e.synced <= cut <= |e.log| ==> e.RecoversAt(cut)
  {
    if e.WriteAhead() {
      forall cut | e.synced <= cut <= |e.log| ensures e.RecoversAt(cut) {
        StillGrounded(e.disk, e.Base(), e.log, e.checkpoint, e.lost, e.synced, cut);
        RecoversIf(e, cut);
      }
    }
    if forall cut :: e.synced <= cut <= |e.log| ==> e.RecoversAt(cut) {
      assert e.RecoversAt(e.synced);
      RecoversIf(e, e.synced);
    }
  }

  lemma RecoversIf(e: Engine, cut: nat)
    requires e.Valid() && cut <= |e.log|
    ensures e.RecoversAt(cut) <==> Grounded(e.disk, e.Base(), Effects(Suffix(e.log[..cut], e.checkpoint)), e.lost)
  {
    hide LogOK, EdgesOK, Steady, Noted, Fold, Effects, Suffix, Touches, Lookup, Recovered, FrameOK, Staged, InMemory;
    var es := Effects(Suffix(e.log[..cut], e.checkpoint));
    var _ := Restarts(e.disk, e.Base(), e.log, e.checkpoint, e.applied, e.fences, e.nextPosition, e.nextTx, cut,
        e.lost);
    FoldConcat(map[], e.past, es);
    forall k: Bytes
      ensures Lookup(Fold(e.disk, es), k) == Lookup(Fold(e.Base(), es), k) <==>
              Touches(es, k) || Lookup(e.disk, k) == Lookup(e.Base(), k)
    {
      FoldAt(e.disk, e.Base(), es, k);
      FoldAt(e.Base(), e.disk, es, k);
    }
  }

  /** What survives a crash is a prefix of what was committed, and contains all that was
      synced. */
  lemma SurvivorsNested(e: Engine, cut: nat)
    requires e.Valid() && e.synced <= cut <= |e.log|
    ensures e.Survivors(e.synced) <= e.Survivors(cut) <= e.Committed()
  {
    SurvivorsGrow(e.log, e.checkpoint, e.synced, cut);
    SurvivorsGrow(e.log, e.checkpoint, cut, |e.log|);
    assert e.log[..|e.log|] == e.log;
  }
}
