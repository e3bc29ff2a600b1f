/** The shape the writers keep the log in, and what one more record does to it. */
module CommitLog {
  import opened Bytes
  import opened Entries
  import opened Wal
  import opened Frames

  /** An open commit frame: its transaction, its BEGIN position, and its COMMIT position once
      written. */
  datatype StagedCommit = StagedCommit(tx: nat, begin: nat, commit: Option<nat>)

  /** Records that make something visible. */
  predicate Closing(r: Record) { r.tx == 0 || r.op.Commit? }

  /** Writers take turns: no transaction spans a standalone record or another's COMMIT. */
  ghost predicate Serial(log: seq<Record>) {
    forall i :: 0 <= i < |log| && Closing(log[i]) ==> Clear(log, i + 1)
  }

  ghost predicate LogOK(log: seq<Record>, nextPosition: nat, nextTx: nat) {
    && Numbered(log) && Ascending(log) && Sound(log) && Serial(log)
    && nextPosition > 0 && nextTx > 0
    && forall i :: 0 <= i < |log| ==> log[i].position < nextPosition && log[i].tx < nextTx
  }

  /** No transaction straddles position `p`. */
  ghost predicate Edge(log: seq<Record>, p: nat) { Clear(log, Low(log, p)) }

  /** The checkpoint, the noted position and the place in front of every fence are edges, and
      the checkpoint is below every fence. */
  ghost predicate EdgesOK(log: seq<Record>, checkpoint: nat, applied: nat, fences: set<nat>, nextPosition: nat) {
    && checkpoint < nextPosition && applied < nextPosition
    && Edge(log, checkpoint) && Edge(log, applied)
    && forall f :: f in fences ==> checkpoint < f < nextPosition && Edge(log, f - 1)
  }

  /** The frame being written is the end of the log, from index `start` on. */
  ghost predicate FrameOK(log: seq<Record>, fr: StagedCommit, start: nat) {
    && start < |log| && log[start] == Record(fr.begin, fr.tx, Begin) && fr.tx != 0
    && (forall i :: 0 <= i < start ==> log[i].tx != fr.tx)
    && (forall i :: start <= i < |log| ==> log[i].tx == fr.tx)
    && (forall i :: start < i < |log| - 1 ==> log[i].op.Mutate?)
    && (start < |log| - 1 ==>
          if fr.commit.Some? then log[|log| - 1] == Record(fr.commit.value, fr.tx, Commit)
          else log[|log| - 1].op.Mutate?)
    && (fr.commit.Some? ==> start < |log| - 1)
  }

  /** A key whose latest committed value storage may still owe is written above some fence. */
  ghost predicate Pinned(es: seq<Effect>, fences: set<nat>, key: Bytes) {
    exists i, f :: 0 <= i < |es| && es[i].m.key == key && f in fences && f < es[i].at
  }

  /** Memory holds every committed effect, but for keys pinned by a fence. */
  ghost predicate Steady(memory: State, truth: State, es: seq<Effect>, fences: set<nat>, lost: set<Bytes>) {
    forall k: Bytes :: k !in lost ==> Lookup(memory, k) == Lookup(truth, k) || Pinned(es, fences, k)
  }

  /** Storage agrees with the state at the checkpoint, but for keys the effects past it write. */
  ghost predicate Grounded(disk: State, base: State, es: seq<Effect>, lost: set<Bytes>) {
    forall k: Bytes :: k !in lost ==> Touches(es, k) || Lookup(disk, k) == Lookup(base, k)
  }

  /** Every effect above the noted position is pinned or lost. */
  ghost predicate Noted(es: seq<Effect>, applied: nat, fences: set<nat>, lost: set<Bytes>) {
    forall i :: 0 <= i < |es| ==> es[i].at <= applied || es[i].m.key in lost || Pinned(es, fences, es[i].m.key)
  }

  lemma LogFacts(log: seq<Record>, nextPosition: nat, nextTx: nat)
    requires LogOK(log, nextPosition, nextTx)
    ensures nextPosition > 0 && nextTx > 0 && Ascending(log) && Numbered(log) && Sound(log) && Serial(log)
    ensures forall i :: 0 <= i < |log| ==> log[i].position < nextPosition && log[i].tx < nextTx
  {
  }

  lemma EdgesFacts(log: seq<Record>, checkpoint: nat, applied: nat, fences: set<nat>, nextPosition: nat)
    requires EdgesOK(log, checkpoint, applied, fences, nextPosition)
    ensures checkpoint < nextPosition && applied < nextPosition
    ensures forall f :: f in fences ==> checkpoint < f < nextPosition
  {
  }

  // ---- one more record ----

  lemma LowStays(log: seq<Record>, r: Record, p: nat)
    requires Ascending(log + [r]) && p < r.position
    ensures Low(log + [r], p) == Low(log, p)
  {
    var n := Low(log, p);
    var all := log + [r];
    assert forall i :: 0 <= i < n ==> all[i] == log[i];
    assert n < |log| ==> all[n] == log[n];
    LowIs(all, p, n);
  }

  /** The records of `tx`, if any, all sit at index `from` or later. */
  ghost predicate From(log: seq<Record>, tx: nat, from: nat) {
    forall i :: 0 <= i < |log| && i < from ==> log[i].tx != tx
  }

  lemma ClearStays(log: seq<Record>, r: Record, n: nat)
    requires Clear(log, n)
    requires r.tx != 0 ==> From(log, r.tx, n)
    ensures Clear(log + [r], n)
  {
    var all := log + [r];
    forall i, j | 0 <= i < n <= j < |all| && all[i].tx == all[j].tx ensures all[i].tx == 0 {
      assert i < |log| ==> all[i] == log[i];
      assert j < |log| ==> all[j] == log[j];
    }
  }

  lemma EdgeStays(log: seq<Record>, r: Record, p: nat)
    requires Ascending(log + [r]) && p < r.position && Edge(log, p)
    requires r.tx != 0 ==> From(log, r.tx, Low(log, p))
    ensures Edge(log + [r], p)
  {
    LowStays(log, r, p);
    ClearStays(log, r, Low(log, p));
  }

  lemma EdgesStay(log: seq<Record>, r: Record, checkpoint: nat, applied: nat, fences: set<nat>, nextPosition: nat,
                  from: nat)
    requires EdgesOK(log, checkpoint, applied, fences, nextPosition)
    requires Ascending(log + [r]) && r.position == nextPosition
    requires r.tx != 0 ==> From(log, r.tx, from)
    requires from == |log| || (from < |log| && checkpoint < log[from].position && applied < log[from].position)
    requires from < |log| ==> forall f :: f in fences ==> f <= log[from].position
    ensures EdgesOK(log + [r], checkpoint, applied, fences, nextPosition + 1)
  {
    hide Edge;
    FromLow(log, r.tx, from, checkpoint);
    EdgeStays(log, r, checkpoint);
    FromLow(log, r.tx, from, applied);
    EdgeStays(log, r, applied);
    forall f | f in fences ensures Edge(log + [r], f - 1) {
      FromLow(log, r.tx, from, f - 1);
      EdgeStays(log, r, f - 1);
    }
  }

  lemma EdgesBurn(log: seq<Record>, checkpoint: nat, applied: nat, fences: set<nat>, nextPosition: nat, np: nat)
    requires EdgesOK(log, checkpoint, applied, fences, nextPosition) && nextPosition <= np
    ensures EdgesOK(log, checkpoint, applied, fences, np)
  {
  }

  /** A BEGIN of a fresh transaction starts a frame, and the fence at it is in front of an edge. */
  lemma FenceRaised(log: seq<Record>, r: Record, checkpoint: nat, applied: nat, fences: set<nat>, nextPosition: nat,
                    nextTx: nat)
    requires LogOK(log, nextPosition, nextTx) && EdgesOK(log, checkpoint, applied, fences, nextPosition)
    requires r == Record(nextPosition, nextTx, Begin)
    ensures Ascending(log + [r])
    ensures EdgesOK(log + [r], checkpoint, applied, fences + {nextPosition}, nextPosition + 1)
    ensures FrameOK(log + [r], StagedCommit(nextTx, nextPosition, None), |log|)
  {
    hide Sound, Serial, Edge;
    EdgesStay(log, r, checkpoint, applied, fences, nextPosition, |log|);
    var all := log + [r];
    LowIs(all, nextPosition - 1, |log|);
    ClearEnd(log);
    ClearStays(log, r, |log|);
    EdgeIs(all, nextPosition - 1, |log|);
  }

  lemma EdgeIs(log: seq<Record>, p: nat, n: nat)
    requires Low(log, p) == n && Clear(log, n)
    ensures Edge(log, p)
  {
  }

  lemma EdgesFewer(log: seq<Record>, checkpoint: nat, applied: nat, fences: set<nat>, fewer: set<nat>,
                   nextPosition: nat)
    requires EdgesOK(log, checkpoint, applied, fences, nextPosition) && fewer <= fences
    ensures EdgesOK(log, checkpoint, applied, fewer, nextPosition)
  {
  }

  /** The last record of a log is always an edge. */
  lemma EdgesNoted(log: seq<Record>, checkpoint: nat, applied: nat, fences: set<nat>, nextPosition: nat)
    requires EdgesOK(log, checkpoint, applied, fences, nextPosition)
    requires Ascending(log) && log != [] && log[|log| - 1].position < nextPosition
    ensures EdgesOK(log, checkpoint, log[|log| - 1].position, fences, nextPosition)
  {
    LowIs(log, log[|log| - 1].position, |log|);
    ClearEnd(log);
  }

  lemma FromLow(log: seq<Record>, tx: nat, from: nat, p: nat)
    requires from == |log| || (from < |log| && p < log[from].position)
    ensures tx != 0 && From(log, tx, from) ==> From(log, tx, Low(log, p))
  {
  }

  lemma SerialStays(log: seq<Record>, r: Record)
    requires Serial(log)
    requires r.tx != 0 ==> forall i :: 0 <= i < |log| && Closing(log[i]) ==> From(log, r.tx, i + 1)
    ensures Serial(log + [r])
  {
    hide Closing, Clear;
    var all := log + [r];
    forall i | 0 <= i < |all| && Closing(all[i]) ensures Clear(all, i + 1) {
      if i < |log| {
        assert all[i] == log[i];
        ClearStays(log, r, i + 1);
      } else {
        ClearEnd(all);
      }
    }
  }

  lemma ClearEnd(log: seq<Record>)
    ensures Clear(log, |log|) && Clear(log, 0)
  {
  }

  lemma SoundStays(log: seq<Record>, r: Record)
    requires Sound(log)
    requires r.tx == 0 ==> r.op.Mutate?
    requires r.tx != 0 ==> Judge(Project(log, r.tx) + [r]) != Malformed
    ensures Sound(log + [r])
  {
    hide Judge;
    var all := log + [r];
    assert all[..|log|] == log;
    forall tx: nat | tx != 0 ensures Judge(Project(all, tx)) != Malformed {
      assert Project(all, tx) == if r.tx == tx then Project(log, tx) + [r] else Project(log, tx);
    }
  }

  lemma LogStays(log: seq<Record>, r: Record, nextPosition: nat, nextTx: nat)
    requires LogOK(log, nextPosition, nextTx) && r.position == nextPosition && r.tx < nextTx
    requires Sound(log + [r]) && Serial(log + [r])
    ensures LogOK(log + [r], nextPosition + 1, nextTx)
  {
    hide Sound, Serial;
  }

  lemma LogBurns(log: seq<Record>, nextPosition: nat, nextTx: nat, np: nat, nt: nat)
    requires LogOK(log, nextPosition, nextTx) && nextPosition <= np && nextTx <= nt
    ensures LogOK(log, np, nt)
  {
    hide Sound, Serial;
  }

  /** The frame's own records, as its projection. */
  lemma FrameProject(log: seq<Record>, fr: StagedCommit, start: nat)
    requires FrameOK(log, fr, start)
    ensures Project(log, fr.tx) == log[start..]
    ensures Staged(log, fr.tx) == Staged(log[start..], fr.tx)
  {
    assert log == log[..start] + log[start..];
    ProjectConcat(log[..start], log[start..], fr.tx);
    ProjectNone(log[..start], fr.tx);
    ProjectAll(log[start..], fr.tx);
    StagedConcat(log[..start], log[start..], fr.tx);
    StagedNone(log[..start], fr.tx);
  }

  /** An uncommitted frame may take one more mutation, its COMMIT or an ABORT. */
  lemma FrameGrows(log: seq<Record>, fr: StagedCommit, start: nat, r: Record)
    requires FrameOK(log, fr, start) && fr.commit.None? && Sound(log) && Serial(log)
    requires r.tx == fr.tx && !r.op.Begin?
    ensures Sound(log + [r]) && Serial(log + [r])
  {
    FrameProject(log, fr, start);
    FrameTakes(log[start..], r);
    SoundStays(log, r);
    forall i | 0 <= i < |log| && Closing(log[i]) ensures From(log, r.tx, i + 1) {}
    SerialStays(log, r);
  }

  lemma FrameTakes(f: seq<Record>, r: Record)
    requires |f| > 0 && f[0].op.Begin? && !r.op.Begin?
    requires forall i :: 0 < i < |f| ==> f[i].op.Mutate?
    ensures Judge(f + [r]) != Malformed
  {
    var g := f + [r];
    assert g[1..|g| - 1] == f[1..];
  }

  /** A fresh transaction's BEGIN, or a standalone mutation, extends a log with no open frame. */
  lemma FreshGrows(log: seq<Record>, nextPosition: nat, nextTx: nat, r: Record)
    requires LogOK(log, nextPosition, nextTx)
    requires if r.tx == 0 then r.op.Mutate? else r.tx == nextTx && r.op.Begin?
    ensures Sound(log + [r]) && Serial(log + [r])
  {
    if r.tx != 0 { ProjectNone(log, r.tx); }
    assert [] + [r] == [r];
    SoundStays(log, r);
    SerialStays(log, r);
  }

  /** Appending one of a frame's records keeps the log and its edges. */
  lemma FrameAppends(log: seq<Record>, fr: StagedCommit, start: nat, r: Record,
                     checkpoint: nat, applied: nat, fences: set<nat>, nextPosition: nat, nextTx: nat)
    requires LogOK(log, nextPosition, nextTx) && EdgesOK(log, checkpoint, applied, fences, nextPosition)
    requires FrameOK(log, fr, start) && fr.commit.None? && fr.tx < nextTx
    requires checkpoint < fr.begin && applied < fr.begin && forall f :: f in fences ==> f <= fr.begin
    requires r.position == nextPosition && r.tx == fr.tx && !r.op.Begin?
    ensures LogOK(log + [r], nextPosition + 1, nextTx)
    ensures EdgesOK(log + [r], checkpoint, applied, fences, nextPosition + 1)
    ensures r.op.Mutate? ==> FrameOK(log + [r], fr, start)
    ensures r.op.Commit? ==> FrameOK(log + [r], fr.(commit := Some(r.position)), start)
  {
    hide Sound, Serial, Edge;
    FrameGrows(log, fr, start, r);
    LogStays(log, r, nextPosition, nextTx);
    EdgesStay(log, r, checkpoint, applied, fences, nextPosition, start);
  }

  /** A frame's mutations all lie past the checkpoint. */
  lemma StagedTail(log: seq<Record>, fr: StagedCommit, start: nat, checkpoint: nat)
    requires Ascending(log) && FrameOK(log, fr, start) && checkpoint < fr.begin
    ensures Staged(Suffix(log, checkpoint), fr.tx) == Staged(log, fr.tx)
    ensures Low(log, checkpoint) <= start
  {
    var n := Low(log, checkpoint);
    LowBefore(log, checkpoint, start);
    SuffixSlice(log, checkpoint);
    assert log == log[..n] + log[n..];
    StagedConcat(log[..n], log[n..], fr.tx);
    StagedNone(log[..n], fr.tx);
    assert [] + Staged(log[n..], fr.tx) == Staged(log[n..], fr.tx);
  }

  lemma SuffixStays(log: seq<Record>, r: Record, checkpoint: nat)
    requires r.position > checkpoint
    ensures Suffix(log + [r], checkpoint) == Suffix(log, checkpoint) + [r]
  {
    SuffixConcat(log, [r], checkpoint);
    SuffixAll([r], checkpoint);
  }

  lemma EffectsStay(tail: seq<Record>, r: Record)
    ensures Effects(tail + [r]) == Effects(tail) + Gain(tail, r)
    ensures r.tx != 0 && !r.op.Commit? ==> Effects(tail + [r]) == Effects(tail)
  {
    assert (tail + [r])[..|tail|] == tail;
    assert Effects(tail) + [] == Effects(tail);
  }

  // ---- consequences of a fence ----

  lemma PinnedTouches(es: seq<Effect>, fences: set<nat>, key: Bytes)
    requires Pinned(es, fences, key)
    ensures Touches(es, key)
  {
  }

  lemma PinnedGrows(es: seq<Effect>, more: seq<Effect>, fences: set<nat>, wider: set<nat>, key: Bytes)
    requires Pinned(es, fences, key) && fences <= wider
    ensures Pinned(es + more, wider, key)
  {
    var i, f :| 0 <= i < |es| && es[i].m.key == key && f in fences && f < es[i].at;
    assert (es + more)[i] == es[i];
  }

  lemma Wider(memory: State, truth: State, es: seq<Effect>, applied: nat, fences: set<nat>, wider: set<nat>,
              lost: set<Bytes>)
    requires Steady(memory, truth, es, fences, lost) && Noted(es, applied, fences, lost) && fences <= wider
    ensures Steady(memory, truth, es, wider, lost) && Noted(es, applied, wider, lost)
  {
    forall k: Bytes | Pinned(es, fences, k) ensures Pinned(es, wider, k) {
      PinnedGrows(es, [], fences, wider, k);
      assert es + [] == es;
    }
  }

  // ---- effects of the open frame ----

  lemma LowBefore(log: seq<Record>, p: nat, i: nat)
    requires i < |log| && p < log[i].position
    ensures Low(log, p) <= i
  {
  }

  /** An uncommitted frame has no effect: everything visible lies before its BEGIN. */
  lemma QuietFrame(log: seq<Record>, fr: StagedCommit, start: nat, n: nat)
    requires Ascending(log) && FrameOK(log, fr, start) && fr.commit.None? && n <= start
    ensures forall i :: 0 <= i < |Effects(log[n..])| ==> Effects(log[n..])[i].at < fr.begin
  {
    hide Effects;
    forall i | 0 <= i < |Effects(log[n..])| ensures Effects(log[n..])[i].at < fr.begin {
      var j := EffectsPosition(log[n..], i);
      assert log[n..][j] == log[n + j];
    }
  }

  /** A committed frame's effects are its staged mutations, after everything else visible. */
  lemma LoudFrame(log: seq<Record>, fr: StagedCommit, start: nat, n: nat) returns (front: seq<Effect>)
    requires Ascending(log) && FrameOK(log, fr, start) && fr.commit.Some? && n <= start
    ensures Effects(log[n..]) == front + Stamp(fr.commit.value, Staged(log, fr.tx))
    ensures forall i :: 0 <= i < |front| ==> front[i].at < fr.begin
    ensures fr.begin < fr.commit.value
  {
    var open, last := log[..|log| - 1], log[|log| - 1];
    front := Effects(open[n..]);
    QuietFrame(open, fr.(commit := None), start, n);
    assert log[n..] == open[n..] + [last];
    EffectsStay(open[n..], last);
    assert open == open[..n] + open[n..];
    StagedConcat(open[..n], open[n..], fr.tx);
    StagedNone(open[..n], fr.tx);
    assert [] + Staged(open[n..], fr.tx) == Staged(open[n..], fr.tx);
  }

  lemma StampTouches(a: nat, b: nat, ms: seq<Mutation>, key: Bytes)
    requires Touches(Stamp(a, ms), key)
    ensures Touches(Stamp(b, ms), key)
  {
    var i :| 0 <= i < |ms| && Stamp(a, ms)[i].m.key == key;
    assert Stamp(b, ms)[i].m.key == key;
  }

  /** Where effects are stamped does not change the state they make. */
  lemma {:induction false} StampFold(s: State, a: nat, b: nat, ms: seq<Mutation>)
    ensures Fold(s, Stamp(a, ms)) == Fold(s, Stamp(b, ms))
  {
    if ms != [] {
      var front, last := ms[..|ms| - 1], ms[|ms| - 1];
      StampFold(s, a, b, front);
      assert Stamp(a, ms)[..|ms| - 1] == Stamp(a, front);
      assert Stamp(b, ms)[..|ms| - 1] == Stamp(b, front);
    }
  }

  // ---- what commit, settle and advance do to the invariants ----

  /** New effects above a fence leave memory steady without being applied. */
  lemma SteadyGrows(memory: State, base: State, es: seq<Effect>, more: seq<Effect>,
                    fences: set<nat>, lost: set<Bytes>, f: nat)
    requires Steady(memory, Fold(base, es), es, fences, lost)
    requires f in fences && forall i :: 0 <= i < |more| ==> f < more[i].at
    ensures Steady(memory, Fold(base, es + more), es + more, fences, lost)
  {
    hide Fold, Pinned;
    FoldConcat(base, es, more);
    forall k: Bytes | k !in lost
      ensures Lookup(memory, k) == Lookup(Fold(base, es + more), k) || Pinned(es + more, fences, k)
    {
      FoldAt(Fold(base, es), map[], more, k);
      if Touches(more, k) {
        FencePins(es, more, fences, f, k);
      } else if Pinned(es, fences, k) {
        PinnedGrows(es, more, fences, fences, k);
      }
    }
  }

  lemma FencePins(es: seq<Effect>, more: seq<Effect>, fences: set<nat>, f: nat, key: Bytes)
    requires f in fences && Touches(more, key) && forall i :: 0 <= i < |more| ==> f < more[i].at
    ensures Pinned(es + more, fences, key)
  {
    var i :| 0 <= i < |more| && more[i].m.key == key;
    assert (es + more)[|es| + i] == more[i];
  }

  lemma GroundedGrows(disk: State, base: State, es: seq<Effect>, more: seq<Effect>, lost: set<Bytes>)
    requires Grounded(disk, base, es, lost)
    ensures Grounded(disk, base, es + more, lost)
  {
    forall k: Bytes { TouchesConcat(es, more, k); }
  }

  lemma NotedGrows(es: seq<Effect>, more: seq<Effect>, applied: nat, fences: set<nat>, lost: set<Bytes>, f: nat)
    requires Noted(es, applied, fences, lost)
    requires f in fences && forall i :: 0 <= i < |more| ==> f < more[i].at
    ensures Noted(es + more, applied, fences, lost)
  {
    hide Pinned;
    var all := es + more;
    forall i | 0 <= i < |all|
      ensures all[i].at <= applied || all[i].m.key in lost || Pinned(all, fences, all[i].m.key)
    {
      if i < |es| {
        assert all[i] == es[i];
        if Pinned(es, fences, es[i].m.key) { PinnedGrows(es, more, fences, fences, es[i].m.key); }
      } else {
        assert all[i] == more[i - |es|];
        FencePins(es, more, fences, f, all[i].m.key);
      }
    }
  }

  /** Releasing a fence above which nothing, or only applied effects, lie. */
  lemma SteadyReleased(memory: State, base: State, front: seq<Effect>, last: seq<Effect>,
                       fences: set<nat>, lost: set<Bytes>, f: nat)
    requires Steady(memory, Fold(base, front + last), front + last, fences, lost)
    requires forall i :: 0 <= i < |front| ==> front[i].at < f
    requires forall k: Bytes :: Touches(last, k) ==> Lookup(memory, k) == Lookup(Fold(map[], last), k)
    ensures Steady(memory, Fold(base, front + last), front + last, fences - {f}, lost)
  {
    hide Fold;
    FoldConcat(base, front, last);
    var es := front + last;
    forall k: Bytes | k !in lost
      ensures Lookup(memory, k) == Lookup(Fold(base, es), k) || Pinned(es, fences - {f}, k)
    {
      FoldAt(Fold(base, front), map[], last, k);
      if !Touches(last, k) && Pinned(es, fences, k) { PinnedElsewhere(front, last, fences, f, k); }
    }
  }

  lemma AtLast(front: seq<Effect>, last: seq<Effect>, i: nat)
    requires |front| <= i < |front + last|
    ensures Touches(last, (front + last)[i].m.key)
  {
    assert last[i - |front|] == (front + last)[i];
  }

  lemma PinnedElsewhere(front: seq<Effect>, last: seq<Effect>, fences: set<nat>, f: nat, key: Bytes)
    requires Pinned(front + last, fences, key) && !Touches(last, key)
    requires forall i :: 0 <= i < |front| ==> front[i].at < f
    ensures Pinned(front + last, fences - {f}, key)
  {
    var es := front + last;
    var i, g :| 0 <= i < |es| && es[i].m.key == key && g in fences && g < es[i].at;
    if i < |front| {
      assert es[i] == front[i];
      assert g in fences - {f};
    } else {
      AtLast(front, last, i);
    }
  }

  lemma NotedReleased(front: seq<Effect>, last: seq<Effect>, applied: nat, top: nat,
                      fences: set<nat>, lost: set<Bytes>, f: nat)
    requires Noted(front + last, applied, fences, lost) && applied <= top
    requires forall i :: 0 <= i < |front| ==> front[i].at < f
    requires forall i :: 0 <= i < |last| ==> last[i].at <= top
    requires last != [] ==> f <= top
    ensures Noted(front + last, top, fences - {f}, lost)
  {
    var es := front + last;
    forall i | 0 <= i < |es|
      ensures es[i].at <= top || es[i].m.key in lost || Pinned(es, fences - {f}, es[i].m.key)
    {
      var k := es[i].m.key;
      if i < |front| {
        assert es[i] == front[i];
        if Pinned(es, fences, k) && !Touches(last, k) { PinnedElsewhere(front, last, fences, f, k); }
      } else {
        assert es[i] == last[i - |front|];
      }
    }
  }

  /** Effects at or below a new checkpoint pin nothing the fences above it protect. */
  lemma PinnedPast(early: seq<Effect>, late: seq<Effect>, fences: set<nat>, c: nat, key: Bytes)
    requires Pinned(early + late, fences, key)
    requires forall i :: 0 <= i < |early| ==> early[i].at <= c
    requires forall f :: f in fences ==> c < f
    ensures Pinned(late, fences, key)
  {
    var es := early + late;
    var i, f :| 0 <= i < |es| && es[i].m.key == key && f in fences && f < es[i].at;
    assert es[i] == late[i - |early|];
  }

  /** Moving the checkpoint over effects that are all in memory and in storage. */
  lemma AdvancedSteady(memory: State, base: State, early: seq<Effect>, late: seq<Effect>,
                       fences: set<nat>, lost: set<Bytes>, c: nat)
    requires Steady(memory, Fold(base, early + late), early + late, fences, lost)
    requires forall i :: 0 <= i < |early| ==> early[i].at <= c
    requires forall f :: f in fences ==> c < f
    ensures Steady(memory, Fold(base, early + late), late, fences, lost)
  {
    hide Fold, Pinned, Touches, Lookup;
    forall k: Bytes | k !in lost
      ensures Lookup(memory, k) == Lookup(Fold(base, early + late), k) || Pinned(late, fences, k)
    {
      AdvancedAt(memory, base, early, late, fences, c, k);
    }
  }

  lemma AdvancedGrounded(memory: State, base: State, early: seq<Effect>, late: seq<Effect>,
                         fences: set<nat>, lost: set<Bytes>, c: nat)
    requires Steady(memory, Fold(base, early + late), early + late, fences, lost)
    requires forall i :: 0 <= i < |early| ==> early[i].at <= c
    requires forall f :: f in fences ==> c < f
    ensures Grounded(memory, Fold(base, early), late, lost)
  {
    hide Fold, Pinned, Touches, Lookup;
    forall k: Bytes | k !in lost
      ensures Touches(late, k) || Lookup(memory, k) == Lookup(Fold(base, early), k)
    {
      AdvancedAt(memory, base, early, late, fences, c, k);
    }
  }

  lemma AdvancedAt(memory: State, base: State, early: seq<Effect>, late: seq<Effect>,
                   fences: set<nat>, c: nat, key: Bytes)
    requires Lookup(memory, key) == Lookup(Fold(base, early + late), key) || Pinned(early + late, fences, key)
    requires forall i :: 0 <= i < |early| ==> early[i].at <= c
    requires forall f :: f in fences ==> c < f
    ensures Lookup(memory, key) == Lookup(Fold(base, early + late), key) || Pinned(late, fences, key)
    ensures Touches(late, key) || Lookup(memory, key) == Lookup(Fold(base, early), key)
  {
    hide Fold, Pinned, Touches, Lookup;
    FoldConcat(base, early, late);
    FoldAt(Fold(base, early), map[], late, key);
    if Pinned(early + late, fences, key) {
      PinnedPast(early, late, fences, c, key);
      PinnedTouches(late, fences, key);
    }
  }

  lemma NotedPast(early: seq<Effect>, late: seq<Effect>, applied: nat, fences: set<nat>, lost: set<Bytes>, c: nat)
    requires Noted(early + late, applied, fences, lost)
    requires forall i :: 0 <= i < |early| ==> early[i].at <= c
    requires forall f :: f in fences ==> c < f
    ensures Noted(late, applied, fences, lost)
  {
    hide Pinned;
    forall i | 0 <= i < |late|
      ensures late[i].at <= applied || late[i].m.key in lost || Pinned(late, fences, late[i].m.key)
    {
      assert (early + late)[|early| + i] == late[i];
      if Pinned(early + late, fences, late[i].m.key) { PinnedPast(early, late, fences, c, late[i].m.key); }
    }
  }

  /** The effects past two checkpoints, one above the other. */
  lemma EffectsBetween(log: seq<Record>, c: nat, d: nat) returns (early: seq<Effect>)
    requires Ascending(log) && c <= d && Edge(log, d)
    ensures Effects(Suffix(log, c)) == early + Effects(Suffix(log, d))
    ensures forall i :: 0 <= i < |early| ==> early[i].at <= d
  {
    hide Effects, Suffix, Clear;
    var n, m := Low(log, c), Low(log, d);
    SuffixSlice(log, c);
    SuffixSlice(log, d);
    LowOrder(log, c, d);
    var mid := log[n..m];
    assert log[n..] == mid + log[m..];
    ClearSlice(log, n, m);
    EffectsConcat(mid, log[m..]);
    early := Effects(mid);
    EffectsUpTo(log, n, m, d);
  }

  lemma EffectsUpTo(log: seq<Record>, n: nat, m: nat, d: nat)
    requires n <= m <= |log| && forall i :: 0 <= i < m ==> log[i].position <= d
    ensures forall i :: 0 <= i < |Effects(log[n..m])| ==> Effects(log[n..m])[i].at <= d
  {
    hide Effects;
    var mid := log[n..m];
    forall i | 0 <= i < |Effects(mid)| ensures Effects(mid)[i].at <= d {
      var j := EffectsPosition(mid, i);
      assert mid[j] == log[n + j];
    }
  }

  lemma LowOrder(log: seq<Record>, c: nat, d: nat)
    requires c <= d
    ensures Low(log, c) <= Low(log, d)
  {
  }

  lemma ClearSlice(log: seq<Record>, n: nat, m: nat)
    requires n <= m <= |log| && Clear(log, m)
    ensures Clear(log[n..m] + log[m..], m - n)
  {
    var s := log[n..m] + log[m..];
    forall i, j | 0 <= i < m - n <= j < |s| && s[i].tx == s[j].tx ensures s[i].tx == 0 {
      assert s[i] == log[n + i] && s[j] == log[n + j];
    }
  }

  // ---- cutting the log ----

  lemma {:induction false} EffectsFront(log: seq<Record>, n: nat)
    requires n <= |log|
    ensures Effects(log[..n]) <= Effects(log)
  {
    if n < |log| {
      EffectsFront(log[..|log| - 1], n);
      assert log[..|log| - 1][..n] == log[..n];
    } else {
      assert log[..n] == log;
    }
  }

  /** A shorter surviving log keeps a prefix of the effects past the checkpoint. */
  lemma SurvivorsGrow(log: seq<Record>, c: nat, a: nat, b: nat)
    requires a <= b <= |log|
    ensures Effects(Suffix(log[..a], c)) <= Effects(Suffix(log[..b], c))
  {
    hide Effects, Suffix;
    assert log[..b] == log[..a] + log[a..b];
    SuffixConcat(log[..a], log[a..b], c);
    var s, t := Suffix(log[..a], c), Suffix(log[..b], c);
    assert t[..|s|] == s;
    EffectsFront(t, |s|);
  }

  lemma LogCut(log: seq<Record>, n: nat, nextPosition: nat, nextTx: nat)
    requires LogOK(log, nextPosition, nextTx) && n <= |log|
    ensures LogOK(log[..n], nextPosition, nextTx)
  {
    hide Sound, Serial;
    SoundFront(log, n);
    SerialFront(log, n);
  }

  lemma SerialFront(log: seq<Record>, n: nat)
    requires n <= |log| && Serial(log)
    ensures Serial(log[..n])
  {
    forall i | 0 <= i < n && Closing(log[..n][i]) ensures Clear(log[..n], i + 1) {
      assert Closing(log[i]);
      ClearFirst(log, n, i + 1);
    }
  }

  lemma ClearFirst(log: seq<Record>, n: nat, m: nat)
    requires n <= |log| && Clear(log, m)
    ensures Clear(log[..n], m)
  {
    forall i, j | 0 <= i < m <= j < n && log[..n][i].tx == log[..n][j].tx ensures log[..n][i].tx == 0 {
      assert log[i].tx == log[j].tx;
    }
  }

  lemma EdgeCut(log: seq<Record>, n: nat, p: nat)
    requires Ascending(log) && n <= |log| && Edge(log, p)
    ensures Edge(log[..n], p)
  {
    var m := Low(log, p);
    if m <= n {
      LowIs(log[..n], p, m);
      ClearFirst(log, n, m);
    } else {
      LowIs(log[..n], p, n);
      ClearEnd(log[..n]);
    }
  }

  /** Rotation drops the records at or below the checkpoint and no others. */
  lemma LogRotates(log: seq<Record>, c: nat, nextPosition: nat, nextTx: nat)
    requires LogOK(log, nextPosition, nextTx) && Edge(log, c)
    ensures LogOK(Suffix(log, c), nextPosition, nextTx)
    ensures Suffix(Suffix(log, c), c) == Suffix(log, c)
  {
    hide Sound, Serial, Suffix;
    SuffixSlice(log, c);
    LowAbove(log, c);
    var n := Low(log, c);
    SuffixAll(log[n..], c);
    SoundPast(log, n);
    SerialPast(log, n);
  }

  lemma SerialPast(log: seq<Record>, n: nat)
    requires n <= |log| && Serial(log)
    ensures Serial(log[n..])
  {
    forall i | 0 <= i < |log| - n && Closing(log[n..][i]) ensures Clear(log[n..], i + 1) {
      assert Closing(log[n + i]);
      ClearDrop(log, n, n + i + 1);
    }
  }

  lemma ClearDrop(log: seq<Record>, n: nat, m: nat)
    requires n <= m && n <= |log| && Clear(log, m)
    ensures Clear(log[n..], m - n)
  {
    var s := log[n..];
    forall i, j | 0 <= i < m - n <= j < |s| && s[i].tx == s[j].tx ensures s[i].tx == 0 {
      assert s[i] == log[n + i] && s[j] == log[n + j];
    }
  }

  lemma EdgeRotates(log: seq<Record>, c: nat, p: nat)
    requires Ascending(log) && Edge(log, p)
    ensures Edge(Suffix(log, c), p)
  {
    hide Suffix;
    SuffixSlice(log, c);
    LowAbove(log, c);
    var n, m, s := Low(log, c), Low(log, p), Suffix(log, c);
    if n <= m {
      LowIs(s, p, m - n);
      ClearDrop(log, n, m);
    } else {
      LowIs(s, p, 0);
      ClearEnd(s);
    }
  }
}
