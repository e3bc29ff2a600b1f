/** What clients of an earlier process can rely on after a restart: one counter numbers records
    and events, and recovery restores it from the log and the checkpoint only. */
module Restarts {
  import opened Audiences
  import opened Entries
  import opened Frames
  import opened ChangeLog
  import opened Changes
  import opened Rotation
  import opened ChangeTheorems
  import Feed

  function PositionsOf(log: seq<LogRecord>): (ps: seq<nat>)
    ensures |ps| == |log| && forall i :: 0 <= i < |log| ==> ps[i] == log[i].position
  {
    seq(|log|, i requires 0 <= i < |log| => log[i].position)
  }

  function SequencesOf(log: seq<LogRecord>): (ps: seq<nat>)
    ensures |ps| == |log| && forall i :: 0 <= i < |log| ==> ps[i] == log[i].sequence
  {
    seq(|log|, i requires 0 <= i < |log| => log[i].sequence)
  }

  /** What a new process may append to the file it found: the counters restart one past the
      checkpoint and the file, and the feed takes the first position. */
  ghost predicate Appended(checkpoint: nat, kept: seq<LogRecord>, more: seq<LogRecord>) {
    forall i :: 0 <= i < |more| ==>
      && more[i].position > Feed.Restored(checkpoint, PositionsOf(kept))
      && more[i].sequence >= Feed.Restored(checkpoint, SequencesOf(kept))
  }

  // ---- new records ----

  /** A client at position `p` is refused, or a scan from there covers every new record. */
  ghost predicate Resumes(kept: seq<LogRecord>, more: seq<LogRecord>, scanHorizon: nat, p: nat) {
    p < Horizon(kept + more, scanHorizon) || RecordsPast(kept + more, p) == RecordsPast(kept, p) + more
  }

  /** Exactly when: the position lies strictly below the first new record's. */
  lemma ResumeExact(kept: seq<LogRecord>, more: seq<LogRecord>, scanHorizon: nat, p: nat)
    requires PositionsAscend(kept + more)
    ensures Resumes(kept, more, scanHorizon, p) <==> more == [] || p < more[0].position
  {
    hide RecordsPast;
    RecordsConcat(kept, more, p);
    if more != [] {
      assert (kept + more)[|kept|] == more[0];
      if p < more[0].position {
        forall i | 0 <= i < |more| ensures more[i].position > p { assert (kept + more)[|kept| + i] == more[i]; }
        RecordsAll(more, p);
      } else {
        HorizonAt(kept, more, scanHorizon);
        FirstMissing(more, p);
      }
    } else {
      RecordsAll(more, p);
    }
  }

  lemma HorizonAt(kept: seq<LogRecord>, more: seq<LogRecord>, scanHorizon: nat)
    requires more != [] && PositionsAscend(kept + more)
    ensures Horizon(kept + more, scanHorizon) <= more[0].position
  {
    assert (kept + more)[|kept|] == more[0];
  }

  lemma {:induction false} RecordsAll(log: seq<LogRecord>, after: nat)
    requires forall i :: 0 <= i < |log| ==> log[i].position > after
    ensures RecordsPast(log, after) == log
  {
    if log != [] { RecordsAll(log[1..], after); }
  }

  lemma {:induction false} RecordsFewer(log: seq<LogRecord>, after: nat)
    ensures |RecordsPast(log, after)| <= |log|
  {
    if log != [] { RecordsFewer(log[1..], after); }
  }

  lemma FirstMissing(log: seq<LogRecord>, after: nat)
    requires log != [] && log[0].position <= after
    ensures |RecordsPast(log, after)| < |log|
  {
    RecordsFewer(log[1..], after);
  }

  /** The same for one viewer's changes: the position lies strictly below the first change the new
      records show. */
  lemma ViewerResumes(kept: seq<LogRecord>, more: seq<LogRecord>, scanHorizon: nat, p: nat, who: Viewer)
    requires PositionsAscend(kept + more) && Cut(kept + more, |kept|)
    ensures (p < Horizon(kept + more, scanHorizon)
             || After(Settled(kept + more, who), p) == After(Settled(kept, who), p) + Settled(more, who))
            <==> (Settled(more, who) == [] || p < Settled(more, who)[0].at)
  {
    hide Settled, After, Cut, Horizon;
    var a, b := Settled(kept, who), Settled(more, who);
    SettledSplit(kept, more, who);
    AfterConcat(a, b, p);
    AscendTail(kept, more);
    SettledAscends(more, who);
    if b == [] {
      AfterNone(b, p);
    } else {
      HorizonAt(kept, more, scanHorizon);
      var n := AfterSuffix(b, p);
      if p < b[0].at {
        assert n == 0;
        assert b[0..] == b;
      } else {
        assert |After(b, p)| < |b|;
        assert |After(a + b, p)| < |After(a, p) + b|;
      }
    }
  }

  lemma AscendTail(kept: seq<LogRecord>, more: seq<LogRecord>)
    requires PositionsAscend(kept + more)
    ensures PositionsAscend(more)
  {
    assert forall i :: 0 <= i < |more| ==> more[i] == (kept + more)[|kept| + i];
  }

  /** Whatever the new process appends, a client at a position handed out before is refused or
      sees all of it, if and only if that position is at most the restored counter. */
  lemma RestartResumes(checkpoint: nat, kept: seq<LogRecord>, scanHorizon: nat, p: nat)
    ensures (forall more :: Appended(checkpoint, kept, more) ==> Resumes(kept, more, scanHorizon, p))
            <==> p <= Feed.Restored(checkpoint, PositionsOf(kept))
  {
    hide RecordsPast, Feed.Restored, PositionsOf, SequencesOf;
    var at := Feed.Restored(checkpoint, PositionsOf(kept));
    if p <= at {
      forall more | Appended(checkpoint, kept, more) ensures Resumes(kept, more, scanHorizon, p) {
        RecordsConcat(kept, more, p);
        RecordsAll(more, p);
      }
    } else {
      var least := LogRecord(Feed.Restored(checkpoint, SequencesOf(kept)), at + 1, 0, Other);
      assert Appended(checkpoint, kept, [least]);
      RecordsConcat(kept, [least], p);
      FirstMissing([least], p);
      LeastServed(checkpoint, kept, least, scanHorizon, p);
      assert |RecordsPast(kept + [least], p)| < |RecordsPast(kept, p) + [least]|;
    }
  }

  lemma LeastServed(checkpoint: nat, kept: seq<LogRecord>, least: LogRecord, scanHorizon: nat, p: nat)
    requires least.position == Feed.Restored(checkpoint, PositionsOf(kept)) + 1 <= p
    ensures p >= Horizon(kept + [least], scanHorizon)
  {
    hide Feed.Restored;
    if kept == [] { assert kept + [least] == [least]; } else { assert (kept + [least])[0] == kept[0]; }
  }

  /** On an emptied log: every dropped position is at most one past the checkpoint. */
  lemma EmptiedResumes(dropped: seq<LogRecord>, checkpoint: nat, scanHorizon: nat)
    ensures (forall i, more :: 0 <= i < |dropped| && Appended(checkpoint, [], more) ==>
                                 Resumes([], more, scanHorizon, dropped[i].position))
            <==> AllBelow(dropped, checkpoint + 1)
  {
    hide Appended, Resumes;
    assert PositionsOf([]) == [];
    forall i | 0 <= i < |dropped|
      ensures (forall more :: Appended(checkpoint, [], more) ==> Resumes([], more, scanHorizon, dropped[i].position))
              <==> dropped[i].position <= checkpoint + 1
    {
      RestartResumes(checkpoint, [], scanHorizon, dropped[i].position);
    }
  }

  /** The feed shares the counter, and the condition: from a position handed out before, every
      resume of the new feed is refused or covers every event it has emitted, if and only if the
      position is at most the restored counter. */
  lemma FeedResumes(checkpoint: nat, kept: seq<LogRecord>, p: nat)
    ensures var start := Feed.Restored(checkpoint, PositionsOf(kept));
            (forall later :: Feed.Continues([], start + 1, later) ==>
                               p < Feed.Edge(later, start) || Feed.Past(later, p) == later)
            <==> p <= start
  {
    Feed.OldPosition(Feed.Restored(checkpoint, PositionsOf(kept)), p);
  }

  /** A restart after which nothing dropped is lost to a served scan and nothing new is hidden from
      a client of the earlier process. */
  ghost predicate Safe(dropped: seq<LogRecord>, kept: seq<LogRecord>, more: seq<LogRecord>, scanHorizon: nat,
                       handed: seq<nat>) {
    && AllBelow(dropped, Horizon(kept + more, scanHorizon))
    && forall i :: 0 <= i < |handed| ==> Resumes(kept, more, scanHorizon, handed[i])
  }

  /** Every restart is safe for the positions handed out before, those of dropped records and of
      events among them, if and only if they are all at most the restored counter. */
  lemma RestartSafe(dropped: seq<LogRecord>, checkpoint: nat, kept: seq<LogRecord>, scanHorizon: nat, handed: seq<nat>)
    requires forall i :: 0 <= i < |dropped| ==> dropped[i].position in handed
    requires dropped != [] ==> checkpoint > 0
    requires kept != [] ==> AllBelow(dropped, Horizon(kept, scanHorizon))
    ensures (forall more :: more != [] && Appended(checkpoint, kept, more) ==>
                              Safe(dropped, kept, more, scanHorizon, handed))
            <==> forall i :: 0 <= i < |handed| ==> handed[i] <= Feed.Restored(checkpoint, PositionsOf(kept))
  {
    hide RecordsPast, Feed.Restored, PositionsOf, SequencesOf, Horizon, Appended, Resumes;
    var at := Feed.Restored(checkpoint, PositionsOf(kept));
    forall i | 0 <= i < |handed|
      ensures (forall more :: Appended(checkpoint, kept, more) ==> Resumes(kept, more, scanHorizon, handed[i]))
              <==> handed[i] <= at
    {
      RestartResumes(checkpoint, kept, scanHorizon, handed[i]);
      NothingNew(kept, scanHorizon, handed[i]);
    }
    if forall i :: 0 <= i < |handed| ==> handed[i] <= at {
      forall more | more != [] && Appended(checkpoint, kept, more)
        ensures AllBelow(dropped, Horizon(kept + more, scanHorizon))
      {
        HorizonAfter(dropped, checkpoint, kept, more, scanHorizon);
      }
    }
    if forall more :: more != [] && Appended(checkpoint, kept, more) ==>
         Safe(dropped, kept, more, scanHorizon, handed) {
      forall i, more | 0 <= i < |handed| && Appended(checkpoint, kept, more)
        ensures Resumes(kept, more, scanHorizon, handed[i])
      {
        if more == [] { NothingNew(kept, scanHorizon, handed[i]); }
      }
    }
  }

  lemma NothingNew(kept: seq<LogRecord>, scanHorizon: nat, p: nat)
    ensures Resumes(kept, [], scanHorizon, p)
  {
    hide RecordsPast;
    assert kept + [] == kept && RecordsPast(kept, p) + [] == RecordsPast(kept, p);
  }

  lemma HorizonAfter(dropped: seq<LogRecord>, checkpoint: nat, kept: seq<LogRecord>, more: seq<LogRecord>,
                     scanHorizon: nat)
    requires more != [] && Appended(checkpoint, kept, more) && (dropped != [] ==> checkpoint > 0)
    requires AllBelow(dropped, Feed.Restored(checkpoint, PositionsOf(kept)))
    requires kept != [] ==> AllBelow(dropped, Horizon(kept, scanHorizon))
    ensures AllBelow(dropped, Horizon(kept + more, scanHorizon))
  {
    hide Feed.Restored;
    if kept != [] { assert (kept + more)[0] == kept[0]; } else { assert kept + more == more; }
  }

  /** After such a restart the chained pages of `ChangeTheorems.ChainExact` go on. */
  lemma RestartTidy(k: Kept, checkpoint: nat, more: seq<LogRecord>, scanHorizon: nat)
    requires Tidy(k) && Appended(checkpoint, k.log, more) && (k.gone != [] ==> checkpoint > 0)
    requires AllBelow(k.gone, Feed.Restored(checkpoint, PositionsOf(k.log)))
    requires PositionsAscend(more) && k.log + more != []
    requires var full := k.Full() + more;
             Contiguous(full) && Sound(AsWalAll(full)) && Sequenced(full) && Cut(full, |k.gone|)
    ensures Tidy(Kept(k.gone, k.log + more, scanHorizon)) && k.Full() <= Kept(k.gone, k.log + more, scanHorizon).Full()
  {
    hide Feed.Restored, Contiguous, Sound, Sequenced, Cut;
    var t := Kept(k.gone, k.log + more, scanHorizon);
    assert t.Full() == k.Full() + more;
    if more == [] {
      assert t.log == k.log;
    } else {
      SameHorizon(k.log, k.scanHorizon, scanHorizon);
      HorizonAfter(k.gone, checkpoint, k.log, more, scanHorizon);
    }
    FreshAscends(k, checkpoint, more);
  }

  lemma SameHorizon(log: seq<LogRecord>, a: nat, b: nat)
    ensures log != [] ==> Horizon(log, a) == Horizon(log, b)
  {
  }

  lemma FreshAscends(k: Kept, checkpoint: nat, more: seq<LogRecord>)
    requires PositionsAscend(k.Full()) && PositionsAscend(more) && Appended(checkpoint, k.log, more)
    requires AllBelow(k.gone, Feed.Restored(checkpoint, PositionsOf(k.log)))
    ensures PositionsAscend(k.Full() + more)
  {
    hide Feed.Restored;
    var at, all := Feed.Restored(checkpoint, PositionsOf(k.log)), k.Full() + more;
    forall i | 0 <= i < |k.Full()| ensures k.Full()[i].position <= at {
      if i >= |k.gone| { assert k.Full()[i] == k.log[i - |k.gone|]; }
    }
    assert forall i :: |k.Full()| <= i < |all| ==> all[i] == more[i - |k.Full()|];
  }

  // ---- dropped records ----

  /** The first record a new process can append to a log emptied by a checkpoint: the counters
      restart one past the checkpoint, and the feed takes the first position. */
  predicate FirstAfter(checkpoint: nat, first: LogRecord) {
    first.sequence == checkpoint + 1 && first.position > Feed.Restored(checkpoint, [])
  }

  /** After a restart on an emptied log the first new record is the horizon, so no dropped record
      is lost exactly if every dropped position is at most that record's. Every such restart meets
      that if and only if positions had not run ahead of sequence numbers by more than two. That
      the new records are shown as well takes more: see `EmptiedResumes`. */
  lemma RestartMeets(dropped: seq<LogRecord>, checkpoint: nat, more: seq<LogRecord>, scanHorizon: nat)
    requires checkpoint > 0
    ensures forall first :: FirstAfter(checkpoint, first) ==> Horizon([first] + more, scanHorizon) == first.position
    ensures (forall first :: FirstAfter(checkpoint, first) ==>
                               AllBelow(dropped, Horizon([first] + more, scanHorizon)))
            <==> AllBelow(dropped, checkpoint + 2)
  {
    var least := LogRecord(checkpoint + 1, checkpoint + 2, 0, Other);
    assert Horizon([least] + more, scanHorizon) == checkpoint + 2;
    assert FirstAfter(checkpoint, least);
  }

  function Appeared(at: nat, node: Node): Change { Change(at, Created, node.address, node.kind) }

  /** A run that loses a change. A record at position 10 is checkpointed at sequence 5 and rotated
      away, the process restarts, and the next write gets position 7. A scan after 8 is served
      and complete: the dropped change at 10 is gone and the new one at 7 is not shown. */
  method ChangeLost(gone: Node, added: Node)
    returns (r: ScanResult, ghost dropped: seq<LogRecord>, log: seq<LogRecord>)
    ensures dropped == [LogRecord(5, 10, 0, Insert(gone))] && log == [LogRecord(6, 7, 0, Insert(added))]
    ensures FirstAfter(5, log[0])
    ensures r == Served(Page([], 8, true))
    ensures var admin := Viewer("", true);
            && After(Settled(dropped, admin), 8) == [Appeared(10, gone)]
            && Settled(log, admin) == [Appeared(7, added)]
  {
    var admin := Viewer("", true);
    dropped := [LogRecord(5, 10, 0, Insert(gone))];
    log := [LogRecord(6, 7, 0, Insert(added))];
    OneInsert(dropped[0], gone, admin);
    OneInsert(log[0], added, admin);
    AfterAll(Settled(dropped, admin), 8);
    AfterNone(Settled(log, admin), 8);
    StandaloneSound(log[0]);
    r := Scan(log, 0, 8, 10, admin);
  }

  lemma OneInsert(r: LogRecord, node: Node, admin: Viewer)
    requires r.tx == 0 && r.operation == Insert(node) && admin.admin
    ensures Settled([r], admin) == [Appeared(r.position, node)]
  {
    var log := [r];
    assert log[..1] == log && log[..0] == [] && log[1..] == [];
    assert UnitChanges(log[..0], admin) == [] && ArchivedAll(map[], log[..0]) == map[];
  }

  lemma StandaloneSound(r: LogRecord)
    requires r.tx == 0 && r.operation.Insert?
    ensures Sound(AsWalAll([r]))
  {
    var w := AsWalAll([r]);
    forall tx: nat | tx != 0 ensures Judge(Project(w, tx)) != Malformed { ProjectNone(w, tx); }
  }

  /** A run that hides a change although nothing dropped is lost. Records at 2 and 4 are scanned to
      completion, checkpointed and rotated away. After the restart the feed takes 3 and the next
      write gets 4 again: a client resuming after 4 is served, and never sees it. */
  method PositionReused(one: Node, two: Node, added: Node)
    returns (before: ScanResult, after: ScanResult, dropped: seq<LogRecord>, log: seq<LogRecord>)
    ensures dropped == [LogRecord(1, 2, 0, Insert(one)), LogRecord(2, 4, 0, Insert(two))]
    ensures log == [LogRecord(3, 4, 0, Insert(added))] && FirstAfter(2, log[0])
    ensures AllBelow(dropped, 2 + 2) && forall who :: Lossless(dropped, log, 0, who)
    ensures before == Served(Page([Appeared(2, one), Appeared(4, two)], 4, true))
    ensures after == Served(Page([], 4, true)) && Settled(log, Viewer("", true)) == [Appeared(4, added)]
  {
    hide Settled, After, Lossless, SettledIn, Sound, Contiguous, Feed.Restored, Feed.Ring, Feed.Complete;
    assert Feed.Restored(2, []) == 3 by { NoneLogged(2); }
    var admin := Viewer("", true);
    dropped := [LogRecord(1, 2, 0, Insert(one)), LogRecord(2, 4, 0, Insert(two))];
    Inserts(dropped, [one, two], admin);
    AfterAll(Settled(dropped, admin), 0);
    before := Scan(dropped, 0, 0, 10, admin);
    var feed := Feed.Restart(2, [], []);
    log := [LogRecord(3, feed.counter.next, 0, Insert(added))];
    Inserts(log, [added], admin);
    AfterNone(Settled(log, admin), 4);
    after := Scan(log, 0, 4, 10, admin);
    RotationLosesNothing(dropped, log, 0);
  }

  /** A log of standalone inserts settles one change for each, as an administrator sees it. */
  lemma {:induction false} Inserts(log: seq<LogRecord>, nodes: seq<Node>, admin: Viewer)
    requires admin.admin && |nodes| == |log|
    requires forall i :: 0 <= i < |log| ==> log[i].tx == 0 && log[i].operation == Insert(nodes[i])
    ensures Settled(log, admin) == seq(|log|, i requires 0 <= i < |log| => Appeared(log[i].position, nodes[i]))
    ensures Contiguous(log) && Sound(AsWalAll(log))
  {
    hide Settled;
    if log == [] {
      NoneSettled(admin);
    } else {
      var n := |log| - 1;
      Inserts(log[..n], nodes[..n], admin);
      OneInsert(log[n], nodes[n], admin);
      assert log == log[..n] + [log[n]];
      SettledSplit(log[..n], [log[n]], admin);
    }
    var w := AsWalAll(log);
    forall tx: nat | tx != 0 ensures Judge(Project(w, tx)) != Malformed { ProjectNone(w, tx); }
  }

  lemma NoneLogged(checkpoint: nat)
    ensures Feed.Restored(checkpoint, []) == checkpoint + 1
  {
  }

  lemma NoneSettled(who: Viewer)
    ensures Settled([], who) == []
  {
  }

  // ---- served before it was synced ----

  /** Where the unit that holds a position ends in the log. */
  function UnitEnd(log: seq<LogRecord>, at: nat): nat {
    if log == [] then 0 else
      var n := UnitLength(log);
      if exists i :: 0 <= i < n && log[i].position == at then n else n + UnitEnd(log[n..], at)
  }

  /** A change the log has settled is still settled in a shorter log exactly when its whole unit is
      in there. */
  lemma {:induction false} CutSettles(log: seq<LogRecord>, cut: nat, who: Viewer, c: Change)
    requires PositionsAscend(log) && c in Settled(log, who) && cut <= |log|
    ensures c in Settled(log[..cut], who) <==> UnitEnd(log, c.at) <= cut
    decreases |log|
  {
    hide UnitChanges, CommittedUnit, UnitLength, UnitEnd, PositionsAscend;
    var n := UnitLength(log);
    var unit, rest := log[..n], log[n..];
    AscendSplit(log, n);
    EndStep(log, c.at);
    if cut >= n {
      SameLength(log, cut);
      assert log[..cut][..n] == unit && log[..cut][n..] == rest[..cut - n];
    }
    if CommittedUnit(unit) && c in UnitChanges(unit, who) {
      UnitPositions(unit, who, c);
      if cut < n { PartialUnit(log, cut, who); }
    } else {
      SettledAscends(rest, who);
      NotInUnit(log, n, c.at);
      if cut < n { PartBelow(log, cut, n, who); } else { CutSettles(rest, cut - n, who, c); }
    }
  }

  lemma EndStep(log: seq<LogRecord>, at: nat)
    requires log != []
    ensures var n := UnitLength(log);
            UnitEnd(log, at) == if exists i :: 0 <= i < n && log[i].position == at then n else n + UnitEnd(log[n..], at)
  {
  }

  lemma {:induction false} UnitPositions(unit: seq<LogRecord>, who: Viewer, c: Change)
    requires c in UnitChanges(unit, who)
    ensures exists i :: 0 <= i < |unit| && unit[i].position == c.at
  {
    var front, last := unit[..|unit| - 1], unit[|unit| - 1];
    if c in UnitChanges(front, who) {
      UnitPositions(front, who, c);
      var i :| 0 <= i < |front| && front[i].position == c.at;
      assert unit[i] == front[i];
    }
  }

  /** Nothing of a committed frame is settled before its COMMIT is there. */
  lemma PartialUnit(log: seq<LogRecord>, cut: nat, who: Viewer)
    requires log != [] && cut < UnitLength(log) && CommittedUnit(log[..UnitLength(log)])
    ensures Settled(log[..cut], who) == []
  {
    hide UnitChanges, Judge;
    var n, part := UnitLength(log), log[..cut];
    if cut > 0 {
      RunIs(part, log[0].tx, cut);
      assert part[..cut] == part && part[cut..] == [];
      assert AsWalAll(log[..n])[..cut] == AsWalAll(part);
      JudgeFront(AsWalAll(log[..n]), cut);
    }
  }

  lemma PartBelow(log: seq<LogRecord>, cut: nat, n: nat, who: Viewer)
    requires PositionsAscend(log) && cut < n <= |log|
    ensures forall c :: c in Settled(log[..cut], who) ==> c.at <= log[n - 1].position
  {
    hide Settled;
    SettledBelow(log[..cut], who, log[n - 1].position);
  }

  lemma SameLength(log: seq<LogRecord>, cut: nat)
    requires log != [] && UnitLength(log) <= cut <= |log|
    ensures UnitLength(log[..cut]) == UnitLength(log)
  {
    if log[0].tx != 0 { RunIs(log[..cut], log[0].tx, UnitLength(log)); }
  }

  lemma NotInUnit(log: seq<LogRecord>, n: nat, at: nat)
    requires PositionsAscend(log) && n < |log| && at >= log[n].position
    ensures forall i :: 0 <= i < n ==> log[i].position < at
  {
  }

  /** A served change survives every crash exactly when its unit was synced when it was served: the
      record itself, or the COMMIT of its frame. The scan reads records that may not be. */
  lemma ServedSurvives(log: seq<LogRecord>, synced: nat, who: Viewer, c: Change)
    requires PositionsAscend(log) && c in Settled(log, who) && synced <= |log|
    ensures (forall cut :: synced <= cut <= |log| ==> c in Settled(log[..cut], who)) <==> UnitEnd(log, c.at) <= synced
  {
    hide Settled, UnitEnd;
    forall cut | synced <= cut <= |log|
      ensures c in Settled(log[..cut], who) <==> UnitEnd(log, c.at) <= cut
    {
      CutSettles(log, cut, who, c);
    }
    assert c in Settled(log[..synced], who) <==> UnitEnd(log, c.at) <= synced;
  }

  /** A run that takes served changes back and gives a position to another. Records at 2, 4 and 6
      are served, only the first synced. A crash takes the others; the feed of the new process
      takes 3, the next write 4, and a client resuming after 6 is served without it. */
  method ServedThenLost(one: Node, two: Node, three: Node, added: Node)
    returns (before: ScanResult, after: ScanResult, log: seq<LogRecord>, found: seq<LogRecord>)
    ensures log == [LogRecord(1, 2, 0, Insert(one)), LogRecord(2, 4, 0, Insert(two)), LogRecord(3, 6, 0, Insert(three))]
    ensures before == Served(Page([Appeared(2, one), Appeared(4, two), Appeared(6, three)], 6, true))
    ensures found == log[..1] + [LogRecord(2, 4, 0, Insert(added))] && after == Served(Page([], 6, true))
    ensures Settled(found, Viewer("", true)) == [Appeared(2, one), Appeared(4, added)]
  {
    hide Settled, After, SettledIn, Sound, Contiguous, Feed.Restored, Feed.Ring, Feed.Complete;
    var admin := Viewer("", true);
    log := [LogRecord(1, 2, 0, Insert(one)), LogRecord(2, 4, 0, Insert(two)), LogRecord(3, 6, 0, Insert(three))];
    Inserts(log, [one, two, three], admin);
    AfterAll(Settled(log, admin), 0);
    before := Scan(log, 0, 0, 10, admin);
    Feed.OneLogged(2);
    var feed := Feed.Restart(0, [2], []);
    found := log[..1] + [LogRecord(2, feed.counter.next, 0, Insert(added))];
    Inserts(found, [one, added], admin);
    AfterNone(Settled(found, admin), 6);
    after := Scan(found, 0, 6, 10, admin);
  }
}
