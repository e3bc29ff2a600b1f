/** What a caller of the change scan can rely on across calls, growth and rotation. */
module ChangeTheorems {
  import opened Audiences
  import opened Entries
  import opened Wal
  import opened Frames
  import opened ChangeLog
  import opened Changes
  import opened Rotation

  // ---- growth ----

  /** Nothing of a transaction follows its COMMIT. */
  ghost predicate CommitsEnd(log: seq<LogRecord>) {
    forall i :: 0 <= i < |log| - 1 && log[i].tx != 0 && log[i].operation.CommitFrame? ==> log[i + 1].tx != log[i].tx
  }

  lemma SoundCommitsEnd(log: seq<LogRecord>)
    requires Sound(AsWalAll(log))
    ensures CommitsEnd(log)
  {
    hide Sound;
    var w := AsWalAll(log);
    forall i | 0 <= i < |log| - 1 && log[i].tx != 0 && log[i].operation.CommitFrame?
      ensures log[i + 1].tx != log[i].tx
    {
      CommitEnds(w, i);
    }
  }

  lemma CommitEnds(w: seq<Record>, i: nat)
    requires Sound(w) && i < |w| - 1 && w[i].tx != 0 && w[i].op.Commit?
    ensures w[i + 1].tx != w[i].tx
  {
    hide Judge, Project;
    var tx := w[i].tx;
    ProjectIndex(w, i);
    CommitIsLast(Project(w, tx), |Project(w[..i], tx)|);
    assert w[..i + 1][..i] == w[..i];
    ProjectIndex(w[..i + 1], i);
    if w[i + 1].tx == tx { ProjectIndex(w, i + 1); }
  }

  /** Appending to the log only appends to what it has settled. */
  lemma {:induction false} GrowthKeeps(log: seq<LogRecord>, more: seq<LogRecord>, who: Viewer)
    requires CommitsEnd(log + more)
    ensures Settled(log, who) <= Settled(log + more, who)
    decreases |log|
  {
    hide UnitChanges, CommittedUnit, CommitsEnd;
    if log != [] {
      var n := UnitLength(log);
      var all := log + more;
      if n == |log| && !CommittedUnit(log[..n]) {
        assert Settled(log, who) == Settled(log[n..], who) == [];
      } else {
        assert n == |log| ==> log[..n] == log;
        SameUnit(log, more);
        assert all[..n] == log[..n] && all[n..] == log[n..] + more;
        EndsPast(all, n);
        GrowthKeeps(log[n..], more, who);
      }
    }
  }

  lemma EndsPast(log: seq<LogRecord>, n: nat)
    requires CommitsEnd(log) && n <= |log|
    ensures CommitsEnd(log[n..])
  {
    var rest := log[n..];
    forall i | 0 <= i < |rest| - 1 && rest[i].tx != 0 && rest[i].operation.CommitFrame?
      ensures rest[i + 1].tx != rest[i].tx
    {
      assert rest[i] == log[n + i] && rest[i + 1] == log[n + i + 1];
    }
  }

  /** The first unit of a log is final unless it is an unfinished frame reaching its end. */
  lemma SameUnit(log: seq<LogRecord>, more: seq<LogRecord>)
    requires log != [] && CommitsEnd(log + more)
    requires UnitLength(log) < |log| || CommittedUnit(log)
    ensures UnitLength(log + more) == UnitLength(log)
  {
    var n, all, tx := UnitLength(log), log + more, log[0].tx;
    if tx != 0 {
      if n == |log| && more != [] {
        assert AsWalAll(log)[|log| - 1].op.Commit?;
        assert all[n - 1] == log[n - 1];
      }
      RunIs(all, tx, n);
    }
  }

  // ---- chaining ----

  datatype Call = Call(kept: Kept, limit: nat, answer: ScanResult)

  /** What a scan may answer: refused exactly below the horizon, otherwise a page of the file. */
  ghost predicate Answers(kept: Kept, after: nat, limit: nat, who: Viewer, r: ScanResult) {
    && (r.TooOld? <==> after < Horizon(kept.log, kept.scanHorizon)) && !r.BadLog?
    && (r.Served? ==> IsPage(kept.log, after, limit, who, r.page))
  }

  function Shows(answer: ScanResult): seq<Change> { if answer.Served? then answer.page.changes else [] }

  function Gathered(calls: seq<Call>): seq<Change> {
    if calls == [] then [] else Gathered(calls[..|calls| - 1]) + Shows(calls[|calls| - 1].answer)
  }

  function Resume(calls: seq<Call>, after: nat): nat {
    if calls == [] then after else
      var last := calls[|calls| - 1];
      if last.answer.Served? then last.answer.page.next else Resume(calls[..|calls| - 1], after)
  }

  /** Calls that resume each other while the log grows, and its front is rotated away, in between. */
  ghost predicate Chained(calls: seq<Call>, after: nat, who: Viewer) {
    calls != [] ==>
      var front, last := calls[..|calls| - 1], calls[|calls| - 1];
      && Chained(front, after, who)
      && Intact(last.kept) && last.limit > 0
      && Answers(last.kept, Resume(front, after), last.limit, who, last.answer)
      && (front != [] ==> front[|front| - 1].kept.Full() <= last.kept.Full())
  }

  /** Paging through a log that grows and is rotated yields every change settled in its full
      history after the first position exactly once and in order, or is refused: what has been
      gathered is an initial part of it, all of it once a page is complete, every incomplete page
      adds something, and a refusal, exactly below the horizon, leaves what was gathered whole. */
  lemma {:induction false} ChainExact(calls: seq<Call>, after: nat, who: Viewer)
    requires Chained(calls, after, who) && calls != []
    ensures var front, last := calls[..|calls| - 1], calls[|calls| - 1];
            var all := After(Settled(last.kept.Full(), who), after);
            && ChangesAscend(all)
            && Gathered(calls) <= all
            && (last.answer.Served? && last.answer.page.complete ==> Gathered(calls) == all)
            && (last.answer.Served? && !last.answer.page.complete ==> |Gathered(front)| < |Gathered(calls)|)
            && (!last.answer.Served? <==> Resume(front, after) < Horizon(last.kept.log, last.kept.scanHorizon))
            && (!last.answer.Served? ==> Gathered(calls) == Gathered(front))
            && Resume(calls, after) == LastAt(Gathered(calls), after)
  {
    hide Intact, Settled, After, PageOf;
    var front, last := calls[..|calls| - 1], calls[|calls| - 1];
    var full := last.kept.Full();
    WholeAscends(last.kept, who);
    var cs := Settled(full, who);
    AfterAscends(cs, after);
    if front != [] {
      ChainExact(front, after, who);
      Grown(front[|front| - 1].kept.Full(), full, who, after);
    }
    if last.answer.Served? {
      ServedWhole(last.kept, Resume(front, after), who);
      PageExtends(cs, after, Gathered(front), last.answer.page, last.limit);
    }
  }

  lemma WholeAscends(kept: Kept, who: Viewer)
    requires Intact(kept)
    ensures WellKept(kept.Full()) && ChangesAscend(Settled(kept.Full(), who))
  {
    SettledAscends(kept.Full(), who);
  }

  lemma PageExtends(cs: seq<Change>, after: nat, got: seq<Change>, page: Page, limit: nat)
    requires ChangesAscend(cs) && got <= After(cs, after) && limit > 0
    requires PageOf(After(cs, LastAt(got, after)), LastAt(got, after), limit, page)
    ensures ChangesAscend(After(cs, after)) && got + page.changes <= After(cs, after)
    ensures page.complete ==> got + page.changes == After(cs, after)
    ensures !page.complete ==> |got| < |got + page.changes|
    ensures page.next == LastAt(got + page.changes, after)
  {
    hide After, ChangesAscend;
    AfterAscends(cs, after);
    Resumed(cs, after, got);
    Extends(After(cs, after), got, After(cs, LastAt(got, after)), page.changes);
  }

  lemma AfterAscends(cs: seq<Change>, after: nat)
    requires ChangesAscend(cs)
    ensures ChangesAscend(After(cs, after))
  {
    hide After;
    var n := AfterSuffix(cs, after);
  }

  lemma Extends(all: seq<Change>, got: seq<Change>, rest: seq<Change>, more: seq<Change>)
    requires all == got + rest && more <= rest
    ensures got + more <= all
  {
  }

  lemma Grown(log: seq<LogRecord>, longer: seq<LogRecord>, who: Viewer, after: nat)
    requires log <= longer && WellKept(longer)
    ensures After(Settled(log, who), after) <= After(Settled(longer, who), after)
  {
    hide Settled, Sound, Contiguous, After;
    var more := longer[|log|..];
    assert longer == log + more;
    SoundCommitsEnd(longer);
    GrowthKeeps(log, more, who);
    var a, b := Settled(log, who), Settled(longer, who);
    assert b == a + b[|a|..];
    AfterConcat(a, b[|a|..], after);
  }

  /** Resuming after an initial part of what was asked for yields the remainder. */
  lemma Resumed(cs: seq<Change>, after: nat, got: seq<Change>)
    requires ChangesAscend(cs) && got <= After(cs, after)
    ensures After(cs, after) == got + After(cs, LastAt(got, after))
  {
    hide After;
    var n := AfterSuffix(cs, after);
    assert After(cs, after) == got + cs[n + |got|..];
    if got == [] {
      assert got + After(cs, after) == After(cs, after);
    } else {
      assert cs[n + |got| - 1] == got[|got| - 1];
      var m := AfterSuffix(cs, got[|got| - 1].at);
      SuffixesMeet(cs, got[|got| - 1].at, m, n + |got|);
    }
  }

  lemma SuffixesMeet(cs: seq<Change>, p: nat, m: nat, n: nat)
    requires ChangesAscend(cs) && m <= |cs| && 0 < n <= |cs| && cs[n - 1].at == p
    requires forall i :: 0 <= i < m ==> cs[i].at <= p
    requires forall i :: m <= i < |cs| ==> cs[i].at > p
    ensures m == n
  {
    var next := if n < |cs| then cs[n].at else p + 1;
    assert next > p;
  }

  // ---- labels ----

  type Nodes = map<string, Node>

  function Step(state: Nodes, r: LogRecord): Nodes {
    match r.operation
    case Insert(node) => state[node.address := node]
    case Delete(address) => state - {address}
    case _ => state
  }

  function Run(state: Nodes, unit: seq<LogRecord>): Nodes {
    if unit == [] then state else Step(Run(state, unit[..|unit| - 1]), unit[|unit| - 1])
  }

  /** What a record does to the stored nodes, as its viewer may see it. */
  function Transition(state: Nodes, r: LogRecord, who: Viewer): seq<Change> {
    match r.operation
    case Insert(node) =>
      Shown(r, if node.address in state then Updated else Created, node, node.address, who)
    case Delete(address) =>
      if address in state then Shown(r, Deleted, state[address], address, who) else []
    case _ => []
  }

  function Transitions(state: Nodes, unit: seq<LogRecord>, who: Viewer): seq<Change> {
    if unit == [] then [] else
      var front, last := unit[..|unit| - 1], unit[|unit| - 1];
      Transitions(state, front, who) + Transition(Run(state, front), last, who)
  }

  predicate Concerns(r: LogRecord, address: string) {
    match r.operation
    case Archive(node) => node.address == address
    case Insert(node) => node.address == address
    case Delete(a) => a == address
    case _ => false
  }

  /** The last thing the unit did about this address was to archive exactly this node. */
  ghost predicate JustArchived(unit: seq<LogRecord>, node: Node) {
    exists j :: 0 <= j < |unit| && unit[j].operation == Archive(node)
                && forall k :: j < k < |unit| ==> !Concerns(unit[k], node.address)
  }

  /** Only current states are archived, and whatever is overwritten or deleted has just been. */
  ghost predicate Orderly(state: Nodes, front: seq<LogRecord>, r: LogRecord) {
    var now := Run(state, front);
    match r.operation
    case Archive(node) => node.address in now && now[node.address] == node
    case Insert(node) => node.address in now ==> JustArchived(front, now[node.address])
    case Delete(address) => address in now ==> JustArchived(front, now[address])
    case _ => true
  }

  ghost predicate Disciplined(state: Nodes, unit: seq<LogRecord>) {
    && (forall a :: a in state ==> state[a].address == a)
    && forall i :: 0 <= i < |unit| ==> Orderly(state, unit[..i], unit[i])
  }

  ghost predicate DisciplinedLog(state: Nodes, log: seq<LogRecord>)
    decreases |log|
  {
    log != [] ==>
      var n := UnitLength(log);
      if CommittedUnit(log[..n]) then Disciplined(state, log[..n]) && DisciplinedLog(Run(state, log[..n]), log[n..])
      else DisciplinedLog(state, log[n..])
  }

  ghost function LogTransitions(state: Nodes, log: seq<LogRecord>, who: Viewer): seq<Change>
    decreases |log|
  {
    if log == [] then [] else
      var n := UnitLength(log);
      if CommittedUnit(log[..n]) then
        Transitions(state, log[..n], who) + LogTransitions(Run(state, log[..n]), log[n..], who)
      else LogTransitions(state, log[n..], who)
  }

  /** The labels a scan reports are exactly the transitions of the stored nodes, and each delete
      is attributed to the state it removed. */
  lemma {:induction false} LabelsExact(state: Nodes, log: seq<LogRecord>, who: Viewer)
    requires DisciplinedLog(state, log)
    ensures Settled(log, who) == LogTransitions(state, log, who)
    decreases |log|
  {
    hide UnitChanges, CommittedUnit, UnitLength, Disciplined, Transitions, Run;
    if log != [] {
      var n := UnitLength(log);
      if CommittedUnit(log[..n]) {
        UnitLabels(state, log[..n], who);
        LabelsExact(Run(state, log[..n]), log[n..], who);
      } else {
        LabelsExact(state, log[n..], who);
      }
    }
  }

  lemma {:induction false} UnitLabels(state: Nodes, unit: seq<LogRecord>, who: Viewer)
    requires Disciplined(state, unit)
    ensures UnitChanges(unit, who) == Transitions(state, unit, who)
  {
    if unit != [] {
      var front, last := unit[..|unit| - 1], unit[|unit| - 1];
      assert forall i :: 0 <= i < |front| ==> front[..i] == unit[..i] && front[i] == unit[i];
      UnitLabels(state, front, who);
      ArchivesTrue(state, front);
      LabelAgrees(state, front, last, who);
    }
  }

  lemma LabelAgrees(state: Nodes, front: seq<LogRecord>, last: LogRecord, who: Viewer)
    requires Orderly(state, front, last)
    requires forall a :: a in ArchivedAll(map[], front) ==> a in Run(state, front)
    requires forall a :: a in Run(state, front) ==> Run(state, front)[a].address == a
    ensures Emitted(last, ArchivedAll(map[], front), who) == Transition(Run(state, front), last, who)
  {
    hide Run, ArchivedAll, JustArchived;
    var now := Run(state, front);
    match last.operation {
      case Insert(node) =>
        if node.address in now { JustArchivedHolds(front, now[node.address]); }
      case Delete(address) =>
        if address in now { JustArchivedHolds(front, now[address]); }
      case _ =>
    }
  }

  /** Within a unit only stored addresses are archived. */
  lemma {:induction false} ArchivesTrue(state: Nodes, unit: seq<LogRecord>)
    requires Disciplined(state, unit)
    ensures forall a :: a in ArchivedAll(map[], unit) ==> a in Run(state, unit)
    ensures forall a :: a in Run(state, unit) ==> Run(state, unit)[a].address == a
  {
    if unit != [] {
      var front := unit[..|unit| - 1];
      assert forall i :: 0 <= i < |front| ==> front[..i] == unit[..i] && front[i] == unit[i];
      ArchivesTrue(state, front);
    }
  }

  lemma {:induction false} JustArchivedHolds(unit: seq<LogRecord>, node: Node)
    requires JustArchived(unit, node)
    ensures node.address in ArchivedAll(map[], unit) && ArchivedAll(map[], unit)[node.address] == node
  {
    var front, last := unit[..|unit| - 1], unit[|unit| - 1];
    var j :| 0 <= j < |unit| && unit[j].operation == Archive(node)
             && forall k :: j < k < |unit| ==> !Concerns(unit[k], node.address);
    if j < |unit| - 1 {
      assert front[j] == unit[j];
      assert forall k :: j < k < |front| ==> front[k] == unit[k];
      JustArchivedHolds(front, node);
      assert !Concerns(last, node.address);
    }
  }
}
