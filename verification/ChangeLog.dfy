/** The log as the change scan reads it, cut into durable units, and the changes in it. */
module ChangeLog {
  import opened Audiences
  import opened Wal
  import opened Frames

  datatype Operation =
    | BeginFrame | CommitFrame | AbortFrame
    | Archive(node: Node) | Insert(node: Node) | Delete(address: string)
    | Other

  /** `sequence` orders the log; `position` is the shared counter changes are numbered by. */
  datatype LogRecord = LogRecord(sequence: nat, position: nat, tx: nat, operation: Operation)

  datatype ChangeKind = Created | Updated | Deleted

  datatype Change = Change(at: nat, change: ChangeKind, address: string, kind: string)

  /** The part of a record transaction classification looks at. */
  function AsWal(r: LogRecord): Record {
    Record(r.sequence, r.tx,
           match r.operation
           case BeginFrame => Begin
           case CommitFrame => Commit
           case AbortFrame => Abort
           case _ => Mutate(Erase([])))
  }

  function AsWalAll(log: seq<LogRecord>): (w: seq<Record>)
    ensures |w| == |log| && forall i :: 0 <= i < |log| ==> w[i] == AsWal(log[i])
  {
    seq(|log|, i requires 0 <= i < |log| => AsWal(log[i]))
  }

  predicate PositionsAscend(log: seq<LogRecord>) {
    forall i, j :: 0 <= i < j < |log| ==> log[i].position < log[j].position
  }

  /** Frames are written under one lock: each is a contiguous run. */
  ghost predicate Contiguous(log: seq<LogRecord>) {
    forall i, j, k :: 0 <= i < j < k < |log| && log[i].tx == log[k].tx != 0 ==> log[j].tx == log[i].tx
  }

  ghost predicate WellKept(log: seq<LogRecord>) {
    PositionsAscend(log) && Contiguous(log) && Sound(AsWalAll(log))
  }

  // ---- durable units ----

  function RunLength(log: seq<LogRecord>, tx: nat): (n: nat)
    ensures n <= |log|
    ensures forall i :: 0 <= i < n ==> log[i].tx == tx
    ensures n < |log| ==> log[n].tx != tx
  {
    if log == [] || log[0].tx != tx then 0 else 1 + RunLength(log[1..], tx)
  }

  /** The length of the unit a log starts with. */
  function UnitLength(log: seq<LogRecord>): (n: nat)
    requires log != []
    ensures 0 < n <= |log|
  {
    if log[0].tx == 0 then 1 else RunLength(log, log[0].tx)
  }

  ghost predicate CommittedUnit(unit: seq<LogRecord>)
    requires unit != []
  {
    unit[0].tx == 0 || Judge(AsWalAll(unit)).Committed?
  }

  predicate AbortedUnit(unit: seq<LogRecord>) {
    exists i :: 0 <= i < |unit| && unit[i].operation.AbortFrame?
  }

  // ---- the changes of a unit and of a log ----

  function Shown(r: LogRecord, change: ChangeKind, subject: Node, address: string, who: Viewer): seq<Change> {
    if ForNode(subject).Admits(who) then [Change(r.position, change, address, subject.kind)] else []
  }

  /** What one record shows, given the states its unit has archived so far. */
  function Emitted(r: LogRecord, archived: map<string, Node>, who: Viewer): seq<Change> {
    match r.operation
    case Insert(node) =>
      Shown(r, if node.address in archived then Updated else Created, node, node.address, who)
    case Delete(address) =>
      if address in archived then Shown(r, Deleted, archived[address], address, who) else []
    case _ => []
  }

  function Archived(archived: map<string, Node>, r: LogRecord): map<string, Node> {
    match r.operation
    case Archive(node) => archived[node.address := node]
    case Delete(address) => archived - {address}
    case _ => archived
  }

  function ArchivedAll(archived: map<string, Node>, unit: seq<LogRecord>): map<string, Node> {
    if unit == [] then archived else
      Archived(ArchivedAll(archived, unit[..|unit| - 1]), unit[|unit| - 1])
  }

  function UnitChanges(unit: seq<LogRecord>, who: Viewer): seq<Change> {
    if unit == [] then [] else
      var front, last := unit[..|unit| - 1], unit[|unit| - 1];
      UnitChanges(front, who) + Emitted(last, ArchivedAll(map[], front), who)
  }

  /** Every change a log has settled for a viewer: those of its committed units, in order. */
  ghost function Settled(log: seq<LogRecord>, who: Viewer): seq<Change> {
    if log == [] then [] else
      var n := UnitLength(log);
      if CommittedUnit(log[..n]) then UnitChanges(log[..n], who) + Settled(log[n..], who)
      else Settled(log[n..], who)
  }

  /** A frame that commits somewhere in the whole log, or a standalone record. */
  ghost predicate CommittedIn(whole: seq<LogRecord>, tx: nat) {
    tx == 0 || Judge(Project(AsWalAll(whole), tx)).Committed?
  }

  /** The same read off the whole log's frames, whether or not each is one contiguous run. */
  ghost function SettledIn(whole: seq<LogRecord>, log: seq<LogRecord>, who: Viewer): seq<Change>
    decreases |log|
  {
    if log == [] then [] else
      var n := UnitLength(log);
      if CommittedIn(whole, log[0].tx) then UnitChanges(log[..n], who) + SettledIn(whole, log[n..], who)
      else SettledIn(whole, log[n..], who)
  }

  predicate ChangesAscend(cs: seq<Change>) {
    forall i, j :: 0 <= i < j < |cs| ==> cs[i].at < cs[j].at
  }

  function After(cs: seq<Change>, after: nat): seq<Change> {
    if cs == [] then [] else
      After(cs[..|cs| - 1], after) + if cs[|cs| - 1].at > after then [cs[|cs| - 1]] else []
  }

  // ---- facts ----

  lemma {:induction false} AfterConcat(a: seq<Change>, b: seq<Change>, after: nat)
    ensures After(a + b, after) == After(a, after) + After(b, after)
  {
    if b == [] {
      assert a + b == a;
    } else {
      assert (a + b)[..|a + b| - 1] == a + b[..|b| - 1];
      AfterConcat(a, b[..|b| - 1], after);
    }
  }

  lemma {:induction false} AfterNone(cs: seq<Change>, after: nat)
    requires forall i :: 0 <= i < |cs| ==> cs[i].at <= after
    ensures After(cs, after) == []
  {
    if cs != [] { AfterNone(cs[..|cs| - 1], after); }
  }

  lemma {:induction false} AfterAll(cs: seq<Change>, after: nat)
    requires forall i :: 0 <= i < |cs| ==> cs[i].at > after
    ensures After(cs, after) == cs
  {
    if cs != [] { AfterAll(cs[..|cs| - 1], after); }
  }

  lemma AfterHas(cs: seq<Change>, after: nat, i: nat)
    requires i < |cs| && cs[i].at > after
    ensures cs[i] in After(cs, after)
  {
    hide After;
    assert cs == cs[..i] + ([cs[i]] + cs[i + 1..]);
    AfterConcat(cs[..i], [cs[i]] + cs[i + 1..], after);
    AfterConcat([cs[i]], cs[i + 1..], after);
    AfterAll([cs[i]], after);
  }

  /** In ascending order, what lies after a position is a suffix. */
  lemma {:induction false} AfterSuffix(cs: seq<Change>, after: nat) returns (n: nat)
    requires ChangesAscend(cs)
    ensures n <= |cs| && After(cs, after) == cs[n..]
    ensures forall i :: 0 <= i < n ==> cs[i].at <= after
    ensures forall i :: n <= i < |cs| ==> cs[i].at > after
  {
    hide After;
    n := 0;
    while n < |cs| && cs[n].at <= after
      invariant n <= |cs| && forall i :: 0 <= i < n ==> cs[i].at <= after
    {
      n := n + 1;
    }
    assert cs == cs[..n] + cs[n..];
    AfterConcat(cs[..n], cs[n..], after);
    AfterNone(cs[..n], after);
    AfterAll(cs[n..], after);
  }

  /** No change lies past every record. */
  lemma {:induction false} UnitChangesBelow(unit: seq<LogRecord>, who: Viewer, p: nat)
    requires forall i :: 0 <= i < |unit| ==> unit[i].position <= p
    ensures forall i :: 0 <= i < |UnitChanges(unit, who)| ==> UnitChanges(unit, who)[i].at <= p
  {
    if unit != [] { UnitChangesBelow(unit[..|unit| - 1], who, p); }
  }

  lemma {:induction false} SettledBelow(log: seq<LogRecord>, who: Viewer, p: nat)
    requires forall i :: 0 <= i < |log| ==> log[i].position <= p
    ensures forall i :: 0 <= i < |Settled(log, who)| ==> Settled(log, who)[i].at <= p
    decreases |log|
  {
    hide UnitChanges, CommittedUnit, UnitLength;
    if log != [] {
      var n := UnitLength(log);
      UnitChangesBelow(log[..n], who, p);
      SettledBelow(log[n..], who, p);
    }
  }

  /** A unit's changes carry positions of its records, ascending. */
  lemma {:induction false} UnitChangesAscend(unit: seq<LogRecord>, who: Viewer)
    requires PositionsAscend(unit)
    ensures ChangesAscend(UnitChanges(unit, who))
    ensures forall i :: 0 <= i < |UnitChanges(unit, who)| ==>
                          unit != [] && unit[0].position <= UnitChanges(unit, who)[i].at <= unit[|unit| - 1].position
  {
    if unit != [] {
      var front, last := unit[..|unit| - 1], unit[|unit| - 1];
      UnitChangesAscend(front, who);
      var cs, more := UnitChanges(front, who), Emitted(last, ArchivedAll(map[], front), who);
      assert forall i :: 0 <= i < |more| ==> more[i].at == last.position;
      forall i | 0 <= i < |cs| ensures cs[i].at < last.position && unit[0].position <= cs[i].at {
        assert front[|front| - 1] == unit[|front| - 1] && front[0] == unit[0];
      }
      Joined(cs, more, last.position);
    }
  }

  lemma Joined(a: seq<Change>, b: seq<Change>, p: nat)
    requires ChangesAscend(a) && ChangesAscend(b)
    requires forall i :: 0 <= i < |a| ==> a[i].at < p
    requires forall i :: 0 <= i < |b| ==> b[i].at >= p
    ensures ChangesAscend(a + b)
  {
  }

  lemma {:induction false} SettledAscends(log: seq<LogRecord>, who: Viewer)
    requires PositionsAscend(log)
    ensures ChangesAscend(Settled(log, who))
    ensures forall i :: 0 <= i < |Settled(log, who)| ==>
                          log != [] && log[0].position <= Settled(log, who)[i].at <= log[|log| - 1].position
    decreases |log|
  {
    hide UnitChanges, CommittedUnit, UnitLength;
    if log != [] {
      var n := UnitLength(log);
      var unit, rest := log[..n], log[n..];
      AscendSplit(log, n);
      SettledAscends(rest, who);
      UnitChangesAscend(unit, who);
      if CommittedUnit(unit) {
        SettledJoin(UnitChanges(unit, who), Settled(rest, who), unit, rest);
      }
    }
  }

  lemma AscendSplit(log: seq<LogRecord>, n: nat)
    requires PositionsAscend(log) && 0 < n <= |log|
    ensures PositionsAscend(log[..n]) && PositionsAscend(log[n..])
    ensures log[..n][0] == log[0] && log[..n][n - 1].position <= log[|log| - 1].position
    ensures n < |log| ==> log[n..][0].position > log[..n][n - 1].position && log[n..][|log| - n - 1] == log[|log| - 1]
    ensures n < |log| ==> log[n..][0].position > log[0].position
  {
  }

  lemma SettledJoin(a: seq<Change>, b: seq<Change>, unit: seq<LogRecord>, rest: seq<LogRecord>)
    requires ChangesAscend(a) && ChangesAscend(b) && unit != []
    requires forall i :: 0 <= i < |a| ==> unit[0].position <= a[i].at <= unit[|unit| - 1].position
    requires forall i :: 0 <= i < |b| ==> rest != [] && rest[0].position <= b[i].at <= rest[|rest| - 1].position
    requires rest != [] ==> unit[|unit| - 1].position < rest[0].position && unit[0].position < rest[0].position
    requires rest != [] ==> unit[|unit| - 1].position < rest[|rest| - 1].position
    ensures ChangesAscend(a + b)
    ensures forall i :: 0 <= i < |a + b| ==> unit[0].position <= (a + b)[i].at
    ensures forall i :: 0 <= i < |a + b| ==>
                          (a + b)[i].at <= (if rest == [] then unit[|unit| - 1] else rest[|rest| - 1]).position
  {
  }
}
