/** The durable change scan: pages of the committed changes a caller may see. */
module Changes {
  import opened Audiences
  import opened Entries
  import opened Wal
  import opened Frames
  import opened ChangeLog
  import Recovery

  datatype Page = Page(changes: seq<Change>, next: nat, complete: bool)

  datatype ScanResult = TooOld(requested: nat, earliest: nat, retained: nat) | BadLog | Served(page: Page)

  datatype FrameState = Whole | Terminal | InFlight

  /** The oldest position a log can serve a scan from. */
  function Horizon(log: seq<LogRecord>, scanHorizon: nat): nat {
    if log == [] then scanHorizon else if log[0].sequence == 1 then 0 else log[0].position
  }

  /** Where to resume once some changes have been seen. */
  function LastAt(seen: seq<Change>, after: nat): nat {
    if seen == [] then after else seen[|seen| - 1].at
  }

  /** An initial part of `all`: everything when complete, at least `limit` changes otherwise. */
  predicate PageOf(all: seq<Change>, after: nat, limit: nat, page: Page) {
    && page.changes <= all
    && (page.complete ==> page.changes == all)
    && (!page.complete ==> |page.changes| >= limit)
    && page.next == LastAt(page.changes, after)
  }

  /** What a page of the changes after a position must be. */
  ghost predicate IsPage(log: seq<LogRecord>, after: nat, limit: nat, who: Viewer, page: Page) {
    PageOf(After(Settled(log, who), after), after, limit, page)
  }

  // ---- where a page ends ----

  /** No frame runs on over index `i`. */
  predicate Bound(log: seq<LogRecord>, i: nat)
    requires i <= |log|
  {
    i == 0 || i == |log| || log[i - 1].tx == 0 || log[i - 1].tx != log[i].tx
  }

  /** One durable unit: a record on its own, or a whole run of one transaction. */
  predicate IsUnit(log: seq<LogRecord>, lo: nat, hi: nat) {
    && lo < hi <= |log| && Bound(log, lo) && Bound(log, hi)
    && forall i :: lo < i < hi ==> !Bound(log, i)
  }

  /** The changes after a position in the committed units up to an index. */
  ghost function Upto(log: seq<LogRecord>, i: nat, after: nat, who: Viewer): seq<Change>
    requires i <= |log|
  {
    After(SettledIn(log, log[..i], who), after)
  }

  /** A page may end behind the unit from `lo` to `hi`: it is committed, reaches past the position,
      is not the last one, and the limit has been met. */
  ghost predicate Stops(log: seq<LogRecord>, after: nat, limit: nat, who: Viewer, lo: nat, hi: nat) {
    && IsUnit(log, lo, hi) && hi < |log|
    && CommittedIn(log, log[lo].tx) && log[hi - 1].position > after
    && |Upto(log, hi, after, who)| >= limit
  }

  /** Behind the first such unit, with fewer changes than the limit in front of it. */
  ghost predicate EndsAt(log: seq<LogRecord>, after: nat, limit: nat, who: Viewer, lo: nat, hi: nat) {
    && Stops(log, after, limit, who, lo, hi)
    && (forall i: nat, j: nat :: j < hi ==> !Stops(log, after, limit, who, i, j))
    && (limit > 0 ==> |Upto(log, lo, after, who)| < limit)
  }

  /** Exactly the page a log has at a position. */
  ghost predicate ExactPage(log: seq<LogRecord>, after: nat, limit: nat, who: Viewer, page: Page) {
    && page.next == LastAt(page.changes, after)
    && if page.complete then
         && page.changes == Upto(log, |log|, after, who)
         && forall i: nat, j: nat :: !Stops(log, after, limit, who, i, j)
       else exists lo: nat, hi: nat ::
         EndsAt(log, after, limit, who, lo, hi) && page.changes == Upto(log, hi, after, who)
  }

  /** There is only one such page. */
  lemma PageUnique(log: seq<LogRecord>, after: nat, limit: nat, who: Viewer, p: Page, q: Page)
    requires ExactPage(log, after, limit, who, p) && ExactPage(log, after, limit, who, q)
    ensures p == q
  {
    hide Upto, IsUnit, CommittedIn;
    if !p.complete && !q.complete {
      var i: nat, j: nat :| EndsAt(log, after, limit, who, i, j) && p.changes == Upto(log, j, after, who);
      var k: nat, l: nat :| EndsAt(log, after, limit, who, k, l) && q.changes == Upto(log, l, after, who);
    }
  }

  method ValidatePositions(log: seq<LogRecord>) returns (ok: bool)
    ensures ok <==> PositionsAscend(log)
  {
    for i := 0 to |log|
      invariant PositionsAscend(log[..i])
    {
      if i > 0 {
        assert log[..i][i - 1] == log[i - 1];
        if log[i].position <= log[i - 1].position { return false; }
      }
    }
    assert log[..|log|] == log;
    return true;
  }

  /** The end of the durable unit that starts at `start`. */
  method DurableUnit(log: seq<LogRecord>, start: nat) returns (end: nat)
    requires start < |log|
    ensures end == start + UnitLength(log[start..])
  {
    var tx := log[start].tx;
    if tx == 0 { return start + 1; }
    end := start;
    while end < |log| && log[end].tx == tx
      invariant start <= end <= |log|
      invariant forall i :: start <= i < end ==> log[i].tx == tx
    {
      end := end + 1;
    }
    RunIs(log[start..], tx, end - start);
  }

  lemma {:induction false} RunIs(log: seq<LogRecord>, tx: nat, n: nat)
    requires n <= |log| && (forall i :: 0 <= i < n ==> log[i].tx == tx) && (n < |log| ==> log[n].tx != tx)
    ensures RunLength(log, tx) == n
  {
    if n > 0 {
      assert forall i :: 0 <= i < n - 1 ==> log[1..][i].tx == tx;
      RunIs(log[1..], tx, n - 1);
    }
  }

  function StateOf(unit: seq<LogRecord>, committed: map<nat, nat>, isTail: bool): FrameState {
    if unit == [] then Terminal
    else if unit[0].tx == 0 || unit[0].tx in committed then Whole
    else if AbortedUnit(unit) || !isTail then Terminal
    else InFlight
  }

  method Admit(r: LogRecord, change: ChangeKind, subject: Node, address: string, after: nat, who: Viewer)
    returns (shown: seq<Change>)
    ensures shown == After(Shown(r, change, subject, address, who), after)
  {
    if r.position <= after { return []; }
    if !ForNode(subject).Admits(who) { return []; }
    return [Change(r.position, change, address, subject.kind)];
  }

  /** Append the changes of one committed unit that lie after a position. */
  method EmitUnit(unit: seq<LogRecord>, after: nat, who: Viewer, page: seq<Change>) returns (out: seq<Change>)
    ensures out == page + After(UnitChanges(unit, who), after)
  {
    hide After;
    var archived: map<string, Node> := map[];
    out := page;
    AfterNone([], after);
    assert page + [] == page;
    for i := 0 to |unit|
      invariant archived == ArchivedAll(map[], unit[..i])
      invariant out == page + After(UnitChanges(unit[..i], who), after)
    {
      var r := unit[i];
      assert unit[..i + 1][..i] == unit[..i];
      ghost var before := archived;
      var shown: seq<Change> := [];
      AfterNone([], after);
      match r.operation {
        case Archive(node) => archived := archived[node.address := node];
        case Insert(node) =>
          shown := Admit(r, if node.address in archived then Updated else Created, node, node.address, after, who);
        case Delete(address) =>
          if address in archived {
            shown := Admit(r, Deleted, archived[address], address, after, who);
          }
          archived := archived - {address};
        case _ =>
      }
      assert shown == After(Emitted(r, before, who), after);
      AfterConcat(UnitChanges(unit[..i], who), Emitted(r, before, who), after);
      out := out + shown;
      Regroup(page, After(UnitChanges(unit[..i], who), after), shown);
    }
    assert unit[..|unit|] == unit;
  }

  lemma Regroup(a: seq<Change>, b: seq<Change>, c: seq<Change>)
    ensures a + b + c == a + (b + c)
  {
  }

  /** One page of the changes after a position. A position the log no longer reaches is refused,
      and so is a log that cannot be explained. Whatever else the log holds, the page is of the
      changes of committed frames; where frames are contiguous these are the settled ones. */
  method Scan(log: seq<LogRecord>, scanHorizon: nat, after: nat, limit: nat, who: Viewer) returns (r: ScanResult)
    ensures r.TooOld? <==> after < Horizon(log, scanHorizon)
    ensures r.TooOld? ==> r == TooOld(after, Horizon(log, scanHorizon), |log|)
    ensures r.BadLog? <==> after >= Horizon(log, scanHorizon) && !(PositionsAscend(log) && Sound(AsWalAll(log)))
    ensures r.Served? ==> ExactPage(log, after, limit, who, r.page)
    ensures r.Served? ==> PageOf(After(SettledIn(log, log, who), after), after, limit, r.page)
    ensures r.Served? && Contiguous(log) ==> IsPage(log, after, limit, who, r.page)
  {
    hide ExactPage, PageOf, SettledIn, Settled, Sound, Contiguous;
    var earliest := Horizon(log, scanHorizon);
    if after < earliest { return TooOld(after, earliest, |log|); }
    var ascending := ValidatePositions(log);
    if !ascending { return BadLog; }
    var classified := Recovery.ClassifyTransactions(AsWalAll(log));
    if classified.None? { return BadLog; }
    var page := Collect(log, classified.value, after, limit, who);
    ExactIsPage(log, after, limit, who, page);
    FramesAreUnits(log, who);
    return Served(page);
  }

  method Collect(log: seq<LogRecord>, committed: map<nat, nat>, after: nat, limit: nat, who: Viewer)
    returns (page: Page)
    requires PositionsAscend(log) && Recovery.Classified(AsWalAll(log), committed)
    ensures ExactPage(log, after, limit, who, page)
  {
    hide After, SettledIn, UnitChanges, Recovery.Classified, Stops, Upto, Bound, IsUnit, CommittedIn, EndsAt,
         NoneYet, AsWalAll;
    page := Page([], after, true);
    var index := 0;
    ghost var reached := 0;
    Start(log, after, who);
    while index < |log|
      invariant 0 <= index <= |log| && Bound(log, index) && reached == index
      invariant page.changes == Upto(log, index, after, who)
      invariant page.complete && page.next == LastAt(page.changes, after)
      invariant limit > 0 && index < |log| ==> |page.changes| < limit
      invariant NoneYet(log, after, limit, who, index)
      decreases |log| - index
    {
      ghost var lo := index;
      var nextIndex := DurableUnit(log, index);
      var unit := log[index..nextIndex];
      var state := StateOf(unit, committed, nextIndex == |log|);
      UnitSettles(log, index, nextIndex, committed, after, who);
      if state.InFlight? {
        NotFull(log, after, limit, who, lo, nextIndex);
        Onward(log, after, limit, who, lo, nextIndex);
        reached := nextIndex;
        break;
      }
      AscendSlice(log, index, nextIndex);
      index, reached := nextIndex, nextIndex;
      if state.Terminal? {
        NotCommitted(log, after, limit, who, lo, index);
        Onward(log, after, limit, who, lo, index);
        continue;
      }
      ghost var cs := UnitChanges(unit, who);
      UnitChangesAscend(unit, who);
      if unit[|unit| - 1].position <= after {
        AfterNone(cs, after);
        NotReached(log, after, limit, who, lo, index);
        Onward(log, after, limit, who, lo, index);
        continue;
      }
      var changes := EmitUnit(unit, after, who, page.changes);
      page := Page(changes, if changes == [] then page.next else changes[|changes| - 1].at, true);
      if |page.changes| >= limit && index < |log| {
        Ends(log, after, limit, who, lo, index);
        page := page.(complete := false);
        return;
      }
      NotFull(log, after, limit, who, lo, index);
      Onward(log, after, limit, who, lo, index);
    }
    NoStopAtEnd(log, after, limit, who);
  }

  lemma Start(log: seq<LogRecord>, after: nat, who: Viewer)
    ensures Bound(log, 0) && Upto(log, 0, after, who) == []
    ensures forall limit: nat :: NoneYet(log, after, limit, who, 0)
  {
    assert log[..0] == [];
  }

  /** A page does not end before index `n`, or there. */
  ghost predicate NoneYet(log: seq<LogRecord>, after: nat, limit: nat, who: Viewer, n: nat) {
    forall i: nat, j: nat :: j <= n ==> !Stops(log, after, limit, who, i, j)
  }

  lemma Onward(log: seq<LogRecord>, after: nat, limit: nat, who: Viewer, lo: nat, hi: nat)
    requires IsUnit(log, lo, hi) && NoneYet(log, after, limit, who, lo) && !Stops(log, after, limit, who, lo, hi)
    ensures NoneYet(log, after, limit, who, hi)
  {
    hide Stops, IsUnit;
    NoStopWithin(log, after, limit, who, lo, hi);
  }

  /** A unit has no end of another inside it. */
  lemma NoStopWithin(log: seq<LogRecord>, after: nat, limit: nat, who: Viewer, lo: nat, hi: nat)
    requires IsUnit(log, lo, hi)
    ensures forall i: nat, j: nat :: lo < j < hi ==> !Stops(log, after, limit, who, i, j)
    ensures forall i: nat :: Stops(log, after, limit, who, i, hi) ==> i == lo
  {
    hide Upto, Bound, CommittedIn;
    forall i: nat | Stops(log, after, limit, who, i, hi) ensures i == lo {
      assert IsUnit(log, i, hi);
    }
  }

  lemma NotCommitted(log: seq<LogRecord>, after: nat, limit: nat, who: Viewer, lo: nat, hi: nat)
    requires IsUnit(log, lo, hi) && !CommittedIn(log, log[lo].tx)
    ensures !Stops(log, after, limit, who, lo, hi)
  {
  }

  lemma NotReached(log: seq<LogRecord>, after: nat, limit: nat, who: Viewer, lo: nat, hi: nat)
    requires IsUnit(log, lo, hi) && log[hi - 1].position <= after
    ensures !Stops(log, after, limit, who, lo, hi)
  {
  }

  lemma NotFull(log: seq<LogRecord>, after: nat, limit: nat, who: Viewer, lo: nat, hi: nat)
    requires IsUnit(log, lo, hi) && (hi == |log| || |Upto(log, hi, after, who)| < limit)
    ensures !Stops(log, after, limit, who, lo, hi)
  {
    hide Upto;
  }

  lemma Ends(log: seq<LogRecord>, after: nat, limit: nat, who: Viewer, lo: nat, hi: nat)
    requires IsUnit(log, lo, hi) && hi < |log| && CommittedIn(log, log[lo].tx) && log[hi - 1].position > after
    requires |Upto(log, hi, after, who)| >= limit && (limit > 0 ==> |Upto(log, lo, after, who)| < limit)
    requires NoneYet(log, after, limit, who, lo)
    ensures EndsAt(log, after, limit, who, lo, hi)
  {
    hide Upto, CommittedIn, IsUnit;
    NoStopWithin(log, after, limit, who, lo, hi);
  }

  lemma NoStopAtEnd(log: seq<LogRecord>, after: nat, limit: nat, who: Viewer)
    ensures NoneYet(log, after, limit, who, |log|) ==>
              forall i: nat, j: nat :: !Stops(log, after, limit, who, i, j)
  {
  }

  /** The exact page is an initial part of everything settled after the position. */
  lemma ExactIsPage(log: seq<LogRecord>, after: nat, limit: nat, who: Viewer, page: Page)
    requires ExactPage(log, after, limit, who, page)
    ensures PageOf(After(SettledIn(log, log, who), after), after, limit, page)
  {
    hide After, SettledIn;
    assert log[..|log|] == log;
    if !page.complete {
      var lo: nat, hi: nat :| EndsAt(log, after, limit, who, lo, hi) && page.changes == Upto(log, hi, after, who);
      assert log == log[..hi] + log[hi..];
      BoundJoins(log, hi);
      SettledJoins(log, log[..hi], log[hi..], who);
      AfterConcat(SettledIn(log, log[..hi], who), SettledIn(log, log[hi..], who), after);
      Prefixed(page.changes, After(SettledIn(log, log[hi..], who), after));
    }
  }

  /** Two stretches of log between which no frame runs on. */
  predicate Joins(a: seq<LogRecord>, b: seq<LogRecord>) {
    a == [] || b == [] || a[|a| - 1].tx == 0 || a[|a| - 1].tx != b[0].tx
  }

  lemma BoundJoins(log: seq<LogRecord>, i: nat)
    requires i <= |log| && Bound(log, i)
    ensures Joins(log[..i], log[i..])
  {
  }

  lemma {:induction false} SettledJoins(whole: seq<LogRecord>, a: seq<LogRecord>, b: seq<LogRecord>, who: Viewer)
    requires Joins(a, b)
    ensures SettledIn(whole, a + b, who) == SettledIn(whole, a, who) + SettledIn(whole, b, who)
    decreases |a|
  {
    hide UnitChanges, UnitLength, CommittedIn;
    if a == [] {
      assert a + b == b;
    } else {
      var n, all := UnitLength(a), a + b;
      UnitInside(a, b);
      assert all[..n] == a[..n] && all[n..] == a[n..] + b;
      SettledJoins(whole, a[n..], b, who);
    }
  }

  lemma UnitInside(a: seq<LogRecord>, b: seq<LogRecord>)
    requires a != [] && Joins(a, b)
    ensures UnitLength(a + b) == UnitLength(a) && Joins(a[UnitLength(a)..], b)
  {
    var n, all, tx := UnitLength(a), a + b, a[0].tx;
    if tx != 0 {
      if n == |a| && b != [] { assert a[|a| - 1].tx == tx; }
      RunIs(all, tx, n);
    }
    if n < |a| { assert a[n..][|a| - n - 1] == a[|a| - 1]; }
  }

  lemma Prefixed(a: seq<Change>, b: seq<Change>)
    ensures a <= a + b
  {
  }

  lemma AscendSlice(log: seq<LogRecord>, i: nat, j: nat)
    requires PositionsAscend(log) && i <= j <= |log|
    ensures PositionsAscend(log[i..j])
  {
  }

  /** No frame has records on both sides of index `i`. */
  ghost predicate Cut(log: seq<LogRecord>, i: nat) {
    forall j, k :: 0 <= j < i <= k < |log| && log[j].tx == log[k].tx ==> log[j].tx == 0
  }

  /** A unit is the whole of its frame. */
  lemma UnitIsFrame(log: seq<LogRecord>, i: nat, j: nat)
    requires Contiguous(log) && Cut(log, i) && i < |log| && j == i + UnitLength(log[i..])
    ensures Cut(log, j)
    ensures log[i].tx != 0 ==> Project(AsWalAll(log), log[i].tx) == AsWalAll(log[i..j])
  {
    hide Cut, Contiguous, Project, AsWal;
    RunSpan(log, i, j);
    CutNext(log, i, j);
    if log[i].tx != 0 {
      var w := AsWalAll(log);
      SameTx(log);
      SpanProject(w, i, j, log[i].tx);
      assert w[i..j] == AsWalAll(log[i..j]);
    }
  }

  lemma SameTx(log: seq<LogRecord>)
    ensures forall k :: 0 <= k < |log| ==> AsWalAll(log)[k].tx == log[k].tx
  {
  }

  lemma SpanProject(w: seq<Record>, i: nat, j: nat, tx: nat)
    requires i <= j <= |w|
    requires forall k :: 0 <= k < |w| ==> (w[k].tx == tx <==> i <= k < j)
    ensures Project(w, tx) == w[i..j]
  {
    hide Project;
    var a, b, c := w[..i], w[i..j], w[j..];
    assert w == a + (b + c);
    ProjectConcat(a, b + c, tx);
    ProjectConcat(b, c, tx);
    ProjectNone(a, tx);
    ProjectAll(b, tx);
    ProjectNone(c, tx);
    assert [] + (b + []) == b;
  }

  lemma RunSpan(log: seq<LogRecord>, i: nat, j: nat)
    requires i < |log| && j == i + UnitLength(log[i..])
    ensures i < j <= |log|
    ensures forall k :: i <= k < j ==> log[k].tx == log[i].tx
    ensures j < |log| && log[i].tx != 0 ==> log[j].tx != log[i].tx
    ensures log[i].tx == 0 ==> j == i + 1
  {
    assert forall k :: i <= k < j ==> log[i..][k - i] == log[k];
  }

  lemma CutNext(log: seq<LogRecord>, i: nat, j: nat)
    requires Contiguous(log) && Cut(log, i) && i < j <= |log|
    requires forall k :: i <= k < j ==> log[k].tx == log[i].tx
    requires j < |log| && log[i].tx != 0 ==> log[j].tx != log[i].tx
    ensures Cut(log, j)
    ensures log[i].tx != 0 ==> forall k :: 0 <= k < |log| && !(i <= k < j) ==> log[k].tx != log[i].tx
  {
    forall k | j <= k < |log| && log[i].tx != 0 ensures log[k].tx != log[i].tx {
      if k > j { ContiguousAt(log, i, j, k); }
    }
  }

  lemma ContiguousAt(log: seq<LogRecord>, i: nat, j: nat, k: nat)
    requires Contiguous(log) && i < j < k < |log|
    ensures log[i].tx == log[k].tx != 0 ==> log[j].tx == log[i].tx
  {
  }

  /** What one unit adds to what the log has settled so far. */
  lemma UnitSettles(log: seq<LogRecord>, i: nat, j: nat, committed: map<nat, nat>, after: nat, who: Viewer)
    requires Recovery.Classified(AsWalAll(log), committed)
    requires i < |log| && Bound(log, i) && j == i + UnitLength(log[i..])
    ensures IsUnit(log, i, j) && i < j <= |log| && Bound(log, j)
    ensures var state := StateOf(log[i..j], committed, j == |log|);
            && (state.InFlight? ==> j == |log|)
            && (state.Whole? <==> CommittedIn(log, log[i].tx))
            && Upto(log, j, after, who) ==
               Upto(log, i, after, who) + if state.Whole? then After(UnitChanges(log[i..j], who), after) else []
  {
    hide UnitChanges, Judge, Project, UnitLength, Bound, After, SettledIn;
    UnitBounds(log, i, j);
    ClassifiedAt(AsWalAll(log), committed, log[i].tx);
    assert log[..j][..i] == log[..i] && log[..j][i..] == log[i..j];
    assert log[..j] == log[..i] + log[i..j];
    JoinsUnit(log, i, j);
    SettledJoins(log, log[..i], log[i..j], who);
    OneUnit(log, log[i..j], who);
    AfterConcat(SettledIn(log, log[..i], who), SettledIn(log, log[i..j], who), after);
    AfterNone([], after);
  }

  lemma UnitBounds(log: seq<LogRecord>, i: nat, j: nat)
    requires i < |log| && Bound(log, i) && j == i + UnitLength(log[i..])
    ensures IsUnit(log, i, j) && UnitLength(log[i..j]) == j - i
  {
    RunSpan(log, i, j);
    if log[i].tx != 0 { RunIs(log[i..j], log[i].tx, j - i); }
  }

  lemma JoinsUnit(log: seq<LogRecord>, i: nat, j: nat)
    requires i < j <= |log| && Bound(log, i)
    ensures Joins(log[..i], log[i..j])
  {
  }

  lemma OneUnit(whole: seq<LogRecord>, unit: seq<LogRecord>, who: Viewer)
    requires unit != [] && UnitLength(unit) == |unit|
    ensures SettledIn(whole, unit, who) == if CommittedIn(whole, unit[0].tx) then UnitChanges(unit, who) else []
  {
    hide UnitChanges, UnitLength, CommittedIn;
    assert unit[..|unit|] == unit && unit[|unit|..] == [];
  }

  /** Where frames are contiguous, units and frames are the same thing. */
  lemma FramesAreUnits(log: seq<LogRecord>, who: Viewer)
    ensures Contiguous(log) ==> SettledIn(log, log, who) == Settled(log, who)
  {
    hide SettledIn, Settled, Contiguous;
    if Contiguous(log) {
      assert log[0..] == log;
      FramesFrom(log, 0, who);
    }
  }

  lemma {:induction false} FramesFrom(log: seq<LogRecord>, i: nat, who: Viewer)
    requires Contiguous(log) && i <= |log| && Cut(log, i)
    ensures SettledIn(log, log[i..], who) == Settled(log[i..], who)
    decreases |log| - i
  {
    hide Contiguous, Cut, UnitChanges, Judge, Project, UnitLength;
    if i < |log| {
      var rest := log[i..];
      var j := i + UnitLength(rest);
      UnitIsFrame(log, i, j);
      assert rest[..j - i] == log[i..j] && rest[j - i..] == log[j..];
      FramesFrom(log, j, who);
    }
  }

  lemma ClassifiedAt(w: seq<Record>, committed: map<nat, nat>, tx: nat)
    requires Recovery.Classified(w, committed)
    ensures tx != 0 ==> (tx in committed <==> Judge(Project(w, tx)).Committed?)
  {
  }
}
