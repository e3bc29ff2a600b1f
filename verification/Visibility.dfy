/** Who is shown a change, said of the log itself. */
module Visibility {
  import opened Audiences
  import opened Entries
  import opened Wal
  import opened Frames
  import opened ChangeLog
  import opened Changes

  /** A node everyone, an administrator or its owner may know of. */
  predicate MaySee(node: Node, who: Viewer) {
    node.visibility == Public || who.admin || node.owner == who.owner
  }

  lemma AudienceIs(node: Node, who: Viewer)
    ensures ForNode(node).Admits(who) <==> MaySee(node, who)
  {
  }

  // ---- one unit ----

  predicate Replaces(r: LogRecord, address: string) {
    match r.operation
    case Archive(node) => node.address == address
    case Delete(a) => a == address
    case _ => false
  }

  /** In front of record `j` the unit has archived this state of the address, and has neither
      archived nor deleted it since. */
  ghost predicate ArchivedBefore(unit: seq<LogRecord>, j: nat, address: string, node: Node) {
    exists i :: 0 <= i < j <= |unit| && unit[i].operation == Archive(node) && node.address == address
                && forall k :: i < k < j ==> !Replaces(unit[k], address)
  }

  /** Record `j` changes a node: which, how, and whose state says who may know. */
  ghost predicate Concerns(unit: seq<LogRecord>, j: nat, subject: Node, c: Change) {
    && j < |unit| && c.at == unit[j].position && c.kind == subject.kind
    && match unit[j].operation
       case Insert(node) =>
         && subject == node && c.address == node.address
         && c.change == (if exists old_ :: ArchivedBefore(unit, j, node.address, old_) then Updated else Created)
       case Delete(address) =>
         ArchivedBefore(unit, j, address, subject) && c.address == address && c.change == Deleted
       case _ => false
  }

  lemma {:induction false} ArchivedIs(unit: seq<LogRecord>, n: nat, address: string, node: Node)
    requires n <= |unit|
    ensures (address in ArchivedAll(map[], unit[..n]) && ArchivedAll(map[], unit[..n])[address] == node)
            <==> ArchivedBefore(unit, n, address, node)
  {
    if n > 0 {
      assert unit[..n][..n - 1] == unit[..n - 1];
      ArchivedIs(unit, n - 1, address, node);
      ArchivedStep(unit, n - 1, address, node);
    }
  }

  lemma ArchivedStep(unit: seq<LogRecord>, n: nat, address: string, node: Node)
    requires n < |unit|
    ensures ArchivedBefore(unit, n + 1, address, node) <==>
            if Replaces(unit[n], address) then unit[n].operation == Archive(node) && node.address == address
            else ArchivedBefore(unit, n, address, node)
  {
    if Replaces(unit[n], address) {
      if unit[n].operation == Archive(node) && node.address == address {
        assert ArchivedBefore(unit, n + 1, address, node);
      }
    } else {
      if ArchivedBefore(unit, n, address, node) {
        var i :| 0 <= i < n && unit[i].operation == Archive(node) && node.address == address
                 && forall k :: i < k < n ==> !Replaces(unit[k], address);
        assert ArchivedBefore(unit, n + 1, address, node);
      }
      if ArchivedBefore(unit, n + 1, address, node) {
        var i :| 0 <= i < n + 1 && unit[i].operation == Archive(node) && node.address == address
                 && forall k :: i < k < n + 1 ==> !Replaces(unit[k], address);
        assert i < n;
      }
    }
  }

  /** What one record shows a viewer. */
  lemma EmittedIs(unit: seq<LogRecord>, j: nat, who: Viewer, c: Change)
    requires j < |unit|
    ensures c in Emitted(unit[j], ArchivedAll(map[], unit[..j]), who) <==>
            exists subject :: MaySee(subject, who) && Concerns(unit, j, subject, c)
  {
    hide ArchivedAll, ArchivedBefore;
    var archived := ArchivedAll(map[], unit[..j]);
    forall node: Node, address: string
      ensures (address in archived && archived[address] == node) <==> ArchivedBefore(unit, j, address, node)
    {
      ArchivedIs(unit, j, address, node);
    }
    match unit[j].operation {
      case Insert(node) =>
        AudienceIs(node, who);
        assert node.address in archived <==> exists old_ :: ArchivedBefore(unit, j, node.address, old_) by {
          if node.address in archived { assert ArchivedBefore(unit, j, node.address, archived[node.address]); }
        }
        if MaySee(node, who) && Concerns(unit, j, node, c) {}
      case Delete(address) =>
        if address in archived { AudienceIs(archived[address], who); }
      case _ =>
    }
  }

  /** A unit shows a viewer exactly the changes of its records whose subject they may see. */
  lemma {:induction false} UnitShows(unit: seq<LogRecord>, n: nat, who: Viewer, c: Change)
    requires n <= |unit|
    ensures c in UnitChanges(unit[..n], who) <==>
            exists j: nat, subject :: j < n && MaySee(subject, who) && Concerns(unit, j, subject, c)
  {
    hide Emitted, ArchivedAll, Concerns, MaySee;
    if n > 0 {
      assert unit[..n][..n - 1] == unit[..n - 1] && unit[..n][n - 1] == unit[n - 1];
      UnitShows(unit, n - 1, who, c);
      EmittedIs(unit, n - 1, who, c);
    }
  }

  // ---- the log ----

  /** The log reports a change of a subject: a record of a committed unit makes it. */
  ghost predicate Reports(log: seq<LogRecord>, lo: nat, hi: nat, j: nat, subject: Node, c: Change) {
    && IsUnit(log, lo, hi) && CommittedIn(log, log[lo].tx)
    && Concerns(log[lo..hi], j, subject, c)
  }

  ghost predicate Visible(log: seq<LogRecord>, who: Viewer, c: Change) {
    exists lo: nat, hi: nat, j: nat, subject :: Reports(log, lo, hi, j, subject, c) && MaySee(subject, who)
  }

  /** Exactly the changes of committed units whose subject is public, or the viewer's own, or anyone's
      to an administrator. */
  lemma SettledShows(log: seq<LogRecord>, who: Viewer, c: Change)
    ensures c in SettledIn(log, log, who) <==> Visible(log, who, c)
  {
    hide SettledIn, Concerns, MaySee, IsUnit, CommittedIn;
    assert log[..|log|] == log;
    StartsBound(log);
    SettledUpto(log, |log|, who, c);
    if lo: nat, hi: nat, j: nat, subject :| Reports(log, lo, hi, j, subject, c) && MaySee(subject, who) {
      UnitEndsIn(log, lo, hi);
      assert ReportedTo(log, |log|, who, c);
    }
  }

  lemma StartsBound(log: seq<LogRecord>)
    ensures Bound(log, |log|)
  {
  }

  lemma UnitEndsIn(log: seq<LogRecord>, lo: nat, hi: nat)
    requires IsUnit(log, lo, hi)
    ensures hi <= |log|
  {
  }

  lemma {:induction false} SettledUpto(log: seq<LogRecord>, n: nat, who: Viewer, c: Change)
    requires n <= |log| && Bound(log, n)
    ensures c in SettledIn(log, log[..n], who) <==> ReportedTo(log, n, who, c)
    decreases n
  {
    hide SettledIn, Concerns, MaySee, CommittedIn, UnitChanges, Bound, IsUnit;
    if n == 0 {
      NoneIn(log, who);
      forall lo: nat, hi: nat | IsUnit(log, lo, hi) ensures hi > 0 { NotEmpty(log, lo, hi); }
    } else {
      var lo := LastUnit(log, n);
      SettledUpto(log, lo, who, c);
      UnitAdds(log, lo, n, who);
      UnitShows(log[lo..n], n - lo, who, c);
      assert log[lo..n][..n - lo] == log[lo..n];
      ReportedStep(log, lo, n, who, c);
    }
  }

  ghost predicate ReportedTo(log: seq<LogRecord>, n: nat, who: Viewer, c: Change) {
    exists lo: nat, hi: nat, j: nat, subject ::
      hi <= n && Reports(log, lo, hi, j, subject, c) && MaySee(subject, who)
  }

  lemma ReportedStep(log: seq<LogRecord>, lo: nat, hi: nat, who: Viewer, c: Change)
    requires IsUnit(log, lo, hi) && lo < hi <= |log|
    ensures ReportedTo(log, hi, who, c) <==>
            || ReportedTo(log, lo, who, c)
            || (CommittedIn(log, log[lo].tx)
                && exists j: nat, subject ::
                     j < hi - lo && MaySee(subject, who) && Concerns(log[lo..hi], j, subject, c))
  {
    hide MaySee, CommittedIn, IsUnit;
    if a: nat, b: nat, j: nat, subject :| b <= hi && Reports(log, a, b, j, subject, c) && MaySee(subject, who) {
      if b > lo { SameEnd(log, lo, hi, a, b); } else { assert ReportedTo(log, lo, who, c); }
    }
    if CommittedIn(log, log[lo].tx) {
      if j: nat, subject :| j < hi - lo && MaySee(subject, who) && Concerns(log[lo..hi], j, subject, c) {
        assert Reports(log, lo, hi, j, subject, c);
      }
    }
  }

  lemma NoneIn(log: seq<LogRecord>, who: Viewer)
    ensures SettledIn(log, log[..0], who) == []
  {
  }

  lemma NotEmpty(log: seq<LogRecord>, lo: nat, hi: nat)
    requires IsUnit(log, lo, hi)
    ensures lo < hi <= |log|
  {
  }

  lemma SameEnd(log: seq<LogRecord>, lo: nat, hi: nat, a: nat, b: nat)
    requires IsUnit(log, lo, hi) && IsUnit(log, a, b) && lo < b <= hi
    ensures a == lo && b == hi
  {
  }

  /** The unit that ends at a boundary. */
  lemma LastUnit(log: seq<LogRecord>, n: nat) returns (lo: nat)
    requires 0 < n <= |log| && Bound(log, n)
    ensures lo < n && IsUnit(log, lo, n) && Bound(log, lo)
  {
    lo := n - 1;
    while !Bound(log, lo)
      invariant lo < n && forall i :: lo < i < n ==> !Bound(log, i)
      decreases lo
    {
      lo := lo - 1;
    }
  }

  lemma UnitAdds(log: seq<LogRecord>, lo: nat, hi: nat, who: Viewer)
    requires IsUnit(log, lo, hi)
    ensures SettledIn(log, log[..hi], who) == SettledIn(log, log[..lo], who)
            + if CommittedIn(log, log[lo].tx) then UnitChanges(log[lo..hi], who) else []
  {
    hide SettledIn, UnitChanges, CommittedIn;
    UnitIsLong(log, lo, hi);
    assert log[..hi] == log[..lo] + log[lo..hi];
    JoinsUnit(log, lo, hi);
    SettledJoins(log, log[..lo], log[lo..hi], who);
    OneUnit(log, log[lo..hi], who);
  }

  lemma UnitIsLong(log: seq<LogRecord>, lo: nat, hi: nat)
    requires IsUnit(log, lo, hi)
    ensures UnitLength(log[lo..hi]) == hi - lo && log[lo..hi][0] == log[lo]
  {
    var unit, tx := log[lo..hi], log[lo].tx;
    if hi > lo + 1 { assert !Bound(log, lo + 1); }
    if tx != 0 {
      SameRun(log, lo, hi);
      RunIs(unit, tx, hi - lo);
    }
  }

  lemma {:induction false} SameRun(log: seq<LogRecord>, lo: nat, hi: nat)
    requires lo < hi <= |log| && forall i :: lo < i < hi ==> !Bound(log, i)
    ensures forall i :: lo <= i < hi ==> log[i].tx == log[lo].tx
    decreases hi
  {
    if hi > lo + 1 {
      SameRun(log, lo, hi - 1);
      assert !Bound(log, hi - 1);
    }
  }

  // ---- other owners' private nodes ----

  /** Two records that differ at most in the contents of a node the viewer may not see. */
  predicate Alike(a: LogRecord, b: LogRecord, who: Viewer) {
    && a.sequence == b.sequence && a.position == b.position && a.tx == b.tx
    && (a.operation == b.operation
        || (a.operation.Insert? && b.operation.Insert? && Hidden(a.operation.node, b.operation.node, who))
        || (a.operation.Archive? && b.operation.Archive? && Hidden(a.operation.node, b.operation.node, who)))
  }

  predicate Hidden(a: Node, b: Node, who: Viewer) {
    && a.address == b.address && !who.admin
    && a.visibility == Private && a.owner != who.owner && b.visibility == Private && b.owner != who.owner
  }

  ghost predicate AllAlike(a: seq<LogRecord>, b: seq<LogRecord>, who: Viewer) {
    |a| == |b| && forall i :: 0 <= i < |a| ==> Alike(a[i], b[i], who)
  }

  /** The archives agree but for hidden states. */
  ghost predicate SameArchive(x: map<string, Node>, y: map<string, Node>, who: Viewer) {
    x.Keys == y.Keys && forall k :: k in x ==> x[k] == y[k] || Hidden(x[k], y[k], who)
  }

  lemma {:induction false} ArchivesAlike(a: seq<LogRecord>, b: seq<LogRecord>, who: Viewer)
    requires AllAlike(a, b, who)
    ensures SameArchive(ArchivedAll(map[], a), ArchivedAll(map[], b), who)
  {
    if a != [] {
      var n := |a| - 1;
      ArchivesAlike(a[..n], b[..n], who);
      assert Alike(a[n], b[n], who);
    }
  }

  lemma EmittedAlike(r: LogRecord, q: LogRecord, x: map<string, Node>, y: map<string, Node>, who: Viewer)
    requires Alike(r, q, who) && SameArchive(x, y, who)
    ensures Emitted(r, x, who) == Emitted(q, y, who)
  {
    hide MaySee;
    match r.operation {
      case Insert(node) =>
        AudienceIs(node, who);
        AudienceIs(q.operation.node, who);
        if r.operation != q.operation { HiddenUnseen(node, q.operation.node, who); }
      case Delete(address) =>
        if address in x {
          AudienceIs(x[address], who);
          AudienceIs(y[address], who);
          if x[address] != y[address] { HiddenUnseen(x[address], y[address], who); }
        }
      case _ =>
    }
  }

  lemma HiddenUnseen(a: Node, b: Node, who: Viewer)
    requires Hidden(a, b, who)
    ensures !MaySee(a, who) && !MaySee(b, who)
  {
  }

  lemma {:induction false} UnitsAlike(a: seq<LogRecord>, b: seq<LogRecord>, who: Viewer)
    requires AllAlike(a, b, who)
    ensures UnitChanges(a, who) == UnitChanges(b, who)
  {
    hide Emitted, ArchivedAll, Alike;
    if a != [] {
      var n := |a| - 1;
      UnitsAlike(a[..n], b[..n], who);
      ArchivesAlike(a[..n], b[..n], who);
      EmittedAlike(a[n], b[n], ArchivedAll(map[], a[..n]), ArchivedAll(map[], b[..n]), who);
    }
  }

  lemma {:induction false} SettledAlike(v: seq<LogRecord>, w: seq<LogRecord>, a: seq<LogRecord>, b: seq<LogRecord>,
                                        who: Viewer)
    requires AllAlike(v, w, who) && AllAlike(a, b, who)
    ensures SettledIn(v, a, who) == SettledIn(w, b, who)
    decreases |a|
  {
    hide UnitChanges, UnitLength, CommittedIn, Alike;
    if a != [] {
      LengthsAlike(a, b, who);
      var n := UnitLength(a);
      CommittedAlike(v, w, who, a[0].tx);
      UnitsAlike(a[..n], b[..n], who);
      SettledAlike(v, w, a[n..], b[n..], who);
    }
  }

  lemma LengthsAlike(a: seq<LogRecord>, b: seq<LogRecord>, who: Viewer)
    requires AllAlike(a, b, who) && a != []
    ensures UnitLength(a) == UnitLength(b) && a[0].tx == b[0].tx
  {
    assert Alike(a[0], b[0], who);
    if a[0].tx != 0 {
      var n := UnitLength(a);
      assert forall i :: 0 <= i < |a| ==> Alike(a[i], b[i], who) && a[i].tx == b[i].tx;
      RunIs(b, b[0].tx, n);
    }
  }

  lemma SameFrames(v: seq<LogRecord>, w: seq<LogRecord>, who: Viewer)
    requires AllAlike(v, w, who)
    ensures AsWalAll(v) == AsWalAll(w)
  {
    forall i | 0 <= i < |v| ensures AsWal(v[i]) == AsWal(w[i]) { assert Alike(v[i], w[i], who); }
  }

  lemma CommittedAlike(v: seq<LogRecord>, w: seq<LogRecord>, who: Viewer, tx: nat)
    requires AllAlike(v, w, who)
    ensures CommittedIn(v, tx) <==> CommittedIn(w, tx)
  {
    hide AsWalAll, Judge, Project;
    SameFrames(v, w, who);
  }

  /** The exact page of one log is that of the other. */
  lemma PagesAlike(a: seq<LogRecord>, b: seq<LogRecord>, after: nat, limit: nat, who: Viewer, page: Page)
    requires AllAlike(a, b, who) && ExactPage(a, after, limit, who, page)
    ensures ExactPage(b, after, limit, who, page)
  {
    hide Upto, IsUnit, CommittedIn;
    forall i: nat | i <= |a| ensures Upto(a, i, after, who) == Upto(b, i, after, who) {
      UptoAlike(a, b, i, after, who);
    }
    forall lo: nat, hi: nat ensures Stops(a, after, limit, who, lo, hi) <==> Stops(b, after, limit, who, lo, hi) {
      StopsAlike(a, b, after, limit, who, lo, hi);
    }
    if !page.complete {
      var lo: nat, hi: nat :| EndsAt(a, after, limit, who, lo, hi) && page.changes == Upto(a, hi, after, who);
      StopsIn(a, after, limit, who, lo, hi);
      assert Stops(b, after, limit, who, lo, hi);
      assert EndsAt(b, after, limit, who, lo, hi);
    }
  }

  lemma StopsIn(log: seq<LogRecord>, after: nat, limit: nat, who: Viewer, lo: nat, hi: nat)
    requires Stops(log, after, limit, who, lo, hi)
    ensures lo < hi <= |log|
  {
  }

  lemma UptoAlike(a: seq<LogRecord>, b: seq<LogRecord>, i: nat, after: nat, who: Viewer)
    requires AllAlike(a, b, who) && i <= |a|
    ensures Upto(a, i, after, who) == Upto(b, i, after, who)
  {
    hide SettledIn, After, Alike;
    SettledAlike(a, b, a[..i], b[..i], who);
  }

  lemma StopsAlike(a: seq<LogRecord>, b: seq<LogRecord>, after: nat, limit: nat, who: Viewer, lo: nat, hi: nat)
    requires AllAlike(a, b, who)
    ensures Stops(a, after, limit, who, lo, hi) <==> Stops(b, after, limit, who, lo, hi)
  {
    hide Upto, CommittedIn, IsUnit, Alike;
    UnitAlike(a, b, lo, hi, who);
    if IsUnit(a, lo, hi) {
      NotEmpty(a, lo, hi);
      NumbersAlike(a, b, who);
      UptoAlike(a, b, hi, after, who);
      CommittedAlike(a, b, who, a[lo].tx);
    }
  }

  lemma NumbersAlike(a: seq<LogRecord>, b: seq<LogRecord>, who: Viewer)
    requires AllAlike(a, b, who)
    ensures forall i :: 0 <= i < |a| ==>
              a[i].tx == b[i].tx && a[i].position == b[i].position && a[i].sequence == b[i].sequence
  {
    assert forall i :: 0 <= i < |a| ==> Alike(a[i], b[i], who);
  }

  lemma UnitAlike(a: seq<LogRecord>, b: seq<LogRecord>, lo: nat, hi: nat, who: Viewer)
    requires AllAlike(a, b, who)
    ensures IsUnit(a, lo, hi) <==> IsUnit(b, lo, hi)
  {
    hide Alike, Bound;
    forall i: nat | i <= |a| ensures Bound(a, i) <==> Bound(b, i) { BoundAlike(a, b, i, who); }
  }

  lemma BoundAlike(a: seq<LogRecord>, b: seq<LogRecord>, i: nat, who: Viewer)
    requires AllAlike(a, b, who) && i <= |a|
    ensures Bound(a, i) <==> Bound(b, i)
  {
    hide Alike;
    NumbersAlike(a, b, who);
  }

  /** A scan answers the same whatever private nodes of other owners hold. */
  method ScanBoth(a: seq<LogRecord>, b: seq<LogRecord>, scanHorizon: nat, after: nat, limit: nat, who: Viewer)
    returns (r: ScanResult, q: ScanResult)
    requires AllAlike(a, b, who)
    ensures r == q
  {
    hide ExactPage, PageOf, SettledIn, Settled, Sound, Contiguous, IsPage, Alike;
    r := Scan(a, scanHorizon, after, limit, who);
    q := Scan(b, scanHorizon, after, limit, who);
    SameFrames(a, b, who);
    SameNumbers(a, b, scanHorizon, who);
    if r.Served? && q.Served? {
      PagesAlike(a, b, after, limit, who, r.page);
      PageUnique(b, after, limit, who, r.page, q.page);
    }
  }

  lemma SameNumbers(a: seq<LogRecord>, b: seq<LogRecord>, scanHorizon: nat, who: Viewer)
    requires AllAlike(a, b, who)
    ensures Horizon(a, scanHorizon) == Horizon(b, scanHorizon)
    ensures PositionsAscend(a) <==> PositionsAscend(b)
  {
    hide Alike;
    NumbersAlike(a, b, who);
  }

  /** A served page holds only what the viewer may see, and a complete one all of it. */
  method ScanShows(log: seq<LogRecord>, scanHorizon: nat, after: nat, limit: nat, who: Viewer) returns (r: ScanResult)
    ensures r.Served? ==> forall c :: c in r.page.changes ==> c.at > after && Visible(log, who, c)
    ensures r.Served? && r.page.complete ==>
              forall c: Change :: c.at > after && Visible(log, who, c) ==> c in r.page.changes
  {
    hide ExactPage, SettledIn, Settled, Sound, Contiguous, IsPage, Visible, After;
    r := Scan(log, scanHorizon, after, limit, who);
    ghost var all := SettledIn(log, log, who);
    forall c: Change ensures c in After(all, after) <==> c in all && c.at > after { AfterMember(all, after, c); }
    forall c: Change
      ensures c in all <==> Visible(log, who, c)
    {
      SettledShows(log, who, c);
    }
  }

  lemma {:induction false} AfterMember(cs: seq<Change>, after: nat, c: Change)
    ensures c in After(cs, after) <==> c in cs && c.at > after
  {
    if cs != [] { AfterMember(cs[..|cs| - 1], after, c); }
  }
}
