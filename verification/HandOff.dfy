/** From the change scan to the live feed: one counter numbers both, and a mutation publishes its
    event after it is committed. */
module HandOff {
  import opened Audiences
  import opened Entries
  import opened Frames
  import opened Feed
  import opened ChangeLog
  import opened Changes
  import opened Rotation
  import ChangeTheorems

  /** The shared counter, the log over its rotations, the events emitted, and which event announced
      which change. */
  datatype Hub = Hub(next: nat, kept: Kept, feed: seq<Event>, told: map<Change, nat>)

  const ADMIN := Viewer("", true)

  /** Append a record, rotate the front of the log away, publish the event of a settled change not
      yet announced, or hand out a number to something else. */
  ghost predicate Step(s: Hub, t: Hub) {
    || (exists r :: Appends(s, r, t))
    || (exists n: nat :: Rotates(s, n, t))
    || (exists c, e :: Publishes(s, c, e, t))
    || t == s.(next := s.next + 1)
  }

  /** Numbers are fresh, frames as the writer lock makes them, and a fence keeps the front of an
      open frame from being rotated away. */
  ghost predicate Fresh(k: Kept, r: LogRecord) {
    && WellKept(k.Full() + [r])
    && r.sequence > 0 && (forall i :: 0 <= i < |k.Full()| ==> k.Full()[i].sequence < r.sequence)
    && (r.tx != 0 ==> forall i :: 0 <= i < |k.gone| ==> k.gone[i].tx != r.tx)
  }

  ghost predicate Appends(s: Hub, r: LogRecord, t: Hub) {
    r.position == s.next && t == s.(next := s.next + 1, kept := s.kept.(log := s.kept.log + [r])) && Fresh(s.kept, r)
  }

  /** The checkpoint splits no frame. */
  ghost predicate Rotates(s: Hub, n: nat, t: Hub) {
    && n <= |s.kept.log| && Cut(s.kept.Full(), |s.kept.gone| + n)
    && t == s.(kept := RotateAt(s.kept, n))
  }

  ghost predicate Publishes(s: Hub, c: Change, e: Event, t: Hub) {
    && c in Settled(s.kept.Full(), ADMIN) && c !in s.told && e.at == s.next
    && t == s.(next := s.next + 1, feed := s.feed + [e], told := s.told[c := |s.feed|])
  }

  ghost predicate Inv(s: Hub) {
    && Tidy(s.kept)
    && (forall i :: 0 <= i < |s.kept.Full()| ==> s.kept.Full()[i].position < s.next)
    && (forall i :: 0 <= i < |s.feed| ==> s.feed[i].at < s.next)
    && EventsAscend(s.feed)
    && forall c :: c in s.told ==> c in Settled(s.kept.Full(), ADMIN) && s.told[c] < |s.feed|
  }

  ghost predicate Run(run: seq<Hub>) {
    && |run| > 0 && Inv(run[0])
    && forall i :: 0 <= i < |run| - 1 ==> Step(run[i], run[i + 1])
  }

  /** How a later state relates to an earlier one. */
  ghost predicate Later(s: Hub, t: Hub) {
    && s.next <= t.next && s.kept.Full() <= t.kept.Full() && s.feed <= t.feed
    && (forall i :: |s.feed| <= i < |t.feed| ==> t.feed[i].at >= s.next)
    && (forall c :: c in s.told ==> c in t.told && t.told[c] == s.told[c])
    && forall c :: c in t.told && c !in s.told ==> |s.feed| <= t.told[c] < |t.feed|
  }

  lemma SettledStays(s: Hub, t: Hub, c: Change)
    requires Tidy(t.kept) && s.kept.Full() <= t.kept.Full() && c in Settled(s.kept.Full(), ADMIN)
    ensures c in Settled(t.kept.Full(), ADMIN)
  {
    hide Settled, Sound, Contiguous;
    var a, b := s.kept.Full(), t.kept.Full();
    assert b == a + b[|a|..];
    ChangeTheorems.SoundCommitsEnd(b);
    ChangeTheorems.GrowthKeeps(a, b[|a|..], ADMIN);
  }

  lemma StepKeeps(s: Hub, t: Hub)
    requires Inv(s) && Step(s, t)
    ensures Inv(t) && Later(s, t)
  {
    hide Inv, Later, Appends, Rotates, Publishes;
    if r :| Appends(s, r, t) {
      AppendsKeeps(s, r, t);
    } else if n: nat :| Rotates(s, n, t) {
      RotatesKeeps(s, n, t);
    } else if c, e :| Publishes(s, c, e, t) {
      PublishesKeeps(s, c, e, t);
    } else {
      PassedKeeps(s);
    }
  }

  lemma AppendsKeeps(s: Hub, r: LogRecord, t: Hub)
    requires Inv(s) && Appends(s, r, t)
    ensures Inv(t) && Later(s, t)
  {
    hide Tidy, Settled, EventsAscend, Fresh;
    FreshKeeps(s.kept, r);
    forall c | c in t.told ensures c in Settled(t.kept.Full(), ADMIN) { SettledStays(s, t, c); }
  }

  lemma RotatesKeeps(s: Hub, n: nat, t: Hub)
    requires Inv(s) && Rotates(s, n, t)
    ensures Inv(t) && Later(s, t)
  {
    hide Tidy, Settled, EventsAscend, Cut, RotateAt, Horizon;
    RotateKeeps(s.kept, n);
  }

  lemma PublishesKeeps(s: Hub, c: Change, e: Event, t: Hub)
    requires Inv(s) && Publishes(s, c, e, t)
    ensures Inv(t) && Later(s, t)
  {
    hide Tidy, Settled, EventsAscend;
    AscendsBy(s.feed, e);
  }

  lemma PassedKeeps(s: Hub)
    requires Inv(s)
    ensures Inv(s.(next := s.next + 1)) && Later(s, s.(next := s.next + 1))
  {
    hide Tidy, Settled, EventsAscend;
  }

  lemma FreshKeeps(k: Kept, r: LogRecord)
    requires Tidy(k) && Fresh(k, r)
    ensures Tidy(k.(log := k.log + [r])) && k.(log := k.log + [r]).Full() == k.Full() + [r]
  {
    AppendKeeps(k, r);
  }

  lemma LaterTrans(s: Hub, t: Hub, u: Hub)
    requires Later(s, t) && Later(t, u)
    ensures Later(s, u)
  {
  }

  lemma LaterSelf(s: Hub)
    ensures Later(s, s)
  {
  }

  lemma {:induction false} RunKeeps(run: seq<Hub>, a: nat, b: nat)
    requires Run(run) && a <= b < |run|
    ensures Inv(run[a]) && Inv(run[b]) && Later(run[a], run[b])
    decreases b
  {
    hide Inv, Later, Step;
    if b == 0 {
      LaterSelf(run[0]);
    } else if a == b {
      RunKeeps(run, a - 1, b - 1);
      StepKeeps(run[b - 1], run[b]);
      LaterSelf(run[b]);
    } else {
      RunKeeps(run, a, b - 1);
      StepKeeps(run[b - 1], run[b]);
      LaterTrans(run[a], run[b - 1], run[b]);
    }
  }

  lemma RunHas(run: seq<Hub>)
    requires Run(run)
    ensures |run| > 0
  {
  }

  lemma RunGrows(run: seq<Hub>, t: Hub)
    requires Run(run) && |run| > 0 && Step(run[|run| - 1], t)
    ensures Run(run + [t])
  {
    hide Step, Inv;
    var all := run + [t];
    forall i | 0 <= i < |all| - 1 ensures Step(all[i], all[i + 1]) {
      assert all[i] == run[i] && (i + 1 < |run| ==> all[i + 1] == run[i + 1]);
    }
  }

  lemma Appended(s: Hub, r: LogRecord)
    requires r.position == s.next && Fresh(s.kept, r)
    ensures Step(s, s.(next := s.next + 1, kept := s.kept.(log := s.kept.log + [r])))
  {
    hide Fresh;
    assert Appends(s, r, s.(next := s.next + 1, kept := s.kept.(log := s.kept.log + [r])));
  }

  lemma Rotated(s: Hub, n: nat)
    requires n <= |s.kept.log| && Cut(s.kept.Full(), |s.kept.gone| + n)
    ensures Step(s, s.(kept := RotateAt(s.kept, n)))
  {
    hide Cut, RotateAt;
    assert Rotates(s, n, s.(kept := RotateAt(s.kept, n)));
  }

  lemma Published(s: Hub, c: Change, e: Event)
    requires c in Settled(s.kept.Full(), ADMIN) && c !in s.told && e.at == s.next
    ensures Step(s, s.(next := s.next + 1, feed := s.feed + [e], told := s.told[c := |s.feed|]))
  {
    hide Settled;
    assert Publishes(s, c, e, s.(next := s.next + 1, feed := s.feed + [e], told := s.told[c := |s.feed|]));
  }

  lemma Passed(s: Hub)
    ensures Step(s, s.(next := s.next + 1))
  {
    hide Appends, Publishes, Rotates;
  }

  lemma NoneAscend()
    ensures EventsAscend([])
  {
  }

  // ---- the server ----

  /** The feed and the log behind one counter, with the run they have gone through. */
  class Server {
    const feed: EventFeed
    var log: seq<LogRecord>
    var scanHorizon: nat
    var nextSequence: nat
    ghost var gone: seq<LogRecord>  // rotated away
    ghost var run: seq<Hub>

    ghost function Log(): Kept
      reads this`gone, this`log, this`scanHorizon
    {
      Kept(gone, log, scanHorizon)
    }

    ghost predicate Valid()
      reads this, feed, feed.counter
    {
      && feed.Valid() && Run(run)
      && nextSequence > 0 && (forall i :: 0 <= i < |Log().Full()| ==> Log().Full()[i].sequence < nextSequence)
      && var now := run[|run| - 1];
         now.next == feed.counter.next && now.kept == Log() && now.feed == feed.emitted
    }

    /** Start-up: the counters stand past everything in the log. */
    constructor (live: EventFeed, ghost dropped: seq<LogRecord>, found: seq<LogRecord>, horizon: nat, sequence: nat)
      requires live.Valid() && live.emitted == [] && Tidy(Kept(dropped, found, horizon)) && sequence > 0
      requires forall i :: 0 <= i < |dropped + found| ==>
                 (dropped + found)[i].position < live.counter.next && (dropped + found)[i].sequence < sequence
      ensures Valid() && feed == live && Log() == Kept(dropped, found, horizon) && nextSequence == sequence
      ensures run == [Hub(live.counter.next, Kept(dropped, found, horizon), [], map[])]
    {
      hide Tidy, Settled, Ring, EventsAscend, Edge, Step;
      NoneAscend();
      feed := live;
      log := found;
      scanHorizon := horizon;
      nextSequence := sequence;
      gone := dropped;
      run := [Hub(live.counter.next, Kept(dropped, found, horizon), [], map[])];
    }

    /** The writer appends a record, as its lock and its frames allow. */
    method Append(tx: nat, operation: Operation)
      requires Valid() && WellKept(Log().Full() + [LogRecord(nextSequence, feed.counter.next, tx, operation)])
      requires tx != 0 ==> forall i :: 0 <= i < |gone| ==> gone[i].tx != tx
      modifies this`log, this`nextSequence, this`run, feed.counter
      ensures Valid() && old(run) <= run
      ensures log == old(log) + [LogRecord(old(nextSequence), old(feed.counter.next), tx, operation)]
    {
      hide WellKept, Settled, Run, Step, Ring, EventsAscend, Edge;
      RunHas(run);
      ghost var now := run[|run| - 1];
      var r := LogRecord(nextSequence, feed.counter.next, tx, operation);
      ghost var next := now.(next := now.next + 1, kept := now.kept.(log := now.kept.log + [r]));
      assert Fresh(now.kept, r);
      assert Step(now, next) by { Appended(now, r); }
      RunGrows(run, next);
      assert next.kept.Full() == now.kept.Full() + [r];
      feed.TakenElsewhere();
      log := log + [r];
      nextSequence := nextSequence + 1;
      run := run + [next];
    }

    /** Drop the records at or below the checkpoint, noting the horizon first. */
    method Rotate(checkpoint: nat)
      requires Valid()
      requires forall n :: 0 <= n <= |log| && Splits(log, checkpoint, n) ==> Cut(Log().Full(), |gone| + n)
      modifies this`log, this`scanHorizon, this`gone, this`run
      ensures Valid() && old(run) <= run && Log().Full() == old(Log().Full())
      ensures exists n :: 0 <= n <= |old(log)| && Splits(old(log), checkpoint, n) && log == old(log)[n..]
      ensures Horizon(log, scanHorizon) >= old(Horizon(log, scanHorizon))
    {
      hide WellKept, Settled, Run, Step, Ring, EventsAscend, Edge, Cut, Noted, Tidy;
      RunHas(run);
      RunKeeps(run, |run| - 1, |run| - 1);
      ghost var now := run[|run| - 1];
      Ordered(Log());
      var n, highest := Front(log, checkpoint, scanHorizon);
      RotateKeeps(Log(), n);
      assert Step(now, now.(kept := RotateAt(now.kept, n))) by { Rotated(now, n); }
      RunGrows(run, now.(kept := RotateAt(now.kept, n)));
      run := run + [now.(kept := RotateAt(now.kept, n))];
      gone := gone + log[..n];
      scanHorizon := highest;
      log := log[n..];
    }

    /** A handler announces a change its mutation has settled. */
    method Publish(c: Change, payload: string, audience: Audience) returns (at: nat)
      requires Valid() && c in Settled(Log().Full(), ADMIN) && c !in run[|run| - 1].told
      modifies this`run, feed, feed.counter
      ensures Valid() && old(run) <= run
      ensures var told := run[|run| - 1].told;
              c in told && told[c] < |feed.emitted| && feed.emitted[told[c]] == Event(at, payload, audience)
    {
      hide WellKept, Settled, Run, Step, Ring, EventsAscend, Edge;
      RunHas(run);
      ghost var now := run[|run| - 1];
      at := feed.Emit(payload, audience);
      ghost var e := Event(at, payload, audience);
      ghost var next := now.(next := now.next + 1, feed := now.feed + [e], told := now.told[c := |now.feed|]);
      assert Step(now, next) by { Published(now, c, e); }
      RunGrows(run, next);
      run := run + [next];
    }

    /** A history version takes a number. */
    method Elsewhere()
      requires Valid()
      modifies this`run, feed.counter
      ensures Valid() && old(run) <= run
    {
      hide WellKept, Settled, Run, Step, Ring, EventsAscend, Edge;
      RunHas(run);
      ghost var now := run[|run| - 1];
      feed.TakenElsewhere();
      assert Step(now, now.(next := now.next + 1)) by { Passed(now); }
      RunGrows(run, now.(next := now.next + 1));
      run := run + [now.(next := now.next + 1)];
    }

    /** Read a page of the log: refused below its horizon, otherwise a page of what is settled. */
    method Page(after: nat, limit: nat, who: Viewer) returns (r: ScanResult)
      requires Valid()
      ensures ChangeTheorems.Answers(Log(), after, limit, who, r)
    {
      hide Settled, SettledIn, After, PageOf, Run, Step, Ring, Edge;
      RunHas(run);
      RunKeeps(run, |run| - 1, |run| - 1);
      FileKept(Log());
      r := Scan(log, scanHorizon, after, limit, who);
    }

    /** Open the live feed, resuming after a position if one is given. */
    method Events(after: Option<nat>) returns (r: Resume)
      requires Valid()
      ensures r.Refused? <==> after.Some? && after.value < Edge(run[|run| - 1].feed, feed.start)
      ensures r.Resumed? ==> r.backlog == if after.Some? then Past(run[|run| - 1].feed, after.value) else []
    {
      r := feed.Subscribe(after);
    }
  }

  /** The checkpoint lies between the first `n` records and the others. */
  predicate Splits(log: seq<LogRecord>, checkpoint: nat, n: nat)
    requires n <= |log|
  {
    && (forall i :: 0 <= i < n ==> log[i].sequence <= checkpoint)
    && forall i :: n <= i < |log| ==> log[i].sequence > checkpoint
  }

  /** How many records a checkpoint lets go, and the horizon to note for them. */
  method Front(log: seq<LogRecord>, checkpoint: nat, scanHorizon: nat) returns (n: nat, highest: nat)
    requires forall i, j :: 0 <= i < j < |log| ==> log[i].sequence < log[j].sequence
    ensures n <= |log| && Splits(log, checkpoint, n) && highest == Noted(log[..n], scanHorizon)
  {
    hide Noted;
    n, highest := 0, scanHorizon;
    assert log[..0] == [];
    NotedNone(scanHorizon);
    while n < |log| && log[n].sequence <= checkpoint
      invariant n <= |log| && forall i :: 0 <= i < n ==> log[i].sequence <= checkpoint
      invariant highest == Noted(log[..n], scanHorizon)
    {
      NotedStep(log, n, scanHorizon);
      if highest < log[n].position { highest := log[n].position; }
      n := n + 1;
    }
  }

  lemma Ordered(k: Kept)
    requires Tidy(k)
    ensures forall i, j :: 0 <= i < j < |k.log| ==> k.log[i].sequence < k.log[j].sequence
  {
    hide Intact;
    forall i, j | 0 <= i < j < |k.log| ensures k.log[i].sequence < k.log[j].sequence {
      var p, q := |k.gone| + i, |k.gone| + j;
      assert k.log[i] == k.Full()[p] && k.log[j] == k.Full()[q];
    }
  }

  lemma NotedNone(scanHorizon: nat)
    ensures Noted([], scanHorizon) == scanHorizon
  {
  }

  lemma NotedStep(log: seq<LogRecord>, n: nat, scanHorizon: nat)
    requires n < |log|
    ensures var p := Noted(log[..n], scanHorizon);
            Noted(log[..n + 1], scanHorizon) == if p < log[n].position then log[n].position else p
  {
    assert log[..n + 1][..n] == log[..n];
  }

  // ---- the two hand-offs ----

  /** Pages taken one after another, the last one complete and read at moment `b`. */
  ghost predicate PagedTo(run: seq<Hub>, b: nat, calls: seq<ChangeTheorems.Call>, after: nat, who: Viewer) {
    && b < |run| && calls != [] && ChangeTheorems.Chained(calls, after, who)
    && calls[|calls| - 1].kept == run[b].kept && after < run[b].next
    && calls[|calls| - 1].answer.Served? && calls[|calls| - 1].answer.page.complete
  }

  /** A change a viewer may see by moment `e` and was not shown in the pages, if announced at all,
      was announced after moment `b`. */
  lemma ToldLater(run: seq<Hub>, b: nat, e: nat, calls: seq<ChangeTheorems.Call>, after: nat, who: Viewer, c: Change)
    requires Run(run) && b <= e < |run| && PagedTo(run, b, calls, after, who)
    requires c in Settled(run[e].kept.Full(), who) && c.at > after && c in run[e].told
    ensures c in ChangeTheorems.Gathered(calls)
            || (|run[b].feed| <= run[e].told[c] < |run[e].feed| && run[e].feed[run[e].told[c]].at >= run[b].next)
  {
    hide Settled, After, WellKept, ChangeTheorems.Chained, ChangeTheorems.Gathered;
    RunKeeps(run, b, e);
    ChangeTheorems.ChainExact(calls, after, who);
    if c in run[b].told {
      Grew(run[b], run[e]);
      SeenThen(run[b].kept.Full(), run[e].kept.Full()[|run[b].kept.Full()|..], who, c);
      var cs := Settled(run[b].kept.Full(), who);
      var i :| 0 <= i < |cs| && cs[i] == c;
      AfterHas(cs, after, i);
    }
  }

  lemma Grew(s: Hub, t: Hub)
    requires Later(s, t) && Inv(t)
    ensures var a, b := s.kept.Full(), t.kept.Full();
            b == a + b[|a|..] && PositionsAscend(a + b[|a|..]) && ChangeTheorems.CommitsEnd(a + b[|a|..])
  {
    hide Sound, Settled, Contiguous;
    var a, b := s.kept.Full(), t.kept.Full();
    assert b == a + b[|a|..];
    ChangeTheorems.SoundCommitsEnd(b);
  }

  /** Where the pages end lies below everything numbered since. */
  lemma PagesEnd(run: seq<Hub>, b: nat, calls: seq<ChangeTheorems.Call>, after: nat, who: Viewer)
    requires Run(run) && PagedTo(run, b, calls, after, who)
    ensures ChangeTheorems.Resume(calls, after) < run[b].next
  {
    hide Settled, After, ChangeTheorems.Gathered, ChangeTheorems.Chained;
    RunKeeps(run, b, b);
    ChangeTheorems.ChainExact(calls, after, who);
    var cs := Settled(run[b].kept.Full(), who);
    SettledAscends(run[b].kept.Full(), who);
    var n := AfterSuffix(cs, after);
  }

  /** Scan first, then resume the feed where the pages ended. The resume is refused exactly below
      the feed's horizon. Granted at moment `s`, its backlog and the live events are every event
      past that point; and every change the viewer may see by moment `e` was in the pages, or
      has not been announced yet, or its event is among them. */
  lemma ScanThenSubscribe(run: seq<Hub>, b: nat, s: nat, e: nat, calls: seq<ChangeTheorems.Call>, after: nat,
                          who: Viewer, backlog: seq<Event>)
    requires Run(run) && b <= s <= e < |run| && PagedTo(run, b, calls, after, who)
    requires backlog == Past(run[s].feed, ChangeTheorems.Resume(calls, after))
    ensures run[s].feed <= run[e].feed
    ensures var events := backlog + run[e].feed[|run[s].feed|..];
            && events == Past(run[e].feed, ChangeTheorems.Resume(calls, after))
            && forall c :: c in Settled(run[e].kept.Full(), who) && c.at > after ==>
                 || c in ChangeTheorems.Gathered(calls) || c !in run[e].told
                 || (run[e].told[c] < |run[e].feed| && run[e].feed[run[e].told[c]] in events)
  {
    hide Settled, Past, Inv, Step, PagedTo, Run, ChangeTheorems.Gathered;
    var next := ChangeTheorems.Resume(calls, after);
    RunKeeps(run, b, s);
    RunKeeps(run, s, e);
    PagesEnd(run, b, calls, after, who);
    LiveIsPast(run[s].feed, run[e].feed, next);
    forall c | c in Settled(run[e].kept.Full(), who) && c.at > after
               && c !in ChangeTheorems.Gathered(calls) && c in run[e].told
      ensures run[e].told[c] < |run[e].feed| && run[e].feed[run[e].told[c]] in Past(run[e].feed, next)
    {
      ToldLater(run, b, e, calls, after, who, c);
      PastHas(run[e].feed, next, run[e].told[c]);
    }
  }

  /** One page, then a resume where it ends. It is refused exactly below the feed's horizon, and
      so always while nothing has been logged since the process started. */
  method PageThenResume(server: Server, after: nat, limit: nat, who: Viewer)
    returns (p: ScanResult, r: Option<Resume>)
    requires server.Valid()
    ensures p.Served? <==> r.Some?
    ensures p.Served? ==> (r.value.Refused? <==> p.page.next < server.feed.earliest)
    ensures p.Served? && after < server.feed.start
            && (forall i :: 0 <= i < |server.log| ==> server.log[i].position < server.feed.start) ==>
              r.value.Refused?
  {
    hide Settled, Run, Ring, EventsAscend;
    p := server.Page(after, limit, who);
    if !p.Served? { return p, None; }
    PageBelow(server.log, after, limit, who, p.page, server.feed.start);
    var answer := server.Events(Some(p.page.next));
    r := Some(answer);
  }

  lemma PageBelow(log: seq<LogRecord>, after: nat, limit: nat, who: Viewer, page: Page, top: nat)
    requires IsPage(log, after, limit, who, page)
    ensures after < top && (forall i :: 0 <= i < |log| ==> log[i].position < top) ==> page.next < top
  {
    hide Settled, After;
    if after < top && forall i :: 0 <= i < |log| ==> log[i].position < top {
      SettledBelow(log, who, top - 1);
      AfterFrom(Settled(log, who), after, top - 1);
    }
  }

  lemma {:induction false} AfterFrom(cs: seq<Change>, after: nat, p: nat)
    requires forall i :: 0 <= i < |cs| ==> cs[i].at <= p
    ensures forall i :: 0 <= i < |After(cs, after)| ==> After(cs, after)[i].at <= p
  {
    if cs != [] { AfterFrom(cs[..|cs| - 1], after, p); }
  }

  /** Subscribe first at moment `s`, then page to completion: never refused, and every change the
      viewer may see by moment `e` was in the pages, or has not been announced yet, or its event
      came live and lies past where the pages ended. */
  lemma SubscribeThenScan(run: seq<Hub>, s: nat, b: nat, e: nat, calls: seq<ChangeTheorems.Call>, after: nat,
                          who: Viewer, c: Change)
    requires Run(run) && s <= b <= e < |run| && PagedTo(run, b, calls, after, who)
    requires c in Settled(run[e].kept.Full(), who) && c.at > after
    ensures run[s].feed <= run[e].feed
    ensures || c in ChangeTheorems.Gathered(calls) || c !in run[e].told
            || (run[e].told[c] < |run[e].feed|
                && run[e].feed[run[e].told[c]] in run[e].feed[|run[s].feed|..]
                && run[e].feed[run[e].told[c]].at > ChangeTheorems.Resume(calls, after))
  {
    hide Settled, Inv, Step, PagedTo, Run, ChangeTheorems.Gathered;
    RunKeeps(run, s, b);
    RunKeeps(run, s, e);
    PagesEnd(run, b, calls, after, who);
    if c in run[e].told && c !in ChangeTheorems.Gathered(calls) {
      ToldLater(run, b, e, calls, after, who, c);
      var i := run[e].told[c];
      assert run[e].feed[|run[s].feed|..][i - |run[s].feed|] == run[e].feed[i];
    }
  }

  /** A change settled early for someone and late for a viewer was settled early for the viewer. */
  lemma {:induction false} SeenThen(log: seq<LogRecord>, more: seq<LogRecord>, who: Viewer, c: Change)
    requires PositionsAscend(log + more) && ChangeTheorems.CommitsEnd(log + more)
    requires c in Settled(log, ADMIN) && c in Settled(log + more, who)
    ensures c in Settled(log, who)
    decreases |log|
  {
    hide UnitChanges, CommittedUnit, ChangeTheorems.CommitsEnd, PositionsAscend;
    var n, all := UnitLength(log), log + more;
    var unit, rest := log[..n], log[n..];
    assert n == |log| ==> unit == log && rest == [];
    ChangeTheorems.SameUnit(log, more);
    assert all[..n] == unit && all[n..] == rest + more;
    ChangeTheorems.EndsPast(all, n);
    Beyond(all, n, who, c);
    if CommittedUnit(unit) {
      if c !in UnitChanges(unit, who) {
        assert c in Settled(rest + more, who);
        assert c !in UnitChanges(unit, ADMIN);
        SeenThen(rest, more, who, c);
      }
    } else {
      SeenThen(rest, more, who, c);
    }
  }

  /** Nothing past a unit carries a position of it. */
  lemma Beyond(log: seq<LogRecord>, n: nat, who: Viewer, c: Change)
    requires PositionsAscend(log) && 0 < n <= |log|
    ensures PositionsAscend(log[n..])
    ensures c in Settled(log[n..], who) ==> c !in UnitChanges(log[..n], ADMIN)
  {
    hide Settled, UnitChanges;
    AscendSplit(log, n);
    SettledAscends(log[n..], who);
    UnitChangesAscend(log[..n], ADMIN);
  }
}
