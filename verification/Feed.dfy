/** The live event feed: a bounded ring of recent events behind one lock, and resuming from it. */
module Feed {
  import opened Entries
  import opened Audiences

  const EVENT_REPLAY_CAPACITY: nat := 1024

  datatype Event = Event(at: nat, payload: string, audience: Audience)

  datatype Resume = Refused(requested: nat, earliest: nat, retained: nat) | Resumed(backlog: seq<Event>)

  predicate EventsAscend(es: seq<Event>) {
    forall i, j :: 0 <= i < j < |es| ==> es[i].at < es[j].at
  }

  /** The events past a position. */
  function Past(es: seq<Event>, after: nat): seq<Event> {
    if es == [] then [] else
      Past(es[..|es| - 1], after) + if es[|es| - 1].at > after then [es[|es| - 1]] else []
  }

  /** The retained events are the end of the history, from the horizon on. */
  ghost predicate Ring(history: seq<Event>, retained: seq<Event>, earliest: nat) {
    && |retained| <= |history|
    && retained == history[|history| - |retained|..]
    && (forall i :: 0 <= i < |history| - |retained| ==> history[i].at <= earliest)
    && (forall i :: 0 <= i < |retained| ==> retained[i].at > earliest)
  }

  lemma RingEvicts(history: seq<Event>, retained: seq<Event>, earliest: nat)
    requires EventsAscend(history) && Ring(history, retained, earliest) && retained != []
    ensures Ring(history, retained[1..], retained[0].at) && retained[0].at > earliest
    ensures retained[0] == history[|history| - |retained|]
  {
    var n := |history| - |retained|;
    assert history[n] == retained[0];
    assert retained[1..] == history[n + 1..];
    forall i | 0 <= i < |retained| - 1 ensures retained[1..][i].at > retained[0].at {
      assert retained[1..][i] == history[n + 1 + i];
    }
  }

  lemma RingTakes(history: seq<Event>, retained: seq<Event>, earliest: nat, e: Event)
    requires Ring(history, retained, earliest) && e.at > earliest
    ensures Ring(history + [e], retained + [e], earliest)
  {
    var n := |history| - |retained|;
    assert (history + [e])[n..] == history[n..] + [e];
  }

  // ---- numbering, and where a new process starts ----

  /** The counter that numbers events, log records and history versions alike. */
  class Counter {
    var next: nat

    constructor ()
      ensures next == 1
    {
      next := 1;
    }

    method Take() returns (n: nat)
      modifies this
      ensures n == old(next) && next == old(next) + 1
    {
      n := next;
      next := next + 1;
    }

    /** Move past a number found in durable state; never backwards. */
    method Advance(observed: nat)
      modifies this
      ensures next == if old(next) <= observed then observed + 1 else old(next)
    {
      if next <= observed { next := observed + 1; }
    }
  }

  /** Where recovery leaves the counter: one past the checkpoint and every position still in the
      log. Events are not logged, so it knows nothing of theirs. */
  function Restored(checkpoint: nat, logged: seq<nat>): (n: nat)
    ensures n > checkpoint && forall i :: 0 <= i < |logged| ==> n > logged[i]
    ensures n == checkpoint + 1 || exists i :: 0 <= i < |logged| && n == logged[i] + 1
  {
    if logged == [] then checkpoint + 1 else
      var n, last := Restored(checkpoint, logged[..|logged| - 1]), logged[|logged| - 1];
      if n <= last then last + 1 else n
  }

  /** The horizon of a feed that started at some position and has emitted these events. */
  function Edge(emitted: seq<Event>, start: nat): nat {
    if |emitted| <= EVENT_REPLAY_CAPACITY then start else emitted[|emitted| - EVENT_REPLAY_CAPACITY - 1].at
  }

  class EventFeed {
    const counter: Counter
    const start: nat
    var retained: seq<Event>
    var earliest: nat
    ghost var emitted: seq<Event>   // every event of this process

    /** The ring holds exactly the events past the horizon, and as many as fit. */
    ghost predicate Valid()
      reads this, counter
    {
      && EventsAscend(emitted)
      && (forall i :: 0 <= i < |emitted| ==> start < emitted[i].at < counter.next)
      && start <= earliest < counter.next
      && earliest == Edge(emitted, start)
      && |retained| == (if |emitted| < EVENT_REPLAY_CAPACITY then |emitted| else EVENT_REPLAY_CAPACITY)
      && Ring(emitted, retained, earliest)
    }

    /** A new process: the horizon is the first position the counter hands out. */
    constructor (shared: Counter)
      modifies shared
      ensures Valid() && counter == shared && retained == [] && emitted == []
      ensures start == earliest == old(shared.next) && shared.next == old(shared.next) + 1
    {
      counter := shared;
      retained := [];
      emitted := [];
      start := shared.next;
      earliest := shared.next;
      new;
      var _ := shared.Take();
    }

    /** Number an event, make room for it, keep it. */
    method Emit(payload: string, audience: Audience) returns (at: nat)
      requires Valid()
      modifies this, counter
      ensures Valid() && at == old(counter.next) && counter.next == at + 1
      ensures emitted == old(emitted) + [Event(at, payload, audience)]
      ensures earliest >= old(earliest)
    {
      hide Ring, EventsAscend;
      at := counter.Take();
      var event := Event(at, payload, audience);
      ghost var kept := |retained|;
      while |retained| >= EVENT_REPLAY_CAPACITY
        invariant |retained| <= kept && |retained| + 1 >= kept && counter.next == at + 1
        invariant emitted == old(emitted) && |retained| <= |emitted|
        invariant old(earliest) <= earliest < at && Ring(emitted, retained, earliest)
        invariant |retained| == kept ==> earliest == old(earliest)
        invariant |retained| < kept ==> kept >= EVENT_REPLAY_CAPACITY && earliest == emitted[|emitted| - kept].at
      {
        RingEvicts(emitted, retained, earliest);
        earliest := retained[0].at;
        retained := retained[1..];
      }
      RingTakes(emitted, retained, earliest, event);
      AscendsBy(emitted, event);
      retained := retained + [event];
      emitted := emitted + [event];
    }

    /** The log or the history draws a number in between. */
    method TakenElsewhere()
      requires Valid()
      modifies counter
      ensures Valid() && counter.next == old(counter.next) + 1
    {
      var _ := counter.Take();
    }

    /** Open a subscription, resuming after a position if one is given. It is refused exactly
        below the horizon; otherwise the backlog is every event of this process past the
        position. */
    method Subscribe(after: Option<nat>) returns (r: Resume)
      requires Valid()
      ensures r.Refused? <==> after.Some? && after.value < earliest
      ensures r.Refused? ==> r == Refused(after.value, earliest, |retained|)
      ensures r.Resumed? ==> r.backlog == if after.Some? then Past(emitted, after.value) else []
    {
      hide EventsAscend;
      if after.None? { return Resumed([]); }
      if after.value < earliest { return Refused(after.value, earliest, |retained|); }
      PastTail(emitted, |emitted| - |retained|, after.value);
      var backlog: seq<Event> := [];
      for i := 0 to |retained|
        invariant backlog == Past(retained[..i], after.value)
      {
        assert retained[..i + 1][..i] == retained[..i];
        if retained[i].at > after.value { backlog := backlog + [retained[i]]; }
      }
      assert retained[..|retained|] == retained;
      return Resumed(backlog);
    }
  }

  lemma AscendsBy(es: seq<Event>, e: Event)
    requires EventsAscend(es) && forall i :: 0 <= i < |es| ==> es[i].at < e.at
    ensures EventsAscend(es + [e])
  {
  }

  lemma {:induction false} PastConcat(a: seq<Event>, b: seq<Event>, after: nat)
    ensures Past(a + b, after) == Past(a, after) + Past(b, after)
  {
    if b == [] {
      assert a + b == a;
    } else {
      assert (a + b)[..|a + b| - 1] == a + b[..|b| - 1];
      PastConcat(a, b[..|b| - 1], after);
    }
  }

  lemma {:induction false} PastNone(es: seq<Event>, after: nat)
    requires forall i :: 0 <= i < |es| ==> es[i].at <= after
    ensures Past(es, after) == []
  {
    if es != [] { PastNone(es[..|es| - 1], after); }
  }

  lemma {:induction false} PastAll(es: seq<Event>, after: nat)
    requires forall i :: 0 <= i < |es| ==> es[i].at > after
    ensures Past(es, after) == es
  {
    if es != [] { PastAll(es[..|es| - 1], after); }
  }

  lemma PastTail(es: seq<Event>, n: nat, after: nat)
    requires n <= |es| && forall i :: 0 <= i < n ==> es[i].at <= after
    ensures Past(es, after) == Past(es[n..], after)
  {
    assert es == es[..n] + es[n..];
    PastConcat(es[..n], es[n..], after);
    PastNone(es[..n], after);
  }

  lemma PastHas(es: seq<Event>, after: nat, i: nat)
    requires i < |es| && es[i].at > after
    ensures es[i] in Past(es, after)
  {
    hide Past;
    assert es == es[..i] + ([es[i]] + es[i + 1..]);
    PastConcat(es[..i], [es[i]] + es[i + 1..], after);
    PastConcat([es[i]], es[i + 1..], after);
    PastAll([es[i]], after);
  }

  // ---- a subscription and what follows it ----

  /** A later list of events: what was emitted when the counter stood at `n`, and more events
      numbered from `n` on. */
  ghost predicate Continues(now: seq<Event>, n: nat, later: seq<Event>) {
    now <= later && EventsAscend(later) && forall i :: |now| <= i < |later| ==> later[i].at >= n
  }

  /** The backlog taken now, followed by everything emitted since. */
  ghost predicate Gapless(now: seq<Event>, later: seq<Event>, after: nat) {
    now <= later && Past(later, after) == Past(now, after) + later[|now|..]
  }

  /** No gap and no overlap: backlog and live events together are every event past the position,
      however the feed goes on, exactly for the positions already handed out when subscribing. */
  lemma NoGap(feed: EventFeed, after: nat)
    requires feed.Valid()
    ensures (forall later :: Continues(feed.emitted, feed.counter.next, later) ==> Gapless(feed.emitted, later, after))
            <==> after < feed.counter.next
  {
    hide Past, EventsAscend;
    var now, n := feed.emitted, feed.counter.next;
    if after < n {
      forall later | Continues(now, n, later) ensures Gapless(now, later, after) { LiveIsPast(now, later, after); }
    } else {
      var next := Event(n, "", Everyone);
      AscendsBy(now, next);
      assert Continues(now, n, now + [next]);
      EarlyIsMissing(now, next, after);
    }
  }

  lemma LiveIsPast(now: seq<Event>, later: seq<Event>, after: nat)
    requires now <= later && forall i :: |now| <= i < |later| ==> later[i].at > after
    ensures Gapless(now, later, after)
  {
    hide Past;
    var live := later[|now|..];
    assert later == now + live;
    PastConcat(now, live, after);
    PastAll(live, after);
  }

  lemma EarlyIsMissing(now: seq<Event>, next: Event, after: nat)
    requires next.at <= after
    ensures !Gapless(now, now + [next], after)
  {
    hide Past;
    PastConcat(now, [next], after);
    PastNone([next], after);
    assert (now + [next])[|now|..] == [next];
    assert |Past(now, after) + [next]| == |Past(now + [next], after)| + 1;
  }

  /** Every list the feed could continue to is one it reaches. */
  method Follow(feed: EventFeed, live: seq<Event>)
    requires feed.Valid() && Continues(feed.emitted, feed.counter.next, feed.emitted + live)
    modifies feed, feed.counter
    ensures feed.Valid() && feed.emitted == old(feed.emitted) + live
  {
    hide EventsAscend, Ring, Edge;
    ghost var later := feed.emitted + live;
    for i := 0 to |live|
      invariant feed.Valid() && feed.emitted == later[..|old(feed.emitted)| + i]
      invariant Continues(feed.emitted, feed.counter.next, later)
    {
      assert later[|old(feed.emitted)| + i] == live[i];
      while feed.counter.next < live[i].at
        invariant feed.Valid() && feed.emitted == later[..|old(feed.emitted)| + i]
        invariant feed.counter.next <= live[i].at
      {
        feed.TakenElsewhere();
      }
      Onwards(later, |old(feed.emitted)| + i);
      var at := feed.Emit(live[i].payload, live[i].audience);
    }
  }

  lemma Onwards(later: seq<Event>, i: nat)
    requires EventsAscend(later) && i < |later|
    ensures later[..i] + [later[i]] == later[..i + 1]
    ensures Continues(later[..i + 1], later[i].at + 1, later)
  {
  }

  /** Subscribe, then let the feed go on: a resume from a position already handed out is refused
      or delivers, backlog first, exactly the events past it. */
  method Watch(feed: EventFeed, after: nat, live: seq<Event>) returns (r: Resume)
    requires feed.Valid() && Continues(feed.emitted, feed.counter.next, feed.emitted + live)
    modifies feed, feed.counter
    ensures feed.Valid() && feed.emitted == old(feed.emitted) + live
    ensures r.Refused? <==> after < old(feed.earliest)
    ensures r.Resumed? && after < old(feed.counter.next) ==> r.backlog + live == Past(feed.emitted, after)
  {
    hide Past, EventsAscend, Ring, Edge;
    NoGap(feed, after);
    r := feed.Subscribe(Some(after));
    assert (feed.emitted + live)[|feed.emitted|..] == live;
    assert after < feed.counter.next ==> Gapless(feed.emitted, feed.emitted + live, after);
    Follow(feed, live);
  }

  // ---- across a restart ----

  /** Every resume a feed grants is complete, counting the events of earlier processes too. */
  ghost predicate Complete(before: seq<Event>, feed: EventFeed)
    reads feed, feed.counter
  {
    forall after: nat :: after >= feed.earliest ==> Past(before + feed.emitted, after) == Past(feed.emitted, after)
  }

  /** Exactly when that is so: no earlier event lies past the horizon. */
  lemma ResumeAcrossRestart(before: seq<Event>, feed: EventFeed)
    requires feed.Valid()
    ensures Complete(before, feed) <==> forall i :: 0 <= i < |before| ==> before[i].at <= feed.earliest
  {
    hide Past, Ring, EventsAscend, Edge;
    var emitted, earliest := feed.emitted, feed.earliest;
    forall after: nat ensures Past(before + emitted, after) == Past(before, after) + Past(emitted, after) {
      PastConcat(before, emitted, after);
    }
    if forall i :: 0 <= i < |before| ==> before[i].at <= earliest {
      forall after: nat | after >= earliest ensures Past(before, after) == [] { PastNone(before, after); }
    }
    if Complete(before, feed) {
      assert Past(before, earliest) == [] by {
        assert |Past(before + emitted, earliest)| == |Past(emitted, earliest)|;
      }
      forall i | 0 <= i < |before| ensures before[i].at <= earliest {
        if before[i].at > earliest { PastHas(before, earliest, i); }
      }
    }
  }

  /** A position from an earlier process on a feed that started at `start`: every resume from it is
      refused or covers every event so far, exactly when it is at most `start`. */
  lemma OldPosition(start: nat, p: nat)
    ensures (forall later :: Continues([], start + 1, later) ==> p < Edge(later, start) || Past(later, p) == later)
            <==> p <= start
  {
    hide Past;
    if p <= start {
      forall later | Continues([], start + 1, later) ensures Past(later, p) == later { PastAll(later, p); }
    } else {
      var one := [Event(start + 1, "", Everyone)];
      assert Continues([], start + 1, one);
      PastNone(one, p);
    }
  }

  /** Start-up: recovery restores the counter, then the feed takes its horizon from it. Over the
      whole life of this feed every resume is refused or complete if and only if no event of an
      earlier process lies past the restored counter. */
  method Restart(checkpoint: nat, logged: seq<nat>, ghost before: seq<Event>) returns (feed: EventFeed)
    ensures feed.Valid() && feed.emitted == [] && feed.start == feed.earliest == Restored(checkpoint, logged)
    ensures feed.counter.next == feed.start + 1
    ensures Complete(before, feed) <==> forall i :: 0 <= i < |before| ==> before[i].at <= Restored(checkpoint, logged)
    ensures fresh(feed) && fresh(feed.counter)
  {
    var counter := new Counter();
    counter.Advance(checkpoint);
    var max := 0;
    for i := 0 to |logged|
      invariant 0 <= max && Restored(checkpoint, logged[..i]) == if checkpoint <= max then max + 1 else checkpoint + 1
    {
      assert logged[..i + 1][..i] == logged[..i];
      if logged[i] > max { max := logged[i]; }
    }
    assert logged[..|logged|] == logged;
    counter.Advance(max);
    feed := new EventFeed(counter);
    ResumeAcrossRestart(before, feed);
  }

  /** And it stays so: the horizon only moves up. */
  lemma CompleteEverAfter(before: seq<Event>, feed: EventFeed)
    requires feed.Valid() && forall i :: 0 <= i < |before| ==> before[i].at <= feed.start
    ensures Complete(before, feed)
  {
    hide Complete;
    ResumeAcrossRestart(before, feed);
  }

  /** A run that loses an event. The last logged position is 95, two events follow at 96 and 97,
      and the process restarts. A client that saw the first resumes after it: not refused, and
      the second is never delivered. The next event gets its number again. */
  method EventLost(audience: Audience) returns (r: Resume, at: nat, ghost before: seq<Event>)
    ensures before == [Event(96, "", audience), Event(97, "", audience)]
    ensures r == Resumed([]) && Past(before, 96) == [before[1]] && at == 97
  {
    hide Past, Ring, EventsAscend, Edge, Restored, Complete;
    before := [Event(96, "", audience), Event(97, "", audience)];
    OneLogged(95);
    var feed := Restart(0, [95], before);
    r := feed.Subscribe(Some(96));
    PastNone(feed.emitted, 96);
    at := feed.Emit("", audience);
    SecondIsPast(before, 96);
  }

  lemma OneLogged(p: nat)
    ensures Restored(0, [p]) == p + 1
  {
    assert [p][..0] == [];
  }

  lemma SecondIsPast(es: seq<Event>, after: nat)
    requires |es| == 2 && es[0].at <= after < es[1].at
    ensures Past(es, after) == [es[1]]
  {
    hide Past;
    assert es == [es[0]] + [es[1]];
    PastConcat([es[0]], [es[1]], after);
    PastNone([es[0]], after);
    PastAll([es[1]], after);
  }
}
