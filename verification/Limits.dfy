/** Token buckets per identity and class, in a table of bounded size. */
module Limits {
  import opened Entries

  const MAX_TRACKED_BUCKETS: nat := 10_000

  datatype Rate = Rate(burst: real, refill: real)

  datatype Bucket = Bucket(tokens: real, updated: real)

  /** A refusal says in how many seconds to retry, unless the limiter has no room to know. */
  datatype Decision = Allow | Deny(retry: Option<int>)

  /** An owner and an endpoint class. */
  datatype Key = Key(owner: string, cls: nat)

  datatype Request = Request(key: Key, now: real, decision: Decision)

  predicate RateOK(rate: Rate) { rate.burst > 0.0 && rate.refill > 0.0 }

  function Min(a: real, b: real): real { if a < b then a else b }

  function Elapsed(since: real, now: real): real { if now > since then now - since else 0.0 }

  /** The tokens that accrue over a stretch of time. */
  function Credit(elapsed: real, refill: real): real { elapsed * refill }

  function Ceil(x: real): int { -((-x).Floor) }

  function Full(rate: Rate, now: real): Bucket { Bucket(rate.burst, now) }

  function Refilled(b: Bucket, rate: Rate, now: real): real {
    Min(b.tokens + Credit(Elapsed(b.updated, now), rate.refill), rate.burst)
  }

  /** Spend one token if there is one. */
  function Take(b: Bucket, rate: Rate, now: real): (Decision, Bucket)
    requires RateOK(rate)
  {
    var tokens := Refilled(b, rate, now);
    if tokens >= 1.0 then (Allow, Bucket(tokens - 1.0, now))
    else (Deny(Some(Ceil((1.0 - tokens) / rate.refill))), Bucket(tokens, now))
  }

  predicate IsFull(b: Bucket, rate: Rate, now: real) {
    b.tokens + Credit(Elapsed(b.updated, now), rate.refill) >= rate.burst
  }

  // ---- the unbounded reference ----

  type Rates = nat -> Option<Rate>

  ghost predicate RatesOK(rates: Rates) { forall c: nat :: rates(c).Some? ==> RateOK(rates(c).value) }

  /** What an unbounded table, fed only the requests that got a real answer, holds for a key. */
  function Holds(history: seq<Request>, key: Key, rate: Rate): Option<Bucket>
    requires RateOK(rate)
    decreases |history|, 0
  {
    if history == [] then None else
      var front, last := history[..|history| - 1], history[|history| - 1];
      if last.key == key && last.decision != Deny(None) then
        Some(Take(Current(front, key, rate, last.now), rate, last.now).1)
      else Holds(front, key, rate)
  }

  /** The bucket such a table consults: the one it holds, or a full one. */
  function Current(history: seq<Request>, key: Key, rate: Rate, now: real): Bucket
    requires RateOK(rate)
    decreases |history|, 1
  {
    var held := Holds(history, key, rate);
    if held.Some? then held.value else Full(rate, now)
  }

  /** Every real answer was the unbounded table's, and the clock never ran backwards. */
  ghost predicate Faithful(history: seq<Request>, rates: Rates)
    requires RatesOK(rates)
  {
    history != [] ==>
      var front, last := history[..|history| - 1], history[|history| - 1];
      && Faithful(front, rates) && rates(last.key.cls).Some?
      && Clock(front) <= last.now
      && (last.decision != Deny(None) ==>
            var rate := rates(last.key.cls).value;
            last.decision == Take(Current(front, last.key, rate, last.now), rate, last.now).0)
  }

  function Clock(history: seq<Request>): real {
    if history == [] then 0.0 else history[|history| - 1].now
  }

  // ---- the capped table ----

  class Limiter {
    const rates: Rates
    var buckets: map<Key, Bucket>
    ghost var history: seq<Request>

    ghost predicate Valid()
      reads this
    {
      && RatesOK(rates) && Faithful(history, rates)
      && |buckets| <= MAX_TRACKED_BUCKETS
      && (forall k :: k in buckets ==> rates(k.cls).Some?)
      && TracksAll(buckets, history, rates, Clock(history))
    }

    constructor (rates: Rates)
      requires RatesOK(rates)
      ensures Valid() && history == [] && buckets == map[] && this.rates == rates
    {
      this.rates := rates;
      buckets := map[];
      history := [];
    }

    /** Answer one request. A key with a bucket spends from it; a new key is admitted if there
        is room, or if dropping full buckets makes some, and otherwise gets no real answer. */
    method TakeOne(key: Key, now: real) returns (decision: Decision)
      requires Valid() && rates(key.cls).Some? && Clock(history) <= now
      modifies this
      ensures Valid() && history == old(history) + [Request(key, now, decision)]
      ensures decision != Deny(None) ==>
                decision == Take(Current(old(history), key, rates(key.cls).value, now), rates(key.cls).value, now).0
      ensures decision != Deny(None) ==>
                (decision == Allow <==> Room(history, |history| - 1, rates(key.cls).value))
      ensures decision == Deny(None) ==>
                key !in old(buckets) && |buckets| == MAX_TRACKED_BUCKETS
                && forall k :: k in buckets ==> !IsFull(buckets[k], rates(k.cls).value, now)
    {
      hide Take, Faithful, Holds, IsFull, Current, TracksAll, Room;
      var rate := rates(key.cls).value;
      TracksLater(buckets, history, rates, now);
      if key in buckets {
        var (answer, bucket) := Take(buckets[key], rate, now);
        Answered(buckets, history, key, rates, now, buckets[key]);
        buckets := buckets[key := bucket];
        history := history + [Request(key, now, answer)];
        AllowedExactly(history, |history| - 1, rates);
        return answer;
      }
      if |buckets| >= MAX_TRACKED_BUCKETS {
        var kept := map k | k in buckets && rates(k.cls).Some? && !IsFull(buckets[k], rates(k.cls).value, now) ::
            buckets[k];
        Fewer(buckets, kept);
        Evicted(buckets, kept, history, rates, now);
        if |kept| >= MAX_TRACKED_BUCKETS {
          SameSize(buckets, kept);
          Unanswered(buckets, history, key, rates, now);
          history := history + [Request(key, now, Deny(None))];
          return Deny(None);
        }
        buckets := kept;
      }
      var (answer, bucket) := Take(Full(rate, now), rate, now);
      Answered(buckets, history, key, rates, now, Full(rate, now));
      buckets := buckets[key := bucket];
      history := history + [Request(key, now, answer)];
      AllowedExactly(history, |history| - 1, rates);
      return answer;
    }
  }

  /** A tracked bucket is the reference's; an untracked key the reference knows is full again. */
  ghost predicate Tracks(buckets: map<Key, Bucket>, history: seq<Request>, k: Key, rate: Rate, now: real) {
    && RateOK(rate)
    && if k in buckets then Holds(history, k, rate) == Some(buckets[k])
       else Holds(history, k, rate).Some? ==> IsFull(Holds(history, k, rate).value, rate, now)
  }

  ghost predicate TracksAll(buckets: map<Key, Bucket>, history: seq<Request>, rates: Rates, now: real) {
    forall k: Key :: rates(k.cls).Some? ==> Tracks(buckets, history, k, rates(k.cls).value, now)
  }

  /** A full bucket stays full. */
  lemma FullStays(b: Bucket, rate: Rate, t: real, now: real)
    requires RateOK(rate) && IsFull(b, rate, t) && t <= now
    ensures IsFull(b, rate, now)
  {
    hide Credit;
    CreditGrows(Elapsed(b.updated, t), Elapsed(b.updated, now), rate.refill);
  }

  lemma CreditGrows(a: real, b: real, r: real)
    requires a <= b && r >= 0.0
    ensures Credit(a, r) <= Credit(b, r)
  {
  }

  lemma CreditAdds(a: real, b: real, r: real)
    ensures Credit(a, r) + Credit(b, r) == Credit(a + b, r)
    ensures Credit(0.0, r) == 0.0
  {
  }

  lemma TracksLater(buckets: map<Key, Bucket>, history: seq<Request>, rates: Rates, now: real)
    requires RatesOK(rates) && TracksAll(buckets, history, rates, Clock(history)) && Clock(history) <= now
    ensures TracksAll(buckets, history, rates, now)
  {
    hide IsFull, Holds, Clock;
    forall k: Key | rates(k.cls).Some? ensures Tracks(buckets, history, k, rates(k.cls).value, now) {
      var rate := rates(k.cls).value;
      assert Tracks(buckets, history, k, rate, Clock(history));
      if k !in buckets && Holds(history, k, rate).Some? {
        FullStays(Holds(history, k, rate).value, rate, Clock(history), now);
      }
    }
  }

  lemma Evicted(buckets: map<Key, Bucket>, kept: map<Key, Bucket>, history: seq<Request>, rates: Rates, now: real)
    requires RatesOK(rates) && TracksAll(buckets, history, rates, now)
    requires forall k :: k in kept <==>
                 k in buckets && rates(k.cls).Some? && !IsFull(buckets[k], rates(k.cls).value, now)
    requires forall k :: k in kept ==> kept[k] == buckets[k]
    ensures TracksAll(kept, history, rates, now)
  {
    hide IsFull, Holds;
    forall k: Key | rates(k.cls).Some? ensures Tracks(kept, history, k, rates(k.cls).value, now) {
      assert Tracks(buckets, history, k, rates(k.cls).value, now);
    }
  }

  /** A full bucket gives the answer, and becomes the bucket, that a fresh one would. */
  lemma FullIsFresh(b: Bucket, rate: Rate, now: real)
    requires RateOK(rate) && IsFull(b, rate, now)
    ensures Take(b, rate, now) == Take(Full(rate, now), rate, now)
  {
    hide Credit;
    CreditAdds(0.0, 0.0, rate.refill);
    assert Refilled(b, rate, now) == rate.burst == Refilled(Full(rate, now), rate, now);
  }

  lemma RealAnswer(b: Bucket, rate: Rate, now: real)
    requires RateOK(rate)
    ensures Take(b, rate, now).0 != Deny(None)
  {
  }

  lemma HoldsStep(history: seq<Request>, r: Request, key: Key, rate: Rate)
    requires RateOK(rate)
    ensures Holds(history + [r], key, rate) ==
            if r.key == key && r.decision != Deny(None) then
                Some(Take(Current(history, key, rate, r.now), rate, r.now).1)
            else Holds(history, key, rate)
  {
    hide Take;
    assert (history + [r])[..|history|] == history;
  }

  lemma FaithfulStep(history: seq<Request>, r: Request, rates: Rates)
    requires RatesOK(rates) && Faithful(history, rates) && rates(r.key.cls).Some? && Clock(history) <= r.now
    requires r.decision != Deny(None) ==>
               var rate := rates(r.key.cls).value;
               r.decision == Take(Current(history, r.key, rate, r.now), rate, r.now).0
    ensures Faithful(history + [r], rates)
  {
    hide Take, Current;
    assert (history + [r])[..|history|] == history;
  }

  /** Answering from the table, or from a fresh bucket, is answering as the reference does. */
  lemma Answered(buckets: map<Key, Bucket>, history: seq<Request>, key: Key, rates: Rates, now: real, used: Bucket)
    requires RatesOK(rates) && Faithful(history, rates) && rates(key.cls).Some? && Clock(history) <= now
    requires TracksAll(buckets, history, rates, now)
    requires used == if key in buckets then buckets[key] else Full(rates(key.cls).value, now)
    ensures var rate := rates(key.cls).value;
            var (answer, bucket) := Take(used, rate, now);
            && answer != Deny(None)
            && answer == Take(Current(history, key, rate, now), rate, now).0
            && Faithful(history + [Request(key, now, answer)], rates)
            && TracksAll(buckets[key := bucket], history + [Request(key, now, answer)], rates, now)
  {
    hide Take, Faithful, Holds, IsFull, Clock;
    var rate := rates(key.cls).value;
    var (answer, bucket) := Take(used, rate, now);
    var r := Request(key, now, answer);
    assert Tracks(buckets, history, key, rate, now);
    if key !in buckets && Holds(history, key, rate).Some? { FullIsFresh(Holds(history, key, rate).value, rate, now); }
    RealAnswer(used, rate, now);
    FaithfulStep(history, r, rates);
    forall k: Key | rates(k.cls).Some?
      ensures Tracks(buckets[key := bucket], history + [r], k, rates(k.cls).value, now)
    {
      assert Tracks(buckets, history, k, rates(k.cls).value, now);
      HoldsStep(history, r, k, rates(k.cls).value);
    }
  }

  lemma Unanswered(buckets: map<Key, Bucket>, history: seq<Request>, key: Key, rates: Rates, now: real)
    requires RatesOK(rates) && Faithful(history, rates) && rates(key.cls).Some? && Clock(history) <= now
    requires TracksAll(buckets, history, rates, now)
    ensures Faithful(history + [Request(key, now, Deny(None))], rates)
    ensures TracksAll(buckets, history + [Request(key, now, Deny(None))], rates, now)
  {
    hide Take, Faithful, Holds, IsFull, Clock;
    var r := Request(key, now, Deny(None));
    FaithfulStep(history, r, rates);
    forall k: Key | rates(k.cls).Some? ensures Tracks(buckets, history + [r], k, rates(k.cls).value, now) {
      assert Tracks(buckets, history, k, rates(k.cls).value, now);
      HoldsStep(history, r, k, rates(k.cls).value);
    }
  }

  lemma Fewer(m: map<Key, Bucket>, n: map<Key, Bucket>)
    requires forall k :: k in n ==> k in m && n[k] == m[k]
    ensures |n| <= |m|
  {
    assert n.Keys <= m.Keys;
    SubsetSize(n.Keys, m.Keys);
  }

  lemma {:induction false} SubsetSize(a: set<Key>, b: set<Key>)
    requires a <= b
    ensures |a| <= |b| && (|a| == |b| ==> a == b)
    decreases |a|
  {
    if a != {} {
      var x :| x in a;
      SubsetSize(a - {x}, b - {x});
      assert a == (a - {x}) + {x} && b == (b - {x}) + {x};
    } else if |b| == 0 {
      assert b == {};
    }
  }

  lemma SameSize(m: map<Key, Bucket>, n: map<Key, Bucket>)
    requires (forall k :: k in n ==> k in m && n[k] == m[k]) && |n| >= |m|
    ensures m == n
  {
    Fewer(m, n);
    SubsetSize(n.Keys, m.Keys);
    assert n.Keys == m.Keys;
  }

  // ---- how much one key is allowed ----

  function Allowed(history: seq<Request>, key: Key): nat {
    if history == [] then 0 else
      Allowed(history[..|history| - 1], key)
      + if history[|history| - 1].key == key && history[|history| - 1].decision == Allow then 1 else 0
  }

  /** The tokens a key could spend at a moment. */
  function Level(history: seq<Request>, key: Key, rate: Rate, now: real): real
    requires RateOK(rate)
  {
    Refilled(Current(history, key, rate, now), rate, now)
  }

  /** A level rises no faster than the refill rate, and never past the burst. */
  lemma LevelRises(history: seq<Request>, key: Key, rate: Rate, t: real, now: real)
    requires RateOK(rate) && t <= now
    ensures Level(history, key, rate, now) <= rate.burst
    ensures Level(history, key, rate, now) <= Level(history, key, rate, t) + Credit(now - t, rate.refill)
  {
    hide Holds, Credit;
    CreditAdds(0.0, 0.0, rate.refill);
    CreditGrows(0.0, now - t, rate.refill);
    var held := Holds(history, key, rate);
    if held.Some? {
      var a, b := Elapsed(held.value.updated, t), Elapsed(held.value.updated, now);
      CreditAdds(a, now - t, rate.refill);
      CreditGrows(b, a + (now - t), rate.refill);
    }
  }

  /** An allowed request costs exactly one of its key's tokens; no other request touches them. */
  lemma LevelSpends(history: seq<Request>, r: Request, key: Key, rates: Rates)
    requires RatesOK(rates) && Faithful(history + [r], rates) && rates(key.cls).Some?
    ensures var rate := rates(key.cls).value;
            Level(history + [r], key, rate, r.now) + (if r.key == key && r.decision == Allow then 1.0 else 0.0)
            == Level(history, key, rate, r.now)
    ensures var rate := rates(key.cls).value;
            r.key == key && r.decision != Deny(None) ==>
              (r.decision == Allow <==> Level(history, key, rate, r.now) >= 1.0)
  {
    hide Holds, Clock, Credit;
    var rate := rates(key.cls).value;
    CreditAdds(0.0, 0.0, rate.refill);
    assert (history + [r])[..|history|] == history && (history + [r])[|history|] == r;
    HoldsStep(history, r, key, rate);
  }

  /** From any moment on, what a key is allowed plus what it could still spend stays within the
      burst plus the refill since. */
  lemma {:induction false} Budget(history: seq<Request>, i: nat, key: Key, rates: Rates)
    requires RatesOK(rates) && Faithful(history, rates) && rates(key.cls).Some? && i < |history|
    ensures var rate := rates(key.cls).value;
            && history[i].now <= Clock(history)
            && Allowed(history[i..], key) as real + Level(history, key, rate, Clock(history))
               <= rate.burst + Credit(Clock(history) - history[i].now, rate.refill)
    decreases |history|
  {
    hide Level, Holds, Faithful, Allowed, Clock, Credit;
    var rate := rates(key.cls).value;
    var front, last := history[..|history| - 1], history[|history| - 1];
    assert history == front + [last];
    FaithfulParts(history, rates);
    LevelSpends(front, last, key, rates);
    if i == |history| - 1 {
      LevelRises(front, key, rate, last.now, last.now);
      AllowedStep([], last, key);
      assert history[i..] == [] + [last];
      CreditAdds(0.0, 0.0, rate.refill);
    } else {
      Budget(front, i, key, rates);
      LevelRises(front, key, rate, Clock(front), last.now);
      AllowedStep(front[i..], last, key);
      assert history[i..] == front[i..] + [last];
      CreditAdds(Clock(front) - history[i].now, last.now - Clock(front), rate.refill);
    }
  }

  /** A level is what it was, plus the refill since, up to the burst. */
  lemma LevelLater(history: seq<Request>, key: Key, rates: Rates, now: real)
    requires RatesOK(rates) && Faithful(history, rates) && rates(key.cls).Some? && Clock(history) <= now
    ensures var rate := rates(key.cls).value;
            Level(history, key, rate, now) ==
            Min(Level(history, key, rate, Clock(history)) + Credit(now - Clock(history), rate.refill), rate.burst)
  {
    hide Holds, Credit, Clock, Faithful;
    var rate := rates(key.cls).value;
    HeldBy(history, key, rates);
    CreditAdds(0.0, 0.0, rate.refill);
    CreditGrows(0.0, now - Clock(history), rate.refill);
    var held := Holds(history, key, rate);
    if held.Some? {
      CreditAdds(Clock(history) - held.value.updated, now - Clock(history), rate.refill);
    }
  }

  lemma {:induction false} HeldBy(history: seq<Request>, key: Key, rates: Rates)
    requires RatesOK(rates) && Faithful(history, rates) && rates(key.cls).Some?
    ensures var held := Holds(history, key, rates(key.cls).value);
            held.Some? ==> held.value.updated <= Clock(history)
    decreases |history|
  {
    hide Holds, Faithful, Current;
    var rate := rates(key.cls).value;
    if history == [] {
      NothingHeld(key, rate);
    } else {
      var front, last := history[..|history| - 1], history[|history| - 1];
      assert history == front + [last];
      FaithfulParts(history, rates);
      HeldBy(front, key, rates);
      HoldsStep(front, last, key, rate);
    }
  }

  /** Where a level comes from: a key that is not full has spent the burst and the refill since some
      request, but for what is left. */
  ghost predicate SpentSince(history: seq<Request>, key: Key, rate: Rate, i: nat, now: real)
    requires RateOK(rate)
  {
    && i < |history|
    && Level(history, key, rate, now) ==
       rate.burst + Credit(now - history[i].now, rate.refill) - Allowed(history[i..], key) as real
  }

  lemma {:induction false} LevelExact(history: seq<Request>, key: Key, rates: Rates, now: real)
    requires RatesOK(rates) && Faithful(history, rates) && rates(key.cls).Some? && Clock(history) <= now
    ensures var rate := rates(key.cls).value;
            Level(history, key, rate, now) == rate.burst || exists i: nat :: SpentSince(history, key, rate, i, now)
    decreases |history|
  {
    hide Level, Holds, Faithful, Allowed, Clock, Credit;
    var rate := rates(key.cls).value;
    LevelLater(history, key, rates, now);
    if history == [] {
      NothingSpent(key, rate, now);
    } else {
      var front, last := history[..|history| - 1], history[|history| - 1];
      assert history == front + [last];
      FaithfulParts(history, rates);
      LevelSpends(front, last, key, rates);
      LevelExact(front, key, rates, last.now);
      if Level(history, key, rate, now) != rate.burst {
        if Level(front, key, rate, last.now) == rate.burst {
          AllowedStep([], last, key);
          assert history[|front|..] == [] + [last];
          assert SpentSince(history, key, rate, |front|, now);
        } else {
          var i: nat :| SpentSince(front, key, rate, i, last.now);
          AllowedStep(front[i..], last, key);
          assert history[i..] == front[i..] + [last];
          CreditAdds(last.now - history[i].now, now - last.now, rate.refill);
          assert SpentSince(history, key, rate, i, now);
        }
      }
    }
  }

  lemma NothingSpent(key: Key, rate: Rate, now: real)
    requires RateOK(rate)
    ensures Level([], key, rate, now) == rate.burst
  {
    CreditAdds(0.0, 0.0, rate.refill);
  }

  /** Room for one more: every window ending at request `j` has allowed its key at most the burst and
      the refill over the window, less one. */
  ghost predicate Room(history: seq<Request>, j: nat, rate: Rate)
    requires j < |history|
  {
    rate.burst >= 1.0
    && forall i :: 0 <= i < j ==>
         Allowed(history[i..j], history[j].key) as real + 1.0
         <= rate.burst + Credit(history[j].now - history[i].now, rate.refill)
  }

  /** Over any run of the table, a request with a real answer is allowed exactly when there is room. */
  lemma AllowedExactly(history: seq<Request>, j: nat, rates: Rates)
    requires RatesOK(rates) && Faithful(history, rates) && j < |history| && history[j].decision != Deny(None)
    ensures rates(history[j].key.cls).Some?
    ensures history[j].decision == Allow <==> Room(history, j, rates(history[j].key.cls).value)
  {
    hide Level, Holds, Faithful, Allowed, Clock, Credit;
    var front, last := history[..j], history[j];
    FaithfulFront(history, j + 1, rates);
    var part := history[..j + 1];
    assert part == front + [last] && part[..|part| - 1] == front && part[|part| - 1] == last;
    FaithfulParts(part, rates);
    FaithfulRate(part, rates);
    var rate := rates(last.key.cls).value;
    LevelSpends(front, last, last.key, rates);
    LevelExact(front, last.key, rates, last.now);
    LevelRises(front, last.key, rate, last.now, last.now);
    forall i | 0 <= i < j
      ensures Allowed(history[i..j], last.key) as real + Level(front, last.key, rate, last.now)
              <= rate.burst + Credit(last.now - history[i].now, rate.refill)
    {
      Budget(front, i, last.key, rates);
      LevelRises(front, last.key, rate, Clock(front), last.now);
      assert front[i..] == history[i..j];
      CreditAdds(Clock(front) - history[i].now, last.now - Clock(front), rate.refill);
    }
    if i: nat :| SpentSince(front, last.key, rate, i, last.now) {
      assert front[i..] == history[i..j];
    }
  }

  lemma FaithfulRate(history: seq<Request>, rates: Rates)
    requires RatesOK(rates) && Faithful(history, rates) && history != []
    ensures rates(history[|history| - 1].key.cls).Some?
  {
  }

  /** A key first seen at one instant is allowed exactly as many requests there as fit its burst. */
  lemma FirstBurst(history: seq<Request>, j: nat, rates: Rates)
    requires RatesOK(rates) && Faithful(history, rates) && j < |history| && history[j].decision != Deny(None)
    requires forall i :: 0 <= i < j && history[i].key == history[j].key ==> history[i].now == history[j].now
    ensures rates(history[j].key.cls).Some?
    ensures history[j].decision == Allow <==>
            Allowed(history[..j], history[j].key) as real + 1.0 <= rates(history[j].key.cls).value.burst
  {
    hide Faithful, Allowed, Credit;
    AllowedExactly(history, j, rates);
    var key, rate := history[j].key, rates(history[j].key.cls).value;
    var front := history[..j];
    FaithfulFront(history, j, rates);
    CreditAdds(0.0, 0.0, rate.refill);
    var first := FirstOf(front, key);
    if first < j {
      assert front[first..] == history[first..j];
    }
    forall i | 0 <= i < j
      ensures Allowed(history[i..j], key) <= Allowed(front, key)
      ensures Credit(history[j].now - history[i].now, rate.refill) >= 0.0
    {
      assert front == front[..i] + front[i..] && front[i..] == history[i..j];
      AllowedParts(front[..i], front[i..], key);
      InOrder(history, i, j, rates);
      CreditGrows(0.0, history[j].now - history[i].now, rate.refill);
    }
  }

  /** Where a key's requests begin. */
  lemma FirstOf(history: seq<Request>, key: Key) returns (n: nat)
    ensures n <= |history| && (n < |history| ==> history[n].key == key)
    ensures Allowed(history[n..], key) == Allowed(history, key) && (n == |history| ==> Allowed(history, key) == 0)
  {
    n := 0;
    while n < |history| && history[n].key != key
      invariant n <= |history| && Allowed(history[..n], key) == 0
    {
      assert history[..n + 1] == history[..n] + [history[n]];
      AllowedStep(history[..n], history[n], key);
      n := n + 1;
    }
    assert history == history[..n] + history[n..];
    AllowedParts(history[..n], history[n..], key);
    AllowedStep([], Request(key, 0.0, Allow), key);
  }

  lemma {:induction false} AllowedParts(a: seq<Request>, b: seq<Request>, key: Key)
    ensures Allowed(a + b, key) == Allowed(a, key) + Allowed(b, key)
  {
    if b == [] {
      assert a + b == a;
    } else {
      assert (a + b)[..|a + b| - 1] == a + b[..|b| - 1];
      AllowedParts(a, b[..|b| - 1], key);
    }
  }

  lemma {:induction false} InOrder(history: seq<Request>, i: nat, j: nat, rates: Rates)
    requires RatesOK(rates) && Faithful(history, rates) && i <= j < |history|
    ensures history[i].now <= history[j].now
    decreases j
  {
    hide Faithful;
    if i < j {
      InOrder(history, i, j - 1, rates);
      FaithfulFront(history, j + 1, rates);
      FaithfulParts(history[..j + 1], rates);
      assert history[..j + 1][..j][j - 1] == history[j - 1];
    }
  }

  lemma FaithfulParts(history: seq<Request>, rates: Rates)
    requires RatesOK(rates) && Faithful(history, rates) && history != []
    ensures var front, last := history[..|history| - 1], history[|history| - 1];
            Faithful(front, rates) && Clock(front) <= last.now == Clock(history)
  {
  }

  lemma AllowedStep(history: seq<Request>, r: Request, key: Key)
    ensures Allowed([], key) == 0
    ensures Allowed(history + [r], key) == Allowed(history, key) + if r.key == key && r.decision == Allow then 1 else 0
  {
    assert (history + [r])[..|history|] == history;
  }

  /** One owner and class is allowed at most the burst plus the refill over any window. */
  lemma WindowBound(history: seq<Request>, i: nat, j: nat, key: Key, rates: Rates)
    requires RatesOK(rates) && Faithful(history, rates) && rates(key.cls).Some? && i <= j < |history|
    ensures var rate := rates(key.cls).value;
            Allowed(history[i..j + 1], key) as real <= rate.burst + Credit(history[j].now - history[i].now, rate.refill)
  {
    hide Level, Holds, Faithful, Allowed, Credit;
    var rate := rates(key.cls).value;
    var part := history[..j + 1];
    FaithfulFront(history, j + 1, rates);
    Budget(part, i, key, rates);
    assert part[i..] == history[i..j + 1];
    LevelNotNegative(part, key, rates, Clock(part));
  }

  lemma {:induction false} FaithfulFront(history: seq<Request>, n: nat, rates: Rates)
    requires RatesOK(rates) && Faithful(history, rates) && n <= |history|
    ensures Faithful(history[..n], rates)
    decreases |history|
  {
    if n < |history| {
      FaithfulFront(history[..|history| - 1], n, rates);
      assert history[..|history| - 1][..n] == history[..n];
    } else {
      assert history[..n] == history;
    }
  }

  /** No bucket is ever overdrawn. */
  lemma {:induction false} LevelNotNegative(history: seq<Request>, key: Key, rates: Rates, now: real)
    requires RatesOK(rates) && rates(key.cls).Some?
    ensures var held := Holds(history, key, rates(key.cls).value);
            held.Some? ==> held.value.tokens >= 0.0
    ensures Level(history, key, rates(key.cls).value, now) >= 0.0
    decreases |history|
  {
    hide Holds, Refilled;
    var rate := rates(key.cls).value;
    if history == [] {
      NothingHeld(key, rate);
    } else {
      var front, last := history[..|history| - 1], history[|history| - 1];
      assert history == front + [last];
      LevelNotNegative(front, key, rates, last.now);
      HoldsStep(front, last, key, rate);
    }
    NotNegative(Current(history, key, rate, now), rate, now);
  }

  lemma NothingHeld(key: Key, rate: Rate)
    requires RateOK(rate)
    ensures Holds([], key, rate) == None
  {
  }

  lemma NotNegative(b: Bucket, rate: Rate, now: real)
    requires RateOK(rate) && b.tokens >= 0.0
    ensures Refilled(b, rate, now) >= 0.0
  {
    hide Credit;
    CreditAdds(0.0, 0.0, rate.refill);
    CreditGrows(0.0, Elapsed(b.updated, now), rate.refill);
  }

  /** Waiting as long as a refusal says is enough exactly when the burst admits a request at
      all. */
  lemma RetryIsHonest(b: Bucket, rate: Rate, now: real)
    requires RateOK(rate) && Take(b, rate, now).0.Deny?
    ensures var (refusal, after) := Take(b, rate, now);
            Take(after, rate, now + refusal.retry.value as real).0 == Allow <==> rate.burst >= 1.0
  {
    hide Credit;
    var tokens := Refilled(b, rate, now);
    var wait := Ceil((1.0 - tokens) / rate.refill) as real;
    Waits(1.0 - tokens, rate.refill);
    CreditAdds(0.0, 0.0, rate.refill);
    CreditGrows(0.0, wait, rate.refill);
  }

  /** And no shorter wait is. */
  lemma RetryIsLeast(b: Bucket, rate: Rate, now: real, sooner: nat)
    requires RateOK(rate) && Take(b, rate, now).0.Deny? && sooner < Take(b, rate, now).0.retry.value
    ensures Take(Take(b, rate, now).1, rate, now + sooner as real).0 != Allow
  {
    hide Credit;
    var tokens := Refilled(b, rate, now);
    WaitsLess(1.0 - tokens, rate.refill, sooner);
  }

  lemma WaitsLess(need: real, refill: real, n: nat)
    requires need > 0.0 && refill > 0.0 && n < Ceil(need / refill)
    ensures Credit(n as real, refill) < need
  {
    var exact := need / refill;
    assert n as real < exact;
    assert Credit(exact, refill) == need;
    assert (exact - n as real) * refill > 0.0;
    CreditAdds(n as real, exact - n as real, refill);
  }

  lemma Waits(need: real, refill: real)
    requires need > 0.0 && refill > 0.0
    ensures Ceil(need / refill) as real > 0.0
    ensures Credit(Ceil(need / refill) as real, refill) >= need
  {
    var exact := need / refill;
    assert exact > 0.0;
    assert Credit(exact, refill) == need;
    CreditGrows(exact, Ceil(exact) as real, refill);
  }
}
