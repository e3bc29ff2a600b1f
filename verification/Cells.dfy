/** The lock-free table that attributes operations to coordinates, over every interleaving. */
module Cells {
  import opened Entries

  const CELL_SLOTS: nat := 256
  const CELL_PROBES: nat := 8
  const CELL_OCCUPIED: bv64 := 0x1_0000_0000

  datatype Coordinate = Coordinate(x: bv8, y: bv8, z: bv8, q: bv8)

  function Pack(c: Coordinate): bv64 {
    ((c.x as bv64) << 24) | ((c.y as bv64) << 16) | ((c.z as bv64) << 8) | (c.q as bv64)
  }

  function Unpack(k: bv64): Coordinate {
    Coordinate(((k >> 24) & 0xFF) as bv8, ((k >> 16) & 0xFF) as bv8, ((k >> 8) & 0xFF) as bv8, (k & 0xFF) as bv8)
  }

  function KeyOf(c: Coordinate): bv64 { CELL_OCCUPIED | Pack(c) }

  /** A coordinate's key is never the empty mark, and the coordinate can be read back from it. */
  lemma KeyBack(c: Coordinate)
    ensures KeyOf(c) != 0 && Unpack(KeyOf(c)) == c
  {
  }

  /** The remainder modulo 256. */
  function LowByte(x: bv64): bv8 { (x & 0xFF) as bv8 }

  function Home(key: bv64): nat { LowByte((key * 0x9E37_79B9_7F4A_7C15) >> 32) as nat }

  /** The slots a key may use, in order. */
  function Probe(key: bv64, n: nat): (i: nat)
    ensures i < CELL_SLOTS
  {
    (Home(key) + n) % CELL_SLOTS
  }

  datatype Kind = Read | Write

  /** One operation to charge: its coordinate's key, and how many bytes it moved. */
  datatype Op = Op(key: bv64, kind: Kind, bytes: nat)

  /** Where one thread is: about to load a slot, about to compare-and-exchange an empty one,
      about to count in its slot, about to add its bytes there, or about to count an overflow. */
  datatype Local =
    | Idle
    | Looking(op: Op, probe: nat)
    | Claiming(op: Op, probe: nat)
    | Charging(op: Op, slot: nat)
    | Weighing(op: Op, slot: nat)
    | Spilling(op: Op)

  /** An operation performed: counted in a slot or as overflow, or one with no coordinate. */
  datatype Charge = Charge(op: Op, slot: Option<nat>) | Plain

  datatype Tally = Tally(ops: seq<nat>, bytes: seq<nat>, overflow: nat)

  /** The shared table, the threads, and every operation performed so far. */
  datatype Table = Table(keys: seq<bv64>, readTally: Tally, writeTally: Tally, unattributed: nat,
                         threads: seq<Local>, done: seq<Charge>)
  {
    function Of(kind: Kind): Tally { if kind.Read? then readTally else writeTally }

    function With(kind: Kind, tally: Tally): Table {
      if kind.Read? then this.(readTally := tally) else this.(writeTally := tally)
    }
  }

  function Counted(tally: Tally, i: nat): Tally
    requires i < |tally.ops|
  {
    tally.(ops := tally.ops[i := tally.ops[i] + 1])
  }

  function Weighed(tally: Tally, i: nat, bytes: nat): Tally
    requires i < |tally.bytes|
  {
    tally.(bytes := tally.bytes[i := tally.bytes[i] + bytes])
  }

  function Next(op: Op, probe: nat): Local {
    if probe + 1 < CELL_PROBES then Looking(op, probe + 1) else Spilling(op)
  }

  ghost predicate Sized(tally: Tally) { |tally.ops| == CELL_SLOTS && |tally.bytes| == CELL_SLOTS }

  ghost predicate Shaped(s: Table) { |s.keys| == CELL_SLOTS && Sized(s.readTally) && Sized(s.writeTally) }

  /** A thread takes up an operation, or counts a write that has no coordinate. */
  ghost predicate Begins(s: Table, t: nat, u: Table)
    requires t < |s.threads|
  {
    || (exists c, kind, bytes: nat :: u == s.(threads := s.threads[t := Looking(Op(KeyOf(c), kind, bytes), 0)]))
    || u == s.(unattributed := s.unattributed + 1, done := s.done + [Plain])
  }

  /** One atomic step of thread `t`. */
  ghost predicate Step(s: Table, t: nat, u: Table)
    requires Shaped(s) && t < |s.threads|
  {
    match s.threads[t]
    case Idle => Begins(s, t, u)
    case Looking(op, p) =>
      var i := Probe(op.key, p);
      var current := s.keys[i];
      u == s.(threads := s.threads[t :=
        if current == op.key then Charging(op, i) else if current == 0 then Claiming(op, p) else Next(op, p)])
    case Claiming(op, p) =>
      var i := Probe(op.key, p);
      if s.keys[i] == 0 then
        u == s.(keys := s.keys[i := op.key], threads := s.threads[t := Charging(op, i)])
      else
        u == s.(threads := s.threads[t := if s.keys[i] == op.key then Charging(op, i) else Next(op, p)])
    case Charging(op, i) =>
      && i < CELL_SLOTS
      && u == s.With(op.kind, Counted(s.Of(op.kind), i))
               .(threads := s.threads[t := Weighing(op, i)], done := s.done + [Charge(op, Some(i))])
    case Weighing(op, i) =>
      && i < CELL_SLOTS
      && u == s.With(op.kind, Weighed(s.Of(op.kind), i, op.bytes)).(threads := s.threads[t := Idle])
    case Spilling(op) =>
      var tally := s.Of(op.kind);
      u == s.With(op.kind, tally.(overflow := tally.overflow + 1))
            .(threads := s.threads[t := Idle], done := s.done + [Charge(op, None)])
  }

  // ---- the invariant ----

  /** The first `n` slots of a key's run belong to other keys. */
  ghost predicate Passed(keys: seq<bv64>, key: bv64, n: nat)
    requires |keys| == CELL_SLOTS
  {
    forall j :: 0 <= j < n ==> keys[Probe(key, j)] != 0 && keys[Probe(key, j)] != key
  }

  ghost predicate LocalOK(keys: seq<bv64>, l: Local)
    requires |keys| == CELL_SLOTS
  {
    match l
    case Idle => true
    case Looking(op, p) => op.key != 0 && p < CELL_PROBES && Passed(keys, op.key, p)
    case Claiming(op, p) => op.key != 0 && p < CELL_PROBES && Passed(keys, op.key, p)
    case Charging(op, i) => op.key != 0 && i < CELL_SLOTS && keys[i] == op.key
    case Weighing(op, i) => op.key != 0 && i < CELL_SLOTS && keys[i] == op.key
    case Spilling(op) => op.key != 0 && Passed(keys, op.key, CELL_PROBES)
  }

  ghost predicate ChargeOK(keys: seq<bv64>, c: Charge)
    requires |keys| == CELL_SLOTS
  {
    c.Charge? ==>
      && c.op.key != 0
      && if c.slot.Some? then c.slot.value < CELL_SLOTS && keys[c.slot.value] == c.op.key
         else Passed(keys, c.op.key, CELL_PROBES)
  }

  /** An occupied slot lies in its key's run, behind slots that belong to others. */
  ghost predicate Placed(keys: seq<bv64>, i: nat)
    requires |keys| == CELL_SLOTS && i < CELL_SLOTS
  {
    keys[i] != 0 ==> exists p :: 0 <= p < CELL_PROBES && Probe(keys[i], p) == i && Passed(keys, keys[i], p)
  }

  /** How many operations of a kind were counted in a slot, or as overflow. */
  function CountOf(done: seq<Charge>, kind: Kind, slot: Option<nat>): nat {
    if done == [] then 0 else
      var last := done[|done| - 1];
      CountOf(done[..|done| - 1], kind, slot)
      + if last.Charge? && last.op.kind == kind && last.slot == slot then 1 else 0
  }

  /** How many operations of a kind were performed. */
  function Performed(done: seq<Charge>, kind: Kind): nat {
    if done == [] then 0 else
      var last := done[|done| - 1];
      Performed(done[..|done| - 1], kind) + if last.Charge? && last.op.kind == kind then 1 else 0
  }

  function PlainOnes(done: seq<Charge>): nat {
    if done == [] then 0 else PlainOnes(done[..|done| - 1]) + if done[|done| - 1].Plain? then 1 else 0
  }

  /** The bytes operations of a kind moved at a slot. */
  function Moved(done: seq<Charge>, kind: Kind, i: nat): nat {
    if done == [] then 0 else
      var last := done[|done| - 1];
      Moved(done[..|done| - 1], kind, i)
      + if last.Charge? && last.op.kind == kind && last.slot == Some(i) then last.op.bytes else 0
  }

  /** The bytes of operations counted at a slot but not yet added there. */
  function Owes(l: Local, kind: Kind, i: nat): nat {
    if l.Weighing? && l.op.kind == kind && l.slot == i then l.op.bytes else 0
  }

  function Owed(threads: seq<Local>, kind: Kind, i: nat): nat {
    if threads == [] then 0 else Owed(threads[..|threads| - 1], kind, i) + Owes(threads[|threads| - 1], kind, i)
  }

  ghost predicate TallyOK(tally: Tally, done: seq<Charge>, threads: seq<Local>, kind: Kind) {
    && Sized(tally)
    && (forall i :: 0 <= i < CELL_SLOTS ==> tally.ops[i] == CountOf(done, kind, Some(i)))
    && tally.overflow == CountOf(done, kind, None)
    && forall i :: 0 <= i < CELL_SLOTS ==> tally.bytes[i] + Owed(threads, kind, i) == Moved(done, kind, i)
  }

  ghost predicate Inv(s: Table) {
    && Shaped(s)
    && (forall t :: 0 <= t < |s.threads| ==> LocalOK(s.keys, s.threads[t]))
    && (forall i :: 0 <= i < |s.done| ==> ChargeOK(s.keys, s.done[i]))
    && (forall i :: 0 <= i < CELL_SLOTS ==> Placed(s.keys, i))
    && TallyOK(s.readTally, s.done, s.threads, Read) && TallyOK(s.writeTally, s.done, s.threads, Write)
    && s.unattributed == PlainOnes(s.done)
  }

  ghost predicate Blank(tally: Tally) {
    Sized(tally) && tally.overflow == 0 && forall i :: 0 <= i < CELL_SLOTS ==> tally.ops[i] == 0 && tally.bytes[i] == 0
  }

  ghost predicate Fresh(s: Table) {
    && Shaped(s) && s.done == [] && s.unattributed == 0 && Blank(s.readTally) && Blank(s.writeTally)
    && (forall i :: 0 <= i < CELL_SLOTS ==> s.keys[i] == 0)
    && forall t :: 0 <= t < |s.threads| ==> s.threads[t].Idle?
  }

  /** Slots are only ever claimed. */
  ghost predicate Kept(a: seq<bv64>, b: seq<bv64>) {
    |a| == |b| && forall i :: 0 <= i < |a| && a[i] != 0 ==> b[i] == a[i]
  }

  lemma PassedStays(a: seq<bv64>, b: seq<bv64>, key: bv64, n: nat)
    requires |a| == CELL_SLOTS && Kept(a, b) && Passed(a, key, n)
    ensures Passed(b, key, n)
  {
    hide Probe;
  }

  lemma LocalStays(a: seq<bv64>, b: seq<bv64>, l: Local)
    requires |a| == CELL_SLOTS && Kept(a, b) && LocalOK(a, l)
    ensures LocalOK(b, l)
  {
    hide Passed;
    match l
    case Looking(op, p) => PassedStays(a, b, op.key, p);
    case Claiming(op, p) => PassedStays(a, b, op.key, p);
    case Spilling(op) => PassedStays(a, b, op.key, CELL_PROBES);
    case _ =>
  }

  lemma ChargeStays(a: seq<bv64>, b: seq<bv64>, c: Charge)
    requires |a| == CELL_SLOTS && Kept(a, b) && ChargeOK(a, c)
    ensures ChargeOK(b, c)
  {
    hide Passed;
    if c.Charge? && c.slot.None? { PassedStays(a, b, c.op.key, CELL_PROBES); }
  }

  lemma PlacedStays(a: seq<bv64>, b: seq<bv64>, i: nat)
    requires |a| == CELL_SLOTS && i < CELL_SLOTS && Kept(a, b) && Placed(a, i) && a[i] != 0
    ensures Placed(b, i)
  {
    hide Passed, Probe;
    var p :| 0 <= p < CELL_PROBES && Probe(a[i], p) == i && Passed(a, a[i], p);
    PassedStays(a, b, a[i], p);
  }

  lemma PassedNext(keys: seq<bv64>, key: bv64, p: nat)
    requires |keys| == CELL_SLOTS && Passed(keys, key, p)
    requires keys[Probe(key, p)] != 0 && keys[Probe(key, p)] != key
    ensures Passed(keys, key, p + 1)
  {
    hide Probe;
  }

  lemma NextOK(keys: seq<bv64>, op: Op, p: nat)
    requires |keys| == CELL_SLOTS && op.key != 0 && p < CELL_PROBES && Passed(keys, op.key, p)
    requires keys[Probe(op.key, p)] != 0 && keys[Probe(op.key, p)] != op.key
    ensures LocalOK(keys, Next(op, p))
  {
    hide Probe, Passed;
    PassedNext(keys, op.key, p);
  }

  // ---- what the counters count ----

  lemma DoneStep(done: seq<Charge>, c: Charge, kind: Kind, slot: Option<nat>)
    ensures CountOf(done + [c], kind, slot) ==
            CountOf(done, kind, slot) + if c.Charge? && c.op.kind == kind && c.slot == slot then 1 else 0
    ensures Performed(done + [c], kind) == Performed(done, kind) + if c.Charge? && c.op.kind == kind then 1 else 0
    ensures PlainOnes(done + [c]) == PlainOnes(done) + if c.Plain? then 1 else 0
    ensures slot.Some? ==>
              Moved(done + [c], kind, slot.value) ==
              Moved(done, kind, slot.value)
              + if c.Charge? && c.op.kind == kind && c.slot == slot then c.op.bytes else 0
  {
    assert (done + [c])[..|done|] == done;
  }

  lemma {:induction false} OwedStep(threads: seq<Local>, t: nat, l: Local, kind: Kind, i: nat)
    requires t < |threads|
    ensures Owed(threads[t := l], kind, i) + Owes(threads[t], kind, i) == Owed(threads, kind, i) + Owes(l, kind, i)
  {
    hide Owes;
    var front := threads[..|threads| - 1];
    if t == |threads| - 1 {
      assert threads[t := l][..|threads| - 1] == front;
    } else {
      OwedStep(front, t, l, kind, i);
      assert threads[t := l][..|threads| - 1] == front[t := l];
    }
  }

  /** A thread that owes nothing before or after its step. */
  lemma OwedStays(threads: seq<Local>, t: nat, l: Local)
    requires t < |threads| && !threads[t].Weighing? && !l.Weighing?
    ensures forall kind, i: nat :: Owed(threads[t := l], kind, i) == Owed(threads, kind, i)
  {
    hide Owed;
    forall kind, i: nat ensures Owed(threads[t := l], kind, i) == Owed(threads, kind, i) {
      OwedStep(threads, t, l, kind, i);
    }
  }

  lemma TallyStays(tally: Tally, done: seq<Charge>, threads: seq<Local>, t: nat, l: Local, kind: Kind)
    requires TallyOK(tally, done, threads, kind) && t < |threads| && !threads[t].Weighing? && !l.Weighing?
    ensures TallyOK(tally, done, threads[t := l], kind)
  {
    hide Owed, CountOf, Moved;
    OwedStays(threads, t, l);
  }

  /** Counting an operation: its bytes are owed from here on. */
  lemma TallyCounts(tally: Tally, done: seq<Charge>, threads: seq<Local>, t: nat, op: Op, at: nat, kind: Kind)
    requires TallyOK(tally, done, threads, kind) && t < |threads| && threads[t] == Charging(op, at) && at < CELL_SLOTS
    ensures TallyOK(if kind == op.kind then Counted(tally, at) else tally, done + [Charge(op, Some(at))],
                    threads[t := Weighing(op, at)], kind)
  {
    hide Owed, CountOf, Moved;
    DoneStep(done, Charge(op, Some(at)), kind, None);
    forall i: nat | i < CELL_SLOTS
      ensures CountOf(done + [Charge(op, Some(at))], kind, Some(i)) ==
              CountOf(done, kind, Some(i)) + if kind == op.kind && i == at then 1 else 0
      ensures Moved(done + [Charge(op, Some(at))], kind, i) - Owed(threads[t := Weighing(op, at)], kind, i) ==
              Moved(done, kind, i) - Owed(threads, kind, i)
    {
      DoneStep(done, Charge(op, Some(at)), kind, Some(i));
      OwedStep(threads, t, Weighing(op, at), kind, i);
    }
  }

  /** Adding the bytes settles what was owed. */
  lemma TallyWeighs(tally: Tally, done: seq<Charge>, threads: seq<Local>, t: nat, op: Op, at: nat, kind: Kind)
    requires TallyOK(tally, done, threads, kind) && t < |threads| && threads[t] == Weighing(op, at) && at < CELL_SLOTS
    ensures TallyOK(if kind == op.kind then Weighed(tally, at, op.bytes) else tally, done, threads[t := Idle], kind)
  {
    hide Owed, CountOf, Moved;
    forall i: nat | i < CELL_SLOTS
      ensures Owed(threads[t := Idle], kind, i) + (if kind == op.kind && i == at then op.bytes else 0) ==
              Owed(threads, kind, i)
    {
      OwedStep(threads, t, Idle, kind, i);
    }
  }

  /** Counting something that belongs to no slot. */
  lemma TallySpills(tally: Tally, done: seq<Charge>, threads: seq<Local>, t: nat, c: Charge, kind: Kind)
    requires TallyOK(tally, done, threads, kind) && t < |threads| && !threads[t].Weighing?
    requires c.Charge? ==> c.slot.None?
    ensures TallyOK(if c.Charge? && kind == c.op.kind then tally.(overflow := tally.overflow + 1) else tally,
                    done + [c], threads[t := Idle], kind)
  {
    hide Owed, CountOf, Moved;
    OwedStays(threads, t, Idle);
    DoneStep(done, c, kind, None);
    forall i: nat | i < CELL_SLOTS
      ensures CountOf(done + [c], kind, Some(i)) == CountOf(done, kind, Some(i))
      ensures Moved(done + [c], kind, i) == Moved(done, kind, i)
    {
      DoneStep(done, c, kind, Some(i));
    }
  }

  // ---- every step keeps it ----

  /** Where a thread that has loaded a slot goes next. */
  lemma LookKeeps(s: Table, t: nat, u: Table)
    requires Inv(s) && t < |s.threads| && s.threads[t].Looking? && Step(s, t, u)
    ensures |u.threads| == |s.threads| && u == s.(threads := s.threads[t := u.threads[t]])
    ensures !u.threads[t].Weighing?
    ensures LocalOK(u.keys, u.threads[t])
  {
    hide Probe, Passed, Placed, TallyOK, PlainOnes, ChargeOK;
    var op, p := s.threads[t].op, s.threads[t].probe;
    assert LocalOK(s.keys, s.threads[t]);
    var current := s.keys[Probe(op.key, p)];
    if current != op.key && current != 0 { NextOK(s.keys, op, p); }
  }

  lemma ClaimKeeps(s: Table, t: nat, u: Table)
    requires Inv(s) && t < |s.threads| && s.threads[t].Claiming? && Step(s, t, u)
    ensures |u.threads| == |s.threads| && u == s.(keys := u.keys, threads := s.threads[t := u.threads[t]])
    ensures !u.threads[t].Weighing?
    ensures Kept(s.keys, u.keys) && LocalOK(u.keys, u.threads[t])
    ensures forall i :: 0 <= i < CELL_SLOTS ==> Placed(u.keys, i)
  {
    hide Probe, Passed, Placed, TallyOK, PlainOnes, ChargeOK;
    var op, p := s.threads[t].op, s.threads[t].probe;
    assert LocalOK(s.keys, s.threads[t]);
    var at := Probe(op.key, p);
    if s.keys[at] == 0 {
      forall i | 0 <= i < CELL_SLOTS ensures Placed(u.keys, i) {
        if i == at {
          PassedStays(s.keys, u.keys, op.key, p);
          PlacedBy(u.keys, i, p);
        } else if s.keys[i] != 0 {
          PlacedStays(s.keys, u.keys, i);
        } else {
          Unplaced(u.keys, i);
        }
      }
    } else if s.keys[at] != op.key {
      NextOK(s.keys, op, p);
    }
  }

  lemma PlacedBy(keys: seq<bv64>, i: nat, p: nat)
    requires |keys| == CELL_SLOTS && i < CELL_SLOTS && p < CELL_PROBES
    requires Probe(keys[i], p) == i && Passed(keys, keys[i], p)
    ensures Placed(keys, i)
  {
  }

  lemma Unplaced(keys: seq<bv64>, i: nat)
    requires |keys| == CELL_SLOTS && i < CELL_SLOTS && keys[i] == 0
    ensures Placed(keys, i)
  {
  }

  /** Moving one thread and counting nothing. */
  lemma MoveKeeps(s: Table, t: nat, u: Table)
    requires Inv(s) && t < |s.threads| == |u.threads| && u == s.(threads := s.threads[t := u.threads[t]])
    requires LocalOK(u.keys, u.threads[t]) && !s.threads[t].Weighing? && !u.threads[t].Weighing?
    ensures Inv(u)
  {
    hide Placed, ChargeOK, LocalOK, TallyOK, PlainOnes;
    TallyStays(s.readTally, s.done, s.threads, t, u.threads[t], Read);
    TallyStays(s.writeTally, s.done, s.threads, t, u.threads[t], Write);
  }

  lemma ClaimInv(s: Table, t: nat, u: Table)
    requires Inv(s) && t < |s.threads| && s.threads[t].Claiming? && Step(s, t, u)
    ensures Inv(u) && Kept(s.keys, u.keys)
  {
    hide Placed, ChargeOK, LocalOK, TallyOK, PlainOnes, Step;
    ClaimKeeps(s, t, u);
    forall i | 0 <= i < |s.threads| && i != t ensures LocalOK(u.keys, u.threads[i]) {
      LocalStays(s.keys, u.keys, s.threads[i]);
    }
    forall i | 0 <= i < |s.done| ensures ChargeOK(u.keys, u.done[i]) { ChargeStays(s.keys, u.keys, s.done[i]); }
    TallyStays(s.readTally, s.done, s.threads, t, u.threads[t], Read);
    TallyStays(s.writeTally, s.done, s.threads, t, u.threads[t], Write);
  }

  /** Counting an operation, adding its bytes, or counting one that has no slot. */
  lemma CountKeeps(s: Table, t: nat, u: Table)
    requires Inv(s) && t < |s.threads| && Step(s, t, u)
    requires s.threads[t].Charging? || s.threads[t].Weighing? || s.threads[t].Spilling?
    ensures Inv(u)
  {
    hide Placed, ChargeOK, LocalOK, TallyOK, PlainOnes;
    LocalCharge(s.keys, s.threads[t]);
    var op := s.threads[t].op;
    if s.threads[t].Charging? {
      var i := s.threads[t].slot;
      TallyCounts(s.readTally, s.done, s.threads, t, op, i, Read);
      TallyCounts(s.writeTally, s.done, s.threads, t, op, i, Write);
      DoneStep(s.done, Charge(op, Some(i)), Read, None);
    } else if s.threads[t].Weighing? {
      TallyWeighs(s.readTally, s.done, s.threads, t, op, s.threads[t].slot, Read);
      TallyWeighs(s.writeTally, s.done, s.threads, t, op, s.threads[t].slot, Write);
    } else {
      TallySpills(s.readTally, s.done, s.threads, t, Charge(op, None), Read);
      TallySpills(s.writeTally, s.done, s.threads, t, Charge(op, None), Write);
      DoneStep(s.done, Charge(op, None), Read, None);
    }
  }

  lemma BeginKeeps(s: Table, t: nat, u: Table)
    requires Inv(s) && t < |s.threads| && s.threads[t].Idle? && Begins(s, t, u)
    ensures Inv(u) && u.keys == s.keys
  {
    hide Placed, ChargeOK, LocalOK, TallyOK, PlainOnes, KeyOf;
    if u == s.(unattributed := s.unattributed + 1, done := s.done + [Plain]) {
      assert s.threads[t := Idle] == s.threads;
      TallySpills(s.readTally, s.done, s.threads, t, Plain, Read);
      TallySpills(s.writeTally, s.done, s.threads, t, Plain, Write);
      DoneStep(s.done, Plain, Read, None);
      PlainOK(s.keys);
    } else {
      var c, kind, bytes: nat :| u == s.(threads := s.threads[t := Looking(Op(KeyOf(c), kind, bytes), 0)]);
      StartOK(s.keys, c, kind, bytes);
      MoveKeeps(s, t, u);
    }
  }

  /** Every step of every thread keeps the invariant, and never takes a slot back. */
  lemma StepKeeps(s: Table, t: nat, u: Table)
    requires Inv(s) && t < |s.threads| && Step(s, t, u)
    ensures Inv(u) && Kept(s.keys, u.keys) && |u.threads| == |s.threads| && s.done <= u.done
  {
    hide Inv, LocalOK, KeyOf, Probe;
    if s.threads[t].Idle? {
      BeginKeeps(s, t, u);
    } else if s.threads[t].Looking? {
      LookKeeps(s, t, u);
      MoveKeeps(s, t, u);
    } else if s.threads[t].Claiming? {
      ClaimInv(s, t, u);
    } else {
      CountKeeps(s, t, u);
    }
  }

  lemma PlainOK(keys: seq<bv64>)
    requires |keys| == CELL_SLOTS
    ensures ChargeOK(keys, Plain)
  {
  }

  lemma StartOK(keys: seq<bv64>, c: Coordinate, kind: Kind, bytes: nat)
    requires |keys| == CELL_SLOTS
    ensures LocalOK(keys, Looking(Op(KeyOf(c), kind, bytes), 0))
  {
    hide KeyOf;
    KeyBack(c);
  }

  lemma LocalCharge(keys: seq<bv64>, l: Local)
    requires |keys| == CELL_SLOTS && LocalOK(keys, l)
    ensures l.Charging? ==> ChargeOK(keys, Charge(l.op, Some(l.slot))) && LocalOK(keys, Weighing(l.op, l.slot))
    ensures l.Spilling? ==> ChargeOK(keys, Charge(l.op, None))
    ensures LocalOK(keys, Idle)
  {
  }

  // ---- runs ----

  ghost predicate Run(run: seq<Table>) {
    && |run| > 0 && Fresh(run[0])
    && forall i :: 0 <= i < |run| - 1 ==>
         SomeStep(run[i], run[i + 1])
  }

  ghost predicate SomeStep(s: Table, u: Table) {
    Shaped(s) && exists t :: 0 <= t < |s.threads| && Step(s, t, u)
  }

  lemma FreshInv(s: Table)
    requires Fresh(s)
    ensures Inv(s)
  {
    hide Owed, Passed;
    forall kind, i: nat ensures Owed(s.threads, kind, i) == 0 { OwedNone(s.threads, kind, i); }
  }

  lemma {:induction false} OwedNone(threads: seq<Local>, kind: Kind, i: nat)
    requires forall t :: 0 <= t < |threads| ==> !threads[t].Weighing?
    ensures Owed(threads, kind, i) == 0
  {
    if threads != [] { OwedNone(threads[..|threads| - 1], kind, i); }
  }

  lemma {:induction false} RunKeeps(run: seq<Table>, a: nat, b: nat)
    requires Run(run) && a <= b < |run|
    ensures Inv(run[a]) && Inv(run[b]) && Kept(run[a].keys, run[b].keys) && run[a].done <= run[b].done
    decreases b
  {
    hide Inv, Step, Fresh;
    if b == 0 {
      FreshInv(run[0]);
    } else {
      RunKeeps(run, if a == b then a - 1 else a, b - 1);
      var t :| 0 <= t < |run[b - 1].threads| && Step(run[b - 1], t, run[b]);
      StepKeeps(run[b - 1], t, run[b]);
    }
  }

  /** A coordinate owns at most one slot, for ever: two moments of a run never see its key in
      different slots. */
  lemma OneSlotForEver(run: seq<Table>, a: nat, b: nat, i: nat, j: nat)
    requires Run(run) && a <= b < |run| && i < CELL_SLOTS && j < CELL_SLOTS
    requires |run[a].keys| == CELL_SLOTS && |run[b].keys| == CELL_SLOTS
    requires run[a].keys[i] == run[b].keys[j] != 0
    ensures i == j && run[b].keys[i] == run[a].keys[i]
  {
    hide Inv;
    RunKeeps(run, a, b);
    OneSlot(run[b], i, j);
  }

  lemma OneSlot(s: Table, i: nat, j: nat)
    requires Inv(s) && i < CELL_SLOTS && j < CELL_SLOTS && s.keys[i] == s.keys[j] != 0
    ensures i == j
  {
    hide Probe, LocalOK, ChargeOK, TallyOK, PlainOnes;
    assert Placed(s.keys, i) && Placed(s.keys, j);
    var k := s.keys[i];
    var p :| 0 <= p < CELL_PROBES && Probe(k, p) == i && Passed(s.keys, k, p);
    var q :| 0 <= q < CELL_PROBES && Probe(k, q) == j && Passed(s.keys, k, q);
    assert !(p < q) && !(q < p);
  }

  /** In any interleaving, one coordinate's operations, reads and writes alike, are all counted in
      one slot, or all counted as overflow. */
  lemma AllOrNone(run: seq<Table>, n: nat, x: nat, y: nat)
    requires Run(run) && n < |run| && x < |run[n].done| && y < |run[n].done|
    requires run[n].done[x].Charge? && run[n].done[y].Charge? && run[n].done[x].op.key == run[n].done[y].op.key
    ensures run[n].done[x].slot == run[n].done[y].slot
  {
    hide Inv, Run;
    RunKeeps(run, n, n);
    SameOutcome(run[n], x, y);
  }

  lemma SameOutcome(s: Table, x: nat, y: nat)
    requires Inv(s) && x < |s.done| && y < |s.done| && s.done[x].Charge? && s.done[y].Charge?
    requires s.done[x].op.key == s.done[y].op.key
    ensures s.done[x].slot == s.done[y].slot
  {
    hide Placed, LocalOK, TallyOK, PlainOnes;
    var c, d := s.done[x], s.done[y];
    assert ChargeOK(s.keys, c) && ChargeOK(s.keys, d);
    if c.slot.Some? && d.slot.Some? {
      OneSlot(s, c.slot.value, d.slot.value);
    } else if c.slot.Some? {
      NotBoth(s, c.slot.value);
    } else if d.slot.Some? {
      NotBoth(s, d.slot.value);
    }
  }

  /** A key that owns a slot was never turned away. */
  lemma NotBoth(s: Table, i: nat)
    requires Inv(s) && i < CELL_SLOTS && s.keys[i] != 0
    ensures !Passed(s.keys, s.keys[i], CELL_PROBES)
  {
    hide Probe, LocalOK, ChargeOK, TallyOK, PlainOnes;
    assert Placed(s.keys, i);
    var p :| 0 <= p < CELL_PROBES && Probe(s.keys[i], p) == i && Passed(s.keys, s.keys[i], p);
  }

  function Sum(counts: seq<nat>): nat {
    if counts == [] then 0 else Sum(counts[..|counts| - 1]) + counts[|counts| - 1]
  }

  /** At every moment, for reads and for writes: attributed plus overflow is the operations
      performed, each slot's bytes fall short only by what threads have counted and not yet
      added, and with no thread in between not at all. Every operation is in one of the three
      accounts. */
  lemma Conserved(run: seq<Table>, n: nat, kind: Kind)
    requires Run(run) && n < |run|
    ensures var s := run[n];
            && Sum(s.Of(kind).ops) + s.Of(kind).overflow == Performed(s.done, kind)
            && |s.Of(kind).bytes| == CELL_SLOTS
            && (forall i :: 0 <= i < CELL_SLOTS ==>
                  s.Of(kind).bytes[i] + Owed(s.threads, kind, i) == Moved(s.done, kind, i))
            && ((forall t :: 0 <= t < |s.threads| ==> !s.threads[t].Weighing?) ==>
                  forall i :: 0 <= i < CELL_SLOTS ==> s.Of(kind).bytes[i] == Moved(s.done, kind, i))
            && Performed(s.done, Read) + Performed(s.done, Write) + s.unattributed == |s.done|
  {
    hide Inv, Run, Owed, Moved, Performed, Sum;
    RunKeeps(run, n, n);
    var s := run[n];
    SlotsCover(s, kind);
    AllCounted(s.done);
    if forall t :: 0 <= t < |s.threads| ==> !s.threads[t].Weighing? {
      forall i: nat ensures Owed(s.threads, kind, i) == 0 { OwedNone(s.threads, kind, i); }
    }
  }

  lemma {:induction false} AllCounted(done: seq<Charge>)
    ensures Performed(done, Read) + Performed(done, Write) + PlainOnes(done) == |done|
  {
    if done != [] { AllCounted(done[..|done| - 1]); }
  }

  lemma SlotsCover(s: Table, kind: Kind)
    requires Inv(s)
    ensures Sum(s.Of(kind).ops) + s.Of(kind).overflow == Performed(s.done, kind)
    ensures TallyOK(s.Of(kind), s.done, s.threads, kind) && s.unattributed == PlainOnes(s.done)
  {
    hide LocalOK, Placed, CountOf, Owed, Moved, Performed, Sum;
    forall i | 0 <= i < |s.done| ensures InRange(s.done[i], CELL_SLOTS) {
      assert ChargeOK(s.keys, s.done[i]);
    }
    SumOf(s.done, kind, CELL_SLOTS);
    SumIs(s.Of(kind).ops, s.done, kind);
  }

  predicate InRange(c: Charge, n: nat) { c.Charge? && c.slot.Some? ==> c.slot.value < n }

  function CountUpTo(done: seq<Charge>, kind: Kind, n: nat): nat {
    if n == 0 then 0 else CountUpTo(done, kind, n - 1) + CountOf(done, kind, Some(n - 1))
  }

  lemma {:induction false} SumIs(counts: seq<nat>, done: seq<Charge>, kind: Kind)
    requires forall i :: 0 <= i < |counts| ==> counts[i] == CountOf(done, kind, Some(i))
    ensures Sum(counts) == CountUpTo(done, kind, |counts|)
    decreases |counts|
  {
    hide CountOf;
    if counts != [] { SumIs(counts[..|counts| - 1], done, kind); }
  }

  /** Counting charges slot by slot, and apart from them the overflow, counts every charge. */
  lemma {:induction false} SumOf(done: seq<Charge>, kind: Kind, n: nat)
    requires forall i :: 0 <= i < |done| ==> InRange(done[i], n)
    ensures CountUpTo(done, kind, n) + CountOf(done, kind, None) == Performed(done, kind)
  {
    hide CountOf, CountUpTo;
    if done == [] {
      NoCounts(kind, n);
    } else {
      var front, last := done[..|done| - 1], done[|done| - 1];
      SumOf(front, kind, n);
      assert done == front + [last];
      DoneStep(front, last, kind, None);
      UpToStep(front, last, kind, n);
    }
  }

  lemma {:induction false} NoCounts(kind: Kind, n: nat)
    ensures CountUpTo([], kind, n) == 0 && CountOf([], kind, None) == 0
  {
    if n > 0 { NoCounts(kind, n - 1); }
  }

  lemma {:induction false} UpToStep(done: seq<Charge>, c: Charge, kind: Kind, n: nat)
    ensures CountUpTo(done + [c], kind, n) ==
            CountUpTo(done, kind, n)
            + if c.Charge? && c.op.kind == kind && c.slot.Some? && c.slot.value < n then 1 else 0
  {
    hide CountOf;
    if n > 0 {
      UpToStep(done, c, kind, n - 1);
      DoneStep(done, c, kind, Some(n - 1));
    }
  }
}
