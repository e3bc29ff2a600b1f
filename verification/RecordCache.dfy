/** The record cache: a hash map and a use-order map that together are a least-recently-used
    list. */
module RecordCacheModel {
  import opened Entries

  /** Where a record is stored. */
  type Location = nat

  datatype Slot<T> = Slot(node: T, tick: nat)

  datatype Use<T> = Use(location: Location, node: T)

  // ---- the list a cache stands for, least recently used first ----

  function Without<T>(list: seq<Use<T>>, location: Location): seq<Use<T>> {
    if list == [] then [] else
      Without(list[..|list| - 1], location)
      + if list[|list| - 1].location == location then [] else [list[|list| - 1]]
  }

  function Find<T>(list: seq<Use<T>>, location: Location): Option<T> {
    if list == [] then None
    else if list[|list| - 1].location == location then Some(list[|list| - 1].node)
    else Find(list[..|list| - 1], location)
  }

  /** Using an entry moves it to the end. */
  function Used<T>(list: seq<Use<T>>, location: Location, node: T): seq<Use<T>> {
    Without(list, location) + [Use(location, node)]
  }

  /** The oldest leave until the list fits. */
  function Bounded<T>(list: seq<Use<T>>, capacity: nat): seq<Use<T>> {
    if |list| <= capacity then list else list[|list| - capacity..]
  }

  // ---- the paired maps ----

  /** The two maps are inverses of each other, and `uses` lists the ticks in order. */
  ghost predicate Pairs<T(!new)>(entries: map<Location, Slot<T>>, order: map<nat, Location>, uses: seq<nat>,
                                 tick: nat) {
    && |entries| == |uses|
    && (forall i, j :: 0 <= i < j < |uses| ==> uses[i] < uses[j])
    && (forall u :: u in order <==> u in uses)
    && (forall u :: u in order ==> u <= tick && order[u] in entries && entries[order[u]].tick == u)
    && forall l :: l in entries ==> entries[l].tick in order && order[entries[l].tick] == l
  }

  ghost function ListOf<T(!new)>(entries: map<Location, Slot<T>>, order: map<nat, Location>, uses: seq<nat>,
                                 tick: nat): (list: seq<Use<T>>)
    requires Pairs(entries, order, uses, tick)
    ensures |list| == |uses|
  {
    seq(|uses|, i requires 0 <= i < |uses| => UseAt(entries, order, uses, tick, i))
  }

  ghost function UseAt<T(!new)>(entries: map<Location, Slot<T>>, order: map<nat, Location>, uses: seq<nat>, tick: nat,
                                i: nat): Use<T>
    requires Pairs(entries, order, uses, tick) && i < |uses|
  {
    assert uses[i] in uses;
    Use(order[uses[i]], entries[order[uses[i]]].node)
  }

  function Drop<T>(s: seq<T>, n: nat): seq<T>
    requires n < |s|
  {
    s[..n] + s[n + 1..]
  }

  lemma {:induction false} WithoutNone<T>(list: seq<Use<T>>, location: Location)
    requires forall i :: 0 <= i < |list| ==> list[i].location != location
    ensures Without(list, location) == list && Find(list, location) == None
  {
    if list != [] { WithoutNone(list[..|list| - 1], location); }
  }

  lemma {:induction false} WithoutConcat<T>(a: seq<Use<T>>, b: seq<Use<T>>, location: Location)
    ensures Without(a + b, location) == Without(a, location) + Without(b, location)
  {
    if b == [] {
      assert a + b == a;
    } else {
      assert (a + b)[..|a + b| - 1] == a + b[..|b| - 1];
      WithoutConcat(a, b[..|b| - 1], location);
    }
  }

  lemma {:induction false} FindAt<T>(list: seq<Use<T>>, n: nat)
    requires n < |list| && forall i :: n < i < |list| ==> list[i].location != list[n].location
    ensures Find(list, list[n].location) == Some(list[n].node)
  {
    if n < |list| - 1 { FindAt(list[..|list| - 1], n); }
  }

  /** With each location listed once, taking it out is dropping its place. */
  lemma WithoutOne<T>(list: seq<Use<T>>, n: nat)
    requires n < |list| && forall i :: 0 <= i < |list| && i != n ==> list[i].location != list[n].location
    ensures Without(list, list[n].location) == Drop(list, n)
  {
    hide Without;
    var a, u, c := list[..n], list[n], list[n + 1..];
    Around(list, n);
    forall i | 0 <= i < |a| ensures a[i].location != u.location { assert a[i] == list[i]; }
    forall i | 0 <= i < |c| ensures c[i].location != u.location { assert c[i] == list[n + 1 + i]; }
    WithoutMiddle(a, u, c);
  }

  lemma Around<T>(list: seq<Use<T>>, n: nat)
    requires n < |list|
    ensures list == list[..n] + ([list[n]] + list[n + 1..])
  {
  }

  lemma WithoutMiddle<T>(a: seq<Use<T>>, u: Use<T>, c: seq<Use<T>>)
    requires forall i :: 0 <= i < |a| ==> a[i].location != u.location
    requires forall i :: 0 <= i < |c| ==> c[i].location != u.location
    ensures Without(a + ([u] + c), u.location) == a + c
  {
    hide Without;
    WithoutConcat(a, [u] + c, u.location);
    WithoutConcat([u], c, u.location);
    WithoutNone(a, u.location);
    WithoutNone(c, u.location);
    WithoutSelf(u);
    assert [] + c == c;
  }

  lemma WithoutSelf<T>(u: Use<T>)
    ensures Without([u], u.location) == []
  {
    assert [u][..0] == [];
  }

  /** Distinct ticks name distinct locations. */
  lemma Apart<T(!new)>(entries: map<Location, Slot<T>>, order: map<nat, Location>, uses: seq<nat>, tick: nat, i: nat,
                       j: nat)
    requires Pairs(entries, order, uses, tick) && i < |uses| && j < |uses| && i != j
    ensures order[uses[i]] != order[uses[j]]
  {
    assert uses[i] in uses && uses[j] in uses;
    assert uses[i] != uses[j] by { if i < j { assert uses[i] < uses[j]; } else { assert uses[j] < uses[i]; } }
  }

  /** Where an entry sits in the list. */
  lemma Locate<T(!new)>(entries: map<Location, Slot<T>>, order: map<nat, Location>, uses: seq<nat>, tick: nat,
                        location: Location)
    returns (n: nat)
    requires Pairs(entries, order, uses, tick) && location in entries
    ensures n < |uses| && uses[n] == entries[location].tick && order[uses[n]] == location
    ensures var list := ListOf(entries, order, uses, tick);
            && Find(list, location) == Some(entries[location].node)
            && Without(list, location) == Drop(list, n)
  {
    hide Find, Without;
    n :| 0 <= n < |uses| && uses[n] == entries[location].tick;
    var list := ListOf(entries, order, uses, tick);
    forall i | 0 <= i < |list| && i != n ensures list[i].location != list[n].location {
      Apart(entries, order, uses, tick, i, n);
    }
    FindAt(list, n);
    WithoutOne(list, n);
  }

  lemma Missing<T(!new)>(entries: map<Location, Slot<T>>, order: map<nat, Location>, uses: seq<nat>, tick: nat,
                         location: Location)
    requires Pairs(entries, order, uses, tick) && location !in entries
    ensures var list := ListOf(entries, order, uses, tick);
            Find(list, location) == None && Without(list, location) == list
  {
    hide Find, Without;
    var list := ListOf(entries, order, uses, tick);
    forall i | 0 <= i < |list| ensures list[i].location != location { assert uses[i] in uses; }
    WithoutNone(list, location);
  }

  /** Taking an entry out of both maps. */
  lemma Removed<T(!new)>(entries: map<Location, Slot<T>>, order: map<nat, Location>, uses: seq<nat>, tick: nat, n: nat)
    requires Pairs(entries, order, uses, tick) && n < |uses|
    ensures var l := order[uses[n]];
            && Pairs(entries - {l}, order - {uses[n]}, Drop(uses, n), tick)
            && ListOf(entries - {l}, order - {uses[n]}, Drop(uses, n), tick) ==
                   Drop(ListOf(entries, order, uses, tick), n)
  {
    hide Drop, ListOf;
    PairsDrop(entries, order, uses, tick, n);
    ListDrops(entries, order, uses, tick, entries - {order[uses[n]]}, order - {uses[n]}, n);
  }

  lemma PairsDrop<T(!new)>(entries: map<Location, Slot<T>>, order: map<nat, Location>, uses: seq<nat>, tick: nat,
                           n: nat)
    requires Pairs(entries, order, uses, tick) && n < |uses|
    ensures uses[n] in order && order[uses[n]] in entries
    ensures Pairs(entries - {order[uses[n]]}, order - {uses[n]}, Drop(uses, n), tick)
  {
    var u := uses[n];
    assert u in uses;
    var l, e, o := order[u], entries - {order[u]}, order - {u};
    Shrinks(entries, l);
    DropMembers(uses, n);
    DropAscends(uses, n);
    forall v | v in o ensures v <= tick && o[v] in e && e[o[v]].tick == v {}
    forall m | m in e ensures e[m].tick in o && o[e[m].tick] == m {}
  }

  lemma ListDrops<T(!new)>(entries: map<Location, Slot<T>>, order: map<nat, Location>, uses: seq<nat>, tick: nat,
                           e: map<Location, Slot<T>>, o: map<nat, Location>, n: nat)
    requires n < |uses| && Pairs(entries, order, uses, tick) && Pairs(e, o, Drop(uses, n), tick)
    requires forall u :: u in o ==> u in order && o[u] == order[u]
    requires forall l :: l in e ==> l in entries && e[l] == entries[l]
    ensures ListOf(e, o, Drop(uses, n), tick) == Drop(ListOf(entries, order, uses, tick), n)
  {
    hide Pairs, UseAt;
    var list, rest := ListOf(entries, order, uses, tick), Drop(uses, n);
    var a, b := ListOf(e, o, rest, tick), Drop(list, n);
    forall i | 0 <= i < |rest| ensures a[i] == b[i] {
      UseSame(entries, order, uses, tick, e, o, rest, if i < n then i else i + 1, i);
    }
  }

  lemma UseSame<T(!new)>(entries: map<Location, Slot<T>>, order: map<nat, Location>, uses: seq<nat>, tick: nat,
                         e: map<Location, Slot<T>>, o: map<nat, Location>, rest: seq<nat>, i: nat, j: nat)
    requires Pairs(entries, order, uses, tick) && Pairs(e, o, rest, tick)
    requires forall u :: u in o ==> u in order && o[u] == order[u]
    requires forall l :: l in e ==> l in entries && e[l] == entries[l]
    requires i < |uses| && j < |rest| && uses[i] == rest[j]
    ensures UseAt(entries, order, uses, tick, i) == UseAt(e, o, rest, tick, j)
  {
    assert rest[j] in rest;
  }

  lemma Shrinks<T>(m: map<Location, Slot<T>>, l: Location)
    requires l in m
    ensures |m - {l}| == |m| - 1
  {
    assert (m - {l}).Keys == m.Keys - {l};
  }

  lemma Extends<T>(m: map<Location, Slot<T>>, l: Location, s: Slot<T>)
    requires l !in m
    ensures |m[l := s]| == |m| + 1
  {
    assert m[l := s].Keys == m.Keys + {l};
  }

  lemma DropMembers(uses: seq<nat>, n: nat)
    requires n < |uses| && forall i, j :: 0 <= i < j < |uses| ==> uses[i] < uses[j]
    ensures forall u :: u in Drop(uses, n) <==> u in uses && u != uses[n]
  {
    var rest := Drop(uses, n);
    forall u | u in uses && u != uses[n] ensures u in rest {
      var i :| 0 <= i < |uses| && uses[i] == u;
      assert rest[if i < n then i else i - 1] == u;
    }
    forall u | u in rest ensures u in uses && u != uses[n] {
      var i :| 0 <= i < |rest| && rest[i] == u;
      assert u == uses[if i < n then i else i + 1];
    }
  }

  lemma DropAscends(uses: seq<nat>, n: nat)
    requires n < |uses| && forall i, j :: 0 <= i < j < |uses| ==> uses[i] < uses[j]
    ensures forall i, j :: 0 <= i < j < |Drop(uses, n)| ==> Drop(uses, n)[i] < Drop(uses, n)[j]
  {
    var rest := Drop(uses, n);
    forall i, j | 0 <= i < j < |rest| ensures rest[i] < rest[j] {
      assert rest[i] == uses[if i < n then i else i + 1] && rest[j] == uses[if j < n then j else j + 1];
    }
  }

  /** Adding an entry under the next tick. */
  lemma Added<T(!new)>(entries: map<Location, Slot<T>>, order: map<nat, Location>, uses: seq<nat>, tick: nat,
                       l: Location, node: T)
    requires Pairs(entries, order, uses, tick) && l !in entries
    ensures var e, o := entries[l := Slot(node, tick + 1)], order[tick + 1 := l];
            && Pairs(e, o, uses + [tick + 1], tick + 1)
            && ListOf(e, o, uses + [tick + 1], tick + 1) == ListOf(entries, order, uses, tick) + [Use(l, node)]
  {
    var e, o, more := entries[l := Slot(node, tick + 1)], order[tick + 1 := l], uses + [tick + 1];
    Extends(entries, l, Slot(node, tick + 1));
    forall i | 0 <= i < |uses| ensures uses[i] <= tick { assert uses[i] in uses; }
    forall u ensures u in o <==> u in more {}
    var a, b := ListOf(e, o, more, tick + 1), ListOf(entries, order, uses, tick) + [Use(l, node)];
    forall i | 0 <= i < |more| ensures a[i] == b[i] {
      if i < |uses| { assert uses[i] in uses; }
    }
  }

  class RecordCache<T(!new)> {
    var entries: map<Location, Slot<T>>
    var order: map<nat, Location>
    var tick: nat
    const capacity: nat
    ghost var uses: seq<nat>

    ghost predicate Valid()
      reads this
    {
      capacity > 0 && |uses| <= capacity && Pairs(entries, order, uses, tick)
    }

    /** The cached records, least recently used first. */
    ghost function List(): seq<Use<T>>
      requires Valid()
      reads this
    {
      ListOf(entries, order, uses, tick)
    }

    constructor (capacity: nat)
      requires capacity > 0
      ensures Valid() && List() == [] && this.capacity == capacity
    {
      entries, order, tick := map[], map[], 0;
      this.capacity := capacity;
      uses := [];
    }

    /** A hit returns the node last put there and makes it the most recently used. */
    method Get(location: Location) returns (r: Option<T>)
      requires Valid()
      modifies this
      ensures Valid() && r == Find(old(List()), location)
      ensures List() == if r.Some? then Used(old(List()), location, r.value) else old(List())
    {
      hide Pairs, Find, Without, Used, ListOf;
      if location !in entries {
        Missing(entries, order, uses, tick, location);
        return None;
      }
      var node, previous := entries[location].node, entries[location].tick;
      ghost var next := Moved(entries, order, uses, tick, location, node);
      order := order - {previous};
      tick := tick + 1;
      order := order[tick := location];
      entries := entries[location := Slot(node, tick)];
      uses := next;
      return Some(node);
    }

    /** Put a node most recently used, and let the oldest go until the cache fits. */
    method Put(location: Location, node: T)
      requires Valid()
      modifies this
      ensures Valid() && List() == Bounded(Used(old(List()), location, node), capacity)
    {
      hide Pairs, Find, Without, Used, ListOf;
      ghost var next := Moved(entries, order, uses, tick, location, node);
      if location in entries {
        var previous := entries[location].tick;
        order := order - {previous};
      }
      tick := tick + 1;
      entries := entries[location := Slot(node, tick)];
      order := order[tick := location];
      uses := next;
      Shrink();
    }

    method Shrink()
      requires capacity > 0 && Pairs(entries, order, uses, tick)
      modifies this`entries, this`order, this`uses
      ensures Valid() && List() == Bounded(old(ListOf(entries, order, uses, tick)), capacity)
    {
      hide Pairs, ListOf;
      ghost var all := ListOf(entries, order, uses, tick);
      Sized(entries, order, uses, tick);
      while |entries| > capacity
        invariant Pairs(entries, order, uses, tick) && |entries| == |uses|
        invariant |uses| <= |all| && (|uses| < |all| ==> |uses| >= capacity)
        invariant ListOf(entries, order, uses, tick) == all[|all| - |uses|..]
        decreases |entries|
      {
        OldestIs(entries, order, uses, tick);
        var oldest :| oldest in order && forall u :: u in order ==> oldest <= u;
        var victim := order[oldest];
        Evicts(entries, order, uses, tick, all);
        order := order - {oldest};
        entries := entries - {victim};
        uses := uses[1..];
        Sized(entries, order, uses, tick);
      }
    }

    /** Drop one location. */
    method Invalidate(location: Location)
      requires Valid()
      modifies this
      ensures Valid() && List() == Without(old(List()), location)
    {
      hide Pairs, Find, Without;
      if location in entries {
        var last := entries[location].tick;
        ghost var n := Locate(entries, order, uses, tick, location);
        Removed(entries, order, uses, tick, n);
        entries := entries - {location};
        order := order - {last};
        uses := Drop(uses, n);
      } else {
        Missing(entries, order, uses, tick, location);
      }
    }
  }

  /** Using a location, cached or not, under the next tick. */
  lemma Moved<T(!new)>(entries: map<Location, Slot<T>>, order: map<nat, Location>, uses: seq<nat>, tick: nat,
                       location: Location, node: T)
    returns (next: seq<nat>)
    requires Pairs(entries, order, uses, tick)
    ensures location in entries ==> Find(ListOf(entries, order, uses, tick), location) == Some(entries[location].node)
    ensures |next| == |uses| + if location in entries then 0 else 1
    ensures var rest := if location in entries then order - {entries[location].tick} else order;
            var e, o := entries[location := Slot(node, tick + 1)], rest[tick + 1 := location];
            && Pairs(e, o, next, tick + 1)
            && ListOf(e, o, next, tick + 1) == Used(ListOf(entries, order, uses, tick), location, node)
  {
    hide Pairs, Find, Without, ListOf;
    if location in entries {
      var n := Locate(entries, order, uses, tick, location);
      Removed(entries, order, uses, tick, n);
      next := Drop(uses, n) + [tick + 1];
      Added(entries - {location}, order - {uses[n]}, Drop(uses, n), tick, location, node);
      Readded(entries, location, Slot(node, tick + 1));
    } else {
      Missing(entries, order, uses, tick, location);
      next := uses + [tick + 1];
      Added(entries, order, uses, tick, location, node);
    }
  }

  /** Dropping the oldest entry leaves the rest of the list. */
  lemma Evicts<T(!new)>(entries: map<Location, Slot<T>>, order: map<nat, Location>, uses: seq<nat>, tick: nat,
                        all: seq<Use<T>>)
    requires Pairs(entries, order, uses, tick) && |uses| > 0 && |uses| <= |all|
    requires ListOf(entries, order, uses, tick) == all[|all| - |uses|..]
    ensures uses[0] in order
    ensures var e, o := entries - {order[uses[0]]}, order - {uses[0]};
            Pairs(e, o, uses[1..], tick) && ListOf(e, o, uses[1..], tick) == all[|all| - |uses| + 1..]
  {
    hide Pairs, ListOf;
    OldestIs(entries, order, uses, tick);
    Removed(entries, order, uses, tick, 0);
    assert Drop(uses, 0) == uses[1..];
    assert Drop(all[|all| - |uses|..], 0) == all[|all| - |uses| + 1..];
  }

  lemma Readded<T>(m: map<Location, Slot<T>>, l: Location, s: Slot<T>)
    ensures (m - {l})[l := s] == m[l := s]
  {
  }

  lemma Sized<T(!new)>(entries: map<Location, Slot<T>>, order: map<nat, Location>, uses: seq<nat>, tick: nat)
    requires Pairs(entries, order, uses, tick)
    ensures |entries| == |uses|
  {
  }

  lemma OldestIs<T(!new)>(entries: map<Location, Slot<T>>, order: map<nat, Location>, uses: seq<nat>, tick: nat)
    requires Pairs(entries, order, uses, tick) && |uses| > 0
    ensures uses[0] in order && order[uses[0]] in entries
    ensures forall u :: u in order ==> uses[0] <= u
  {
    assert uses[0] in uses;
    forall u | u in order ensures uses[0] <= u {
      var i :| 0 <= i < |uses| && uses[i] == u;
    }
  }

  // ---- what a hit returns, over whole runs ----

  datatype Op<T> = GetOp(location: Location) | PutOp(location: Location, node: T) | InvalidateOp(location: Location)

  /** The list after a run of operations, each as its method specifies. */
  function After<T>(ops: seq<Op<T>>, capacity: nat): seq<Use<T>> {
    if ops == [] then [] else
      var list := After(ops[..|ops| - 1], capacity);
      match ops[|ops| - 1]
      case GetOp(l) => if Find(list, l).Some? then Used(list, l, Find(list, l).value) else list
      case PutOp(l, node) => Bounded(Used(list, l, node), capacity)
      case InvalidateOp(l) => Without(list, l)
  }

  /** The node most recently put at a location. */
  function LastPut<T>(ops: seq<Op<T>>, location: Location): Option<T> {
    if ops == [] then None
    else if ops[|ops| - 1].PutOp? && ops[|ops| - 1].location == location then Some(ops[|ops| - 1].node)
    else LastPut(ops[..|ops| - 1], location)
  }

  lemma {:induction false} FindWithout<T>(list: seq<Use<T>>, gone: Location, location: Location)
    ensures Find(Without(list, gone), location) == if gone == location then None else Find(list, location)
  {
    if list != [] {
      var front, last := list[..|list| - 1], list[|list| - 1];
      FindWithout(front, gone, location);
      if last.location == gone {
        assert Without(front, gone) + [] == Without(front, gone);
      } else {
        FindLast(Without(front, gone), last, location);
      }
    }
  }

  lemma FindLast<T>(list: seq<Use<T>>, u: Use<T>, location: Location)
    ensures Find(list + [u], location) == if u.location == location then Some(u.node) else Find(list, location)
  {
    assert (list + [u])[..|list|] == list;
  }

  lemma {:induction false} FindSuffix<T>(list: seq<Use<T>>, n: nat, location: Location)
    requires n <= |list|
    ensures Find(list[n..], location).Some? ==> Find(list[n..], location) == Find(list, location)
    decreases |list|
  {
    if n < |list| {
      FindSuffix(list[..|list| - 1], n, location);
      assert list[n..][..|list| - n - 1] == list[..|list| - 1][n..];
    }
  }

  /** Over any run, a hit returns the node last put at its location. */
  lemma {:induction false} HitIsLastPut<T>(ops: seq<Op<T>>, capacity: nat, location: Location)
    ensures var hit := Find(After(ops, capacity), location);
            hit.Some? ==> hit == LastPut(ops, location)
  {
    hide Find, Without;
    if ops == [] {
      NothingFound<T>(location);
    } else {
      var list, op := After(ops[..|ops| - 1], capacity), ops[|ops| - 1];
      HitIsLastPut(ops[..|ops| - 1], capacity, location);
      FindWithout(list, op.location, location);
      match op {
        case GetOp(l) =>
          if Find(list, l).Some? { FindLast(Without(list, l), Use(l, Find(list, l).value), location); }
        case PutOp(l, node) =>
          var used := Used(list, l, node);
          FindLast(Without(list, l), Use(l, node), location);
          if |used| > capacity { FindSuffix(used, |used| - capacity, location); }
        case InvalidateOp(l) =>
      }
    }
  }

  lemma NothingFound<T>(location: Location)
    ensures Find<T>([], location) == None
  {
  }

  /** A node just put is found, if the cache holds anything. */
  lemma PutIsFound<T>(list: seq<Use<T>>, location: Location, node: T, capacity: nat)
    requires capacity > 0
    ensures Find(Bounded(Used(list, location, node), capacity), location) == Some(node)
  {
    var used := Used(list, location, node);
    var kept := Bounded(used, capacity);
    assert kept[|kept| - 1] == used[|used| - 1];
  }
}
