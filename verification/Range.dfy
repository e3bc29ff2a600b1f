/** Range scans: every entry whose key starts with a prefix, forwards or backwards,
    resuming strictly past a cursor. */
module Range {
  import opened Bytes
  import opened Entries
  import opened Pages
  import opened Shape
  import opened Walk
  import opened Prefix

  ghost function Filter(s: seq<Entry>, f: Entry -> bool): seq<Entry> {
    if s == [] then [] else (if f(s[0]) then [s[0]] else []) + Filter(s[1..], f)
  }

  ghost function Both(f: Entry -> bool, g: Entry -> bool): Entry -> bool {
    (e: Entry) => f(e) && g(e)
  }

  ghost function Rev(s: seq<Entry>): seq<Entry> {
    if s == [] then [] else Rev(s[1..]) + [s[0]]
  }

  /** The leading run of entries that have the prefix. */
  ghost function Leading(s: seq<Entry>, prefix: Bytes): seq<Entry> {
    if s == [] || !HasPrefix(s[0].key, prefix) then [] else [s[0]] + Leading(s[1..], prefix)
  }

  /** Up to and including the first entry the visitor stops at. */
  ghost function Upto(s: seq<Entry>, visit: Entry -> bool): seq<Entry> {
    if s == [] then [] else [s[0]] + if visit(s[0]) then Upto(s[1..], visit) else []
  }

  /** Is `k` on the scan's side of where it starts? */
  predicate Past(k: Bytes, prefix: Bytes, cursor: Option<Bytes>, reverse: bool) {
    match cursor
    case Some(c) => if reverse then Lt(k, c) else Lt(c, k)
    case None =>
      if reverse then (Upper(prefix).Some? ==> Lt(k, Upper(prefix).value)) else !Lt(k, prefix)
  }

  ghost function IsPast(prefix: Bytes, cursor: Option<Bytes>, reverse: bool): Entry -> bool {
    (e: Entry) => Past(e.key, prefix, cursor, reverse)
  }

  ghost function IsWanted(prefix: Bytes, cursor: Option<Bytes>, reverse: bool): Entry -> bool {
    (e: Entry) => HasPrefix(e.key, prefix) &&
        (cursor.Some? ==> if reverse then Lt(e.key, cursor.value) else Lt(cursor.value, e.key))
  }

  /** What the scan comes across, in the order it does. */
  ghost function Candidates(s: seq<Entry>, prefix: Bytes, cursor: Option<Bytes>, reverse: bool): seq<Entry> {
    var side := Filter(s, IsPast(prefix, cursor, reverse));
    if reverse then Rev(side) else side
  }

  /** What a caller asks for: the entries with the prefix, strictly past the cursor. */
  ghost function Wanted(s: seq<Entry>, prefix: Bytes, cursor: Option<Bytes>, reverse: bool): seq<Entry> {
    var side := Filter(s, IsWanted(prefix, cursor, reverse));
    if reverse then Rev(side) else side
  }

  // ------------------------------------------------------------------
  // Filtering a sorted list by a threshold
  // ------------------------------------------------------------------

  lemma {:induction false} FilterAll(s: seq<Entry>, f: Entry -> bool)
    requires forall e :: e in s ==> f(e)
    ensures Filter(s, f) == s
  {
    if s != [] { Split(s); FilterAll(s[1..], f); }
  }

  lemma {:induction false} FilterNone(s: seq<Entry>, f: Entry -> bool)
    requires forall e :: e in s ==> !f(e)
    ensures Filter(s, f) == []
  {
    if s != [] { Split(s); FilterNone(s[1..], f); }
  }

  lemma ConcatAssoc(a: seq<Entry>, b: seq<Entry>, c: seq<Entry>)
    ensures a + (b + c) == (a + b) + c
  {
  }

  lemma {:induction false} FilterConcat(a: seq<Entry>, b: seq<Entry>, f: Entry -> bool)
    ensures Filter(a + b, f) == Filter(a, f) + Filter(b, f)
  {
    if a == [] {
      assert a + b == b;
    } else {
      assert (a + b)[1..] == a[1..] + b;
      FilterConcat(a[1..], b, f);
      var head := if f(a[0]) then [a[0]] else [];
      assert Filter(a + b, f) == head + Filter(a[1..] + b, f);
      ConcatAssoc(head, Filter(a[1..], f), Filter(b, f));
    }
  }

  lemma {:induction false} FilterSame(s: seq<Entry>, f: Entry -> bool, g: Entry -> bool)
    requires forall e :: e in s ==> f(e) == g(e)
    ensures Filter(s, f) == Filter(s, g)
  {
    if s != [] { Split(s); FilterSame(s[1..], f, g); }
  }

  lemma {:induction false} FilterMembers(s: seq<Entry>, f: Entry -> bool)
    ensures forall e :: e in Filter(s, f) <==> e in s && f(e)
  {
    if s != [] { Split(s); FilterMembers(s[1..], f); }
  }

  lemma {:induction false} FilterTwice(s: seq<Entry>, f: Entry -> bool, g: Entry -> bool)
    ensures Filter(Filter(s, f), g) == Filter(s, Both(f, g))
  {
    if s != [] {
      FilterTwice(s[1..], f, g);
      if f(s[0]) {
        assert Filter(s, f)[1..] == Filter(s[1..], f);
      } else {
        assert Filter(s, f) == Filter(s[1..], f);
      }
    }
  }

  lemma {:induction false} RevConcat(a: seq<Entry>, b: seq<Entry>)
    ensures Rev(a + b) == Rev(b) + Rev(a)
  {
    if a == [] {
      assert a + b == b && Rev(b) + [] == Rev(b);
    } else {
      assert (a + b)[1..] == a[1..] + b;
      RevConcat(a[1..], b);
    }
  }

  lemma RevLast(s: seq<Entry>, n: nat)
    requires 0 < n <= |s|
    ensures Rev(s[..n]) == [s[n - 1]] + Rev(s[..n - 1])
  {
    assert s[..n] == s[..n - 1] + [s[n - 1]];
    RevConcat(s[..n - 1], [s[n - 1]]);
    assert [s[n - 1]][1..] == [];
  }

  /** In a sorted list, the entries on the scan's side are one end of it. */
  lemma SideOf(s: seq<Entry>, prefix: Bytes, cursor: Option<Bytes>, reverse: bool) returns (n: nat)
    requires Sorted(s)
    ensures Divides(s, n, prefix, cursor, reverse)
    ensures Candidates(s, prefix, cursor, reverse) == Rest(s, n, reverse)
  {
    n := 0;
    while n < |s| && Past(s[n].key, prefix, cursor, reverse) == reverse
      invariant n <= |s|
      invariant forall i :: 0 <= i < n ==> Past(s[i].key, prefix, cursor, reverse) == reverse
    {
      n := n + 1;
    }
    forall i | n <= i < |s| ensures Past(s[i].key, prefix, cursor, reverse) != reverse {
      PastMonotone(s[n].key, s[i].key, prefix, cursor, reverse);
      if i != n { assert Lt(s[n].key, s[i].key); }
    }
    SideIsCandidates(s, prefix, cursor, reverse, n);
  }

  lemma SideIsCandidates(s: seq<Entry>, prefix: Bytes, cursor: Option<Bytes>, reverse: bool, n: nat)
    requires Divides(s, n, prefix, cursor, reverse)
    ensures Candidates(s, prefix, cursor, reverse) == Rest(s, n, reverse)
  {
    var f := IsPast(prefix, cursor, reverse);
    var a, b := s[..n], s[n..];
    assert forall e :: e in a ==> f(e) == reverse;
    forall e | e in b ensures f(e) != reverse {
      var i :| 0 <= i < |b| && b[i] == e;
      assert s[n + i] == e;
    }
    assert s == a + b;
    FilterConcat(a, b, f);
    if reverse {
      FilterAll(a, f);
      FilterNone(b, f);
      assert a + [] == a;
    } else {
      FilterNone(a, f);
      FilterAll(b, f);
      assert [] + b == b;
    }
  }

  lemma PastMonotone(a: Bytes, b: Bytes, prefix: Bytes, cursor: Option<Bytes>, reverse: bool)
    requires a == b || Lt(a, b)
    ensures !reverse && Past(a, prefix, cursor, reverse) ==> Past(b, prefix, cursor, reverse)
    ensures reverse && !Past(a, prefix, cursor, reverse) ==> !Past(b, prefix, cursor, reverse)
  {
    OrderLaws();
  }

  // ------------------------------------------------------------------
  // The scan
  // ------------------------------------------------------------------

  lemma SortedAt(s: seq<Entry>, i: nat, j: nat)
    requires Sorted(s) && i < |s| && j < |s|
    ensures i < j ==> Lt(s[i].key, s[j].key)
  {
  }

  /** What the seeks of a scan return: the next candidate. */
  lemma NearestIsNext(s: seq<Entry>, key: Bytes, mode: SeekMode, r: Option<Entry>, n: nat)
    requires Sorted(s) && Nearest(s, key, mode, r) && n <= |s|
    requires forall i :: 0 <= i < |s| ==> (Answers(mode, s[i].key, key) <==> if mode.Forward() then i >= n else i < n)
    ensures mode.Forward() ==> r == if n < |s| then Some(s[n]) else None
    ensures !mode.Forward() ==> r == if n > 0 then Some(s[n - 1]) else None
  {
    if r.Some? {
      var i :| 0 <= i < |s| && s[i] == r.value;
      if mode.Forward() { SortedAt(s, n, i); } else { SortedAt(s, i, n - 1); }
    }
    assert n < |s| ==> s[n] in s;
    assert n > 0 ==> s[n - 1] in s;
  }

  /** The candidates beyond position `n`. */
  ghost function Rest(s: seq<Entry>, n: nat, reverse: bool): seq<Entry>
    requires n <= |s|
  {
    if reverse then Rev(s[..n]) else s[n..]
  }

  /** Position `n` divides the list into what is past the cursor and what is not. */
  ghost predicate Divides(s: seq<Entry>, n: nat, prefix: Bytes, cursor: Option<Bytes>, reverse: bool) {
    && n <= |s|
    && forall i :: 0 <= i < |s| ==> (Past(s[i].key, prefix, cursor, reverse) <==> if reverse then i < n else i >= n)
  }

  /** The candidate next to position `n`. */
  ghost function Next(s: seq<Entry>, n: nat, reverse: bool): Option<Entry>
    requires n <= |s|
  {
    if reverse then (if n > 0 then Some(s[n - 1]) else None) else if n < |s| then Some(s[n]) else None
  }

  /** The entry the scan looks at next. */
  method NextEntry(P: Store, root: nat, prefix: Bytes, cursor: Option<Bytes>, reverse: bool, ghost h: nat, ghost n: nat)
    returns (ok: bool, r: Option<Entry>)
    requires WF(P, root, h) && Divides(Flat(P, root, h), n, prefix, cursor, reverse)
    ensures ok <==> h < MAX_TREE_DEPTH
    ensures ok ==> r == Next(Flat(P, root, h), n, reverse)
  {
    hide WF, Flat, Linked;
    ghost var s := Flat(P, root, h);
    WFSorted(P, root, h);
    if reverse {
      var bound := cursor;
      if cursor.None? { bound := PrefixUpperBound(prefix); }
      if bound.Some? {
        ok, r := SeekAt(P, root, bound.value, SeekLt, h);
        if ok { NearestIsNext(s, bound.value, SeekLt, r, n); }
      } else {
        WFWalkable(P, root, h);
        ok, r := EdgeEntry(P, root, false, 0, h);
      }
    } else {
      var target, mode := if cursor.Some? then cursor.value else prefix, if cursor.Some? then SeekGt else SeekGe;
      ok, r := SeekAt(P, root, target, mode, h);
      if ok { NearestIsNext(s, target, mode, r, n); }
    }
  }

  /** Visit the range: every entry the scan comes across while the prefix lasts, up to
      where the visitor stops it. */
  method RangeAt(P: Store, root: nat, prefix: Bytes, startAfter: Option<Bytes>, reverse: bool, visit: Entry -> bool,
                 ghost h: nat)
    returns (ok: bool, visited: seq<Entry>)
    requires WF(P, root, h)
    ensures ok <==> h < MAX_TREE_DEPTH
    ensures ok ==> visited == Upto(Leading(Candidates(Flat(P, root, h), prefix, startAfter, reverse), prefix), visit)
  {
    hide WF, Flat, Linked, Candidates, Divides, Leading, Upto, Rest, HasPrefix, Sorted;
    ghost var s := Flat(P, root, h);
    WFSorted(P, root, h);
    ghost var n: nat := SideOf(s, prefix, startAfter, reverse);
    ghost var all := Upto(Leading(Candidates(s, prefix, startAfter, reverse), prefix), visit);
    var cursor := startAfter;
    visited := [];
    while true
      invariant n <= |s| && Divides(s, n, prefix, cursor, reverse)
      invariant all == visited + Upto(Leading(Rest(s, n, reverse), prefix), visit)
      decreases if reverse then n else |s| - n
    {
      var entry;
      ok, entry := NextEntry(P, root, prefix, cursor, reverse, h, n);
      if !ok { return; }
      ScanStep(s, prefix, reverse, visit, n);
      if entry.None? || !HasPrefix(entry.value.key, prefix) { return; }
      ghost var before := visited;
      visited := visited + [entry.value];
      if !visit(entry.value) {
        assert visited == before + ([entry.value] + []);
        return;
      }
      cursor := Some(entry.value.key);
      n := if reverse then n - 1 else n + 1;
      PastEntry(s, prefix, reverse, n);
    }
  }

  lemma ScanStep(s: seq<Entry>, prefix: Bytes, reverse: bool, visit: Entry -> bool, n: nat)
    requires n <= |s|
    ensures var next := Next(s, n, reverse);
      Upto(Leading(Rest(s, n, reverse), prefix), visit) ==
      if next.None? || !HasPrefix(next.value.key, prefix) then []
      else
        var rest := Rest(s, if reverse then n - 1 else n + 1, reverse);
        [next.value] + if visit(next.value) then Upto(Leading(rest, prefix), visit) else []
  {
    if !reverse && n < |s| {
      assert s[n..][1..] == s[n + 1..];
      LeadingStep(s[n..], prefix, visit);
    }
    if reverse && n > 0 {
      RevLast(s, n);
      assert Rev(s[..n])[1..] == Rev(s[..n - 1]);
      LeadingStep(Rev(s[..n]), prefix, visit);
    }
  }

  lemma LeadingStep(c: seq<Entry>, prefix: Bytes, visit: Entry -> bool)
    requires c != []
    ensures Upto(Leading(c, prefix), visit) ==
      if !HasPrefix(c[0].key, prefix) then []
      else [c[0]] + if visit(c[0]) then Upto(Leading(c[1..], prefix), visit) else []
  {
    if HasPrefix(c[0].key, prefix) { assert Leading(c, prefix)[1..] == Leading(c[1..], prefix); }
  }

  /** Having visited the entry at position `n`, the candidates left are those beyond it. */
  lemma PastEntry(s: seq<Entry>, prefix: Bytes, reverse: bool, n: nat)
    requires Sorted(s) && n <= |s| && (if reverse then n < |s| else n > 0)
    ensures Divides(s, n, prefix, Some(s[if reverse then n else n - 1].key), reverse)
  {
    var j := if reverse then n else n - 1;
    forall i | 0 <= i < |s|
      ensures Past(s[i].key, prefix, Some(s[j].key), reverse) <==> if reverse then i < j else i > j
    {
      if i < j { assert Lt(s[i].key, s[j].key); LtAsym(s[i].key, s[j].key); }
      else if j < i { assert Lt(s[j].key, s[i].key); LtAsym(s[j].key, s[i].key); }
      else { LtIrreflexive(s[i].key); }
    }
  }

  lemma LtAsym(a: Bytes, b: Bytes)
    requires Lt(a, b)
    ensures !Lt(b, a)
  {
    OrderLaws();
  }

  // ------------------------------------------------------------------
  // When the scan is exactly what was asked for
  // ------------------------------------------------------------------

  /** The first key past `c` that is short enough to be stored. */
  function NextStored(c: Bytes): Option<Bytes> {
    if |c| < MAX_KEY_LEN then Some(c + [0]) else Upper(c[..MAX_KEY_LEN])
  }

  /** Some stored key can have the prefix, and one can lie between the cursor and those. */
  predicate CursorShort(prefix: Bytes, c: Bytes, reverse: bool) {
    && |prefix| <= MAX_KEY_LEN
    && if reverse then Upper(prefix).Some? && Lt(Upper(prefix).value, c)
       else NextStored(c).Some? && Lt(NextStored(c).value, prefix)
  }

  /** The cursor does not lie short of the prefix range. */
  predicate CursorOK(prefix: Bytes, cursor: Option<Bytes>, reverse: bool) {
    cursor.Some? ==> !CursorShort(prefix, cursor.value, reverse)
  }

  /** Keys no longer than a tree stores. */
  predicate ShortKeys(s: seq<Entry>) { forall i :: 0 <= i < |s| ==> |s[i].key| <= MAX_KEY_LEN }

  /** Entries a put accepts. */
  predicate Storable(s: seq<Entry>) {
    forall i :: 0 <= i < |s| ==> 1 <= |s[i].key| <= MAX_KEY_LEN && |s[i].value| <= MAX_VALUE_LEN
  }

  lemma StoredNext(k: Bytes, c: Bytes)
    requires |k| <= MAX_KEY_LEN
    ensures Lt(c, k) <==> NextStored(c).Some? && !Lt(k, NextStored(c).value)
  {
    if |c| < MAX_KEY_LEN {
      NextKey(k, c);
    } else {
      var q, a := c[..MAX_KEY_LEN], c[MAX_KEY_LEN..];
      assert c == q + a;
      UpperBounds(k, q);
      UpperBounds(q, q);
      if HasPrefix(k, q) {
        assert k == q;
        LtAppend(q, a, []);
        assert q + [] == q;
      } else {
        LtOffPrefix(k, q, a);
        LtTotal(k, c);
        LtTotal(k, q);
        OrderLaws();
      }
    }
  }

  ghost function InPrefix(prefix: Bytes): Entry -> bool { (e: Entry) => HasPrefix(e.key, prefix) }

  lemma {:induction false} LeadingIsFilter(c: seq<Entry>, prefix: Bytes)
    requires forall i, j :: 0 <= i < j < |c| && !HasPrefix(c[i].key, prefix) ==> !HasPrefix(c[j].key, prefix)
    ensures Leading(c, prefix) == Filter(c, InPrefix(prefix))
  {
    if c != [] {
      if HasPrefix(c[0].key, prefix) {
        LeadingIsFilter(c[1..], prefix);
      } else {
        forall e | e in c ensures !InPrefix(prefix)(e) {
          var j :| 0 <= j < |c| && c[j] == e;
        }
        FilterNone(c, InPrefix(prefix));
      }
    }
  }

  lemma {:induction false} FilterRev(s: seq<Entry>, f: Entry -> bool)
    ensures Filter(Rev(s), f) == Rev(Filter(s, f))
  {
    if s != [] {
      FilterRev(s[1..], f);
      FilterConcat(Rev(s[1..]), [s[0]], f);
      var head := if f(s[0]) then [s[0]] else [];
      assert [s[0]][1..] == [];
      assert Filter([s[0]], f) == head;
      RevConcat(head, Filter(s[1..], f));
      assert Rev(head) == head;
    }
  }

  lemma WantedIsFiltered(s: seq<Entry>, prefix: Bytes, cursor: Option<Bytes>, reverse: bool)
    ensures Wanted(s, prefix, cursor, reverse) == Filter(Candidates(s, prefix, cursor, reverse), InPrefix(prefix))
  {
    var past, has := IsPast(prefix, cursor, reverse), InPrefix(prefix);
    FilterTwice(s, past, has);
    forall e | e in s ensures Both(past, has)(e) == IsWanted(prefix, cursor, reverse)(e) {
      UpperBounds(e.key, prefix);
    }
    FilterSame(s, Both(past, has), IsWanted(prefix, cursor, reverse));
    FilterRev(Filter(s, past), has);
  }

  /** From a cursor that is not short of the range, the scan shows exactly the entries
      with the prefix that lie strictly past it, in order. */
  lemma RangeExact(s: seq<Entry>, prefix: Bytes, cursor: Option<Bytes>, reverse: bool)
    requires Sorted(s) && ShortKeys(s) && CursorOK(prefix, cursor, reverse)
    ensures Leading(Candidates(s, prefix, cursor, reverse), prefix) == Wanted(s, prefix, cursor, reverse)
  {
    hide CursorOK, Past;
    var c := Candidates(s, prefix, cursor, reverse);
    var n := SideOf(s, prefix, cursor, reverse);
    forall i, j | 0 <= i < j < |c| && !HasPrefix(c[i].key, prefix) ensures !HasPrefix(c[j].key, prefix) {
      if reverse {
        RevAt(s[..n], i);
        RevAt(s[..n], j);
        BeyondStays(c[j].key, c[i].key, prefix, cursor, reverse);
      } else {
        assert c[i] == s[n + i] && c[j] == s[n + j];
        BeyondStays(c[i].key, c[j].key, prefix, cursor, reverse);
      }
    }
    LeadingIsFilter(c, prefix);
    WantedIsFiltered(s, prefix, cursor, reverse);
  }

  lemma {:induction false} RevAt(s: seq<Entry>, i: nat)
    requires i < |Rev(s)|
    ensures |Rev(s)| == |s| && Rev(s)[i] == s[|s| - 1 - i]
  {
    if s != [] {
      if i < |Rev(s[1..])| { RevAt(s[1..], i); } else if s[1..] != [] { RevSize(s[1..]); }
    }
  }

  lemma {:induction false} RevSize(s: seq<Entry>)
    ensures |Rev(s)| == |s|
  {
    if s != [] { RevSize(s[1..]); }
  }

  /** Once a scan has left the prefix range it does not come back. */
  lemma BeyondStays(a: Bytes, b: Bytes, prefix: Bytes, cursor: Option<Bytes>, reverse: bool)
    requires Lt(a, b) && |a| <= MAX_KEY_LEN && |b| <= MAX_KEY_LEN && CursorOK(prefix, cursor, reverse)
    requires Past(a, prefix, cursor, reverse) && Past(b, prefix, cursor, reverse)
    ensures !reverse && !HasPrefix(a, prefix) ==> !HasPrefix(b, prefix)
    ensures reverse && !HasPrefix(b, prefix) ==> !HasPrefix(a, prefix)
  {
    UpperBounds(a, prefix);
    UpperBounds(b, prefix);
    if cursor.Some? {
      StoredNext(a, cursor.value);
      StoredNext(b, cursor.value);
    }
    OrderLaws();
  }

  /** From any other cursor there are entries a tree can store of which the scan misses one. */
  lemma RangeMisses(prefix: Bytes, cursor: Bytes, reverse: bool) returns (s: seq<Entry>)
    requires CursorShort(prefix, cursor, reverse)
    ensures s == Gap(prefix, cursor, reverse) && Sorted(s) && Storable(s)
    ensures Leading(Candidates(s, prefix, Some(cursor), reverse), prefix) == []
    ensures Wanted(s, prefix, Some(cursor), reverse) != []
  {
    hide Candidates, Wanted, Leading, Lt;
    s := Gap(prefix, cursor, reverse);
    GapOrder(prefix, cursor, reverse);
    GapMissed(s, prefix, cursor, reverse);
  }

  /** A key on the way from the cursor to the prefix range, and the prefix itself. */
  function Gap(prefix: Bytes, cursor: Bytes, reverse: bool): seq<Entry>
    requires CursorShort(prefix, cursor, reverse)
  {
    if reverse then [Entry(prefix, []), Entry(Upper(prefix).value, [])]
    else [Entry(NextStored(cursor).value, []), Entry(prefix, [])]
  }

  lemma {:induction false} UpperLength(prefix: Bytes)
    ensures Upper(prefix).Some? ==> 0 < |Upper(prefix).value| <= |prefix|
  {
    if prefix != [] { UpperLength(prefix[..|prefix| - 1]); }
  }

  lemma GapOrder(prefix: Bytes, cursor: Bytes, reverse: bool)
    requires CursorShort(prefix, cursor, reverse)
    ensures var s := Gap(prefix, cursor, reverse);
            && Sorted(s) && Storable(s)
            && Past(s[0].key, prefix, Some(cursor), reverse) && Past(s[1].key, prefix, Some(cursor), reverse)
            && HasPrefix(prefix, prefix) && !HasPrefix(s[if reverse then 1 else 0].key, prefix)
  {
    UpperBounds(prefix, prefix);
    UpperLength(prefix);
    if reverse {
      var y := Upper(prefix).value;
      UpperBounds(y, prefix);
      LtIrreflexive(y);
      LtTransitive(prefix, y, cursor);
    } else {
      var y := NextStored(cursor).value;
      if |cursor| >= MAX_KEY_LEN { UpperLength(cursor[..MAX_KEY_LEN]); }
      UpperBounds(y, prefix);
      StoredNext(y, cursor);
      LtIrreflexive(y);
      LtTransitive(cursor, y, prefix);
    }
  }

  lemma GapMissed(s: seq<Entry>, prefix: Bytes, cursor: Bytes, reverse: bool)
    requires CursorShort(prefix, cursor, reverse) && s == Gap(prefix, cursor, reverse) && Sorted(s)
    requires Past(s[0].key, prefix, Some(cursor), reverse) && Past(s[1].key, prefix, Some(cursor), reverse)
    requires HasPrefix(prefix, prefix) && !HasPrefix(s[if reverse then 1 else 0].key, prefix)
    ensures Leading(Candidates(s, prefix, Some(cursor), reverse), prefix) == []
    ensures Wanted(s, prefix, Some(cursor), reverse) != []
  {
    hide Past, HasPrefix, CursorShort;
    var x := s[if reverse then 0 else 1];
    var n := SideOf(s, prefix, Some(cursor), reverse);
    var c := Candidates(s, prefix, Some(cursor), reverse);
    assert s[..2] == s && s[0..] == s;
    assert c[0] == s[if reverse then 1 else 0] by { if reverse { RevAt(s, 0); } }
    assert Leading(c, prefix) == [];
    WantedIsFiltered(s, prefix, Some(cursor), reverse);
    FilterMembers(c, InPrefix(prefix));
    assert x in c by { if reverse { RevAt(s, 1); assert c[1] == x; } else { assert c[1] == x; } }
  }

  /** So the cursor condition is exact over what trees can store. */
  lemma CursorCondition(prefix: Bytes, cursor: Option<Bytes>, reverse: bool)
    ensures CursorOK(prefix, cursor, reverse) <==>
      forall s :: Sorted(s) && Storable(s) ==>
          Leading(Candidates(s, prefix, cursor, reverse), prefix) == Wanted(s, prefix, cursor, reverse)
  {
    hide Candidates, Wanted, Leading, CursorShort;
    if CursorOK(prefix, cursor, reverse) {
      forall s | Sorted(s) && Storable(s)
        ensures Leading(Candidates(s, prefix, cursor, reverse), prefix) == Wanted(s, prefix, cursor, reverse)
      {
        RangeExact(s, prefix, cursor, reverse);
      }
    } else {
      var s := RangeMisses(prefix, cursor.value, reverse);
    }
  }
}
