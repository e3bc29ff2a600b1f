/** Reading a tree: point lookups, the nearest key in four directions, and the
    first or last entry of a subtree. Every walk is bounded by MAX_TREE_DEPTH. */
module Walk {
  import opened Bytes
  import opened Entries
  import opened Pages
  import opened Shape
  import opened Graft
  import LeafEdit

  const MAX_TREE_DEPTH: nat := 64

  datatype SeekMode = SeekGe | SeekGt | SeekLe | SeekLt {
    predicate Forward() { SeekGe? || SeekGt? }
  }

  /** Is an entry under `k` an answer to a seek at `target`? */
  predicate Answers(mode: SeekMode, k: Bytes, target: Bytes) {
    match mode
    case SeekGe => !Lt(k, target)
    case SeekGt => Lt(target, k)
    case SeekLe => !Lt(target, k)
    case SeekLt => Lt(k, target)
  }

  /** `r` is the nearest answer among `s`, in the direction of the seek. */
  ghost predicate Nearest(s: seq<Entry>, target: Bytes, mode: SeekMode, r: Option<Entry>) {
    match r
    case None => forall e :: e in s ==> !Answers(mode, e.key, target)
    case Some(x) =>
      && x in s && Answers(mode, x.key, target)
      && forall e :: e in s && Answers(mode, e.key, target) ==>
           if mode.Forward() then !Lt(e.key, x.key) else !Lt(x.key, e.key)
  }

  ghost function Lookup(s: seq<Entry>, key: Bytes): Option<Bytes> {
    if key in AsMap(s) then Some(AsMap(s)[key]) else None
  }

  // ------------------------------------------------------------------
  // The descent path
  // ------------------------------------------------------------------

  /** One step of a descent: a branch page and the child slot taken. */
  type Path = seq<(nat, nat)>

  ghost predicate PathOK(P: Store, path: Path, h: nat) {
    && |path| <= h
    && forall i {:trigger path[i]} :: 0 <= i < |path| ==>
         WF(P, path[i].0, h - i) && path[i].1 < |P[path[i].0].kids|
  }

  /** Everything left of the path. */
  ghost function Before(P: Store, path: Path, h: nat): seq<Entry>
    requires PathOK(P, path, h)
  {
    if path == [] then [] else
      var (id, slot) := path[|path| - 1];
      Before(P, path[..|path| - 1], h) + FlatKids(P, P[id].kids[..slot], h - |path|)
  }

  /** Everything right of the path. */
  ghost function After(P: Store, path: Path, h: nat): seq<Entry>
    requires PathOK(P, path, h)
  {
    if path == [] then [] else
      var (id, slot) := path[|path| - 1];
      FlatKids(P, P[id].kids[slot + 1..], h - |path|) + After(P, path[..|path| - 1], h)
  }

  /** The path leads from the root to page `id`, with smaller keys left of it and
      larger keys right of it. */
  ghost predicate Leads(P: Store, root: nat, h: nat, path: Path, id: nat, key: Bytes) {
    && PathOK(P, path, h) && WF(P, id, h - |path|)
    && Flat(P, root, h) == Before(P, path, h) + Flat(P, id, h - |path|) + After(P, path, h)
    && Below(Before(P, path, h), key) && Above(After(P, path, h), key)
  }

  lemma StepDown(P: Store, root: nat, h: nat, path: Path, id: nat, key: Bytes, slot: nat)
    requires Leads(P, root, h, path, id, key) && |path| < h
    requires Routed(P[id].seps, key, slot)
    ensures slot < |P[id].kids| && Leads(P, root, h, path + [(id, slot)], P[id].kids[slot], key)
  {
    hide WF, Linked, Flat, FlatKids;
    var d := h - |path|;
    BranchFacts(P, id, d);
    var kids := P[id].kids;
    KidWF(P, kids, P[id].seps, d - 1, slot);
    Locate(P, kids, P[id].seps, d - 1, slot, key);
    FlatKidsAt(P, kids, d - 1, slot);
    var down := path + [(id, slot)];
    assert down[..|path|] == path;
    var a, b := FlatKids(P, kids[..slot], d - 1), FlatKids(P, kids[slot + 1..], d - 1);
    Sandwich(Before(P, path, h), a, Flat(P, kids[slot], d - 1), b, After(P, path, h), key);
  }

  lemma KidWF(P: Store, kids: seq<nat>, seps: seq<Bytes>, h: nat, slot: nat)
    requires Linked(P, kids, seps, h) && slot <= |seps|
    ensures slot < |kids| && WF(P, kids[slot], h) && Flat(P, kids[slot], h) != []
  {
  }

  lemma Sandwich(x: seq<Entry>, a: seq<Entry>, c: seq<Entry>, b: seq<Entry>, y: seq<Entry>, key: Bytes)
    requires Below(x, key) && Below(a, key) && Above(b, key) && Above(y, key)
    ensures x + (a + c + b) + y == (x + a) + c + (b + y)
    ensures Below(x + a, key) && Above(b + y, key)
  {
  }

  /** The leaf a key belongs in, and the way there. */
  method Descend(P: Store, root: nat, key: Bytes, ghost h: nat) returns (ok: bool, path: Path, leaf: nat)
    requires WF(P, root, h)
    ensures ok <==> h < MAX_TREE_DEPTH
    ensures ok ==> |path| == h && Leads(P, root, h, path, leaf, key)
  {
    hide Leads;
    path, leaf := [], root;
    LeadsRoot(P, root, h, key);
    while true
      invariant |path| <= h && |path| <= MAX_TREE_DEPTH && Leads(P, root, h, path, leaf, key)
      decreases h - |path|
    {
      LeadsKind(P, root, h, path, leaf, key);
      if |path| >= MAX_TREE_DEPTH { return false, path, leaf; }
      if P[leaf].Leaf? { return true, path, leaf; }
      var slot := Route(P[leaf].seps, key);
      StepDown(P, root, h, path, leaf, key, slot);
      path, leaf := path + [(leaf, slot)], P[leaf].kids[slot];
    }
  }

  lemma LeadsRoot(P: Store, root: nat, h: nat, key: Bytes)
    requires WF(P, root, h)
    ensures Leads(P, root, h, [], root, key)
  {
    assert [] + Flat(P, root, h) + [] == Flat(P, root, h);
  }

  lemma LeadsKind(P: Store, root: nat, h: nat, path: Path, id: nat, key: Bytes)
    requires Leads(P, root, h, path, id, key)
    ensures id in P && |path| <= h && if |path| == h then P[id].Leaf? && Sorted(P[id].entries) else P[id].Branch?
  {
  }

  /** The value stored under `key`, as the tree rooted at `root` has it. */
  method GetAt(P: Store, root: nat, key: Bytes, ghost h: nat) returns (ok: bool, value: Option<Bytes>)
    requires WF(P, root, h)
    ensures ok <==> h < MAX_TREE_DEPTH
    ensures ok ==> value == Lookup(Flat(P, root, h), key)
  {
    var path, leaf;
    ok, path, leaf := Descend(P, root, key, h);
    if !ok { return false, None; }
    var list := P[leaf].entries;
    var index, found := LeafSearch(list, key);
    WFSorted(P, root, h);
    LookupBetween(Before(P, path, h), list, After(P, path, h), key, index, found);
    return true, if found then Some(list[index].value) else None;
  }

  lemma LookupBetween(a: seq<Entry>, c: seq<Entry>, b: seq<Entry>, key: Bytes, index: nat, found: bool)
    requires Sorted(a + c + b) && Below(a, key) && Above(b, key) && index <= |c|
    requires found ==> index < |c| && c[index].key == key
    requires !found ==> Above(c[index..], key) && Below(c[..index], key)
    ensures Lookup(a + c + b, key) == if found then Some(c[index].value) else None
  {
    var s := a + c + b;
    if found {
      assert c[index] in s;
      AsMapExact(s);
    } else {
      assert c == c[..index] + c[index..];
      OrderLaws();
      AsMapKeys(s);
      assert Absent(s, key);
    }
  }

  // ------------------------------------------------------------------
  // The first or last entry of a subtree
  // ------------------------------------------------------------------

  /** A subtree that can be walked; unlike a well-formed one it may have empty leaves. */
  ghost predicate Walkable(P: Store, id: nat, h: nat)
    decreases h
  {
    && id in P
    && if h == 0 then P[id].Leaf?
       else P[id].Branch? && |P[id].kids| > 0 && forall i :: 0 <= i < |P[id].kids| ==> Walkable(P, P[id].kids[i], h - 1)
  }

  lemma {:induction false} WFWalkable(P: Store, id: nat, h: nat)
    requires WF(P, id, h)
    ensures Walkable(P, id, h)
    decreases h
  {
    if h > 0 {
      BranchFacts(P, id, h);
      forall i | 0 <= i < |P[id].kids| ensures Walkable(P, P[id].kids[i], h - 1) {
        KidWF(P, P[id].kids, P[id].seps, h - 1, i);
        WFWalkable(P, P[id].kids[i], h - 1);
      }
    }
  }

  ghost function Edge(s: seq<Entry>, first: bool): Option<Entry> {
    if s == [] then None else Some(if first then s[0] else s[|s| - 1])
  }

  lemma EdgeConcat(a: seq<Entry>, b: seq<Entry>)
    ensures Edge(a + b, true) == if a == [] then Edge(b, true) else Edge(a, true)
    ensures Edge(a + b, false) == if b == [] then Edge(a, false) else Edge(b, false)
  {
    if a == [] { assert a + b == b; }
    if b == [] { assert a + b == a; }
  }

  /** Children not yet tried by an edge walk. */
  function Untried(kids: seq<nat>, step: nat, first: bool): seq<nat>
    requires step <= |kids|
  {
    if first then kids[step..] else kids[..|kids| - step]
  }

  /** Trying one more child: its edge if it has one, else the edge of the rest. */
  lemma EdgeStep(P: Store, kids: seq<nat>, h: nat, step: nat, first: bool)
    requires step < |kids|
    ensures var slot := if first then step else |kids| - 1 - step;
      Edge(FlatKids(P, Untried(kids, step, first), h), first) ==
      if Flat(P, kids[slot], h) == [] then Edge(FlatKids(P, Untried(kids, step + 1, first), h), first)
      else Edge(Flat(P, kids[slot], h), first)
  {
    var n := |kids| - step;
    if first {
      assert kids[step..] == [kids[step]] + kids[step + 1..];
      FlatKidsConcat(P, [kids[step]], kids[step + 1..], h);
      FlatKidsOne(P, kids[step], h);
      EdgeConcat(Flat(P, kids[step], h), FlatKids(P, kids[step + 1..], h));
    } else {
      assert kids[..n] == kids[..n - 1] + [kids[n - 1]];
      FlatKidsConcat(P, kids[..n - 1], [kids[n - 1]], h);
      FlatKidsOne(P, kids[n - 1], h);
      EdgeConcat(FlatKids(P, kids[..n - 1], h), Flat(P, kids[n - 1], h));
    }
  }

  /** The first (or last) entry anywhere below page `id`, skipping empty pages. */
  method EdgeEntry(P: Store, id: nat, first: bool, depth: nat, ghost h: nat) returns (ok: bool, r: Option<Entry>)
    requires Walkable(P, id, h)
    ensures ok <==> depth + h < MAX_TREE_DEPTH
    ensures ok ==> r == Edge(Flat(P, id, h), first)
    decreases h
  {
    if depth >= MAX_TREE_DEPTH { return false, None; }
    match P[id] {
      case Leaf(list) =>
        return true, if |list| == 0 then None else Some(if first then list[0] else list[|list| - 1]);
      case Branch(kids, _) =>
        assert kids[0..] == kids && kids[..|kids|] == kids;
        var step := 0;
        while step < |kids|
          invariant 0 <= step <= |kids|
          invariant step > 0 ==> depth + h < MAX_TREE_DEPTH
          invariant Edge(FlatKids(P, kids, h - 1), first) == Edge(FlatKids(P, Untried(kids, step, first), h - 1), first)
        {
          var slot := if first then step else |kids| - 1 - step;
          ok, r := EdgeEntry(P, kids[slot], first, depth + 1, h - 1);
          if !ok { return; }
          EdgeStep(P, kids, h - 1, step, first);
          if r.Some? { return; }
          step := step + 1;
        }
        return true, None;
    }
  }

  // ------------------------------------------------------------------
  // Seek
  // ------------------------------------------------------------------

  /** Which entry of the leaf answers a seek, given where the key was searched to. */
  function Candidate(n: nat, index: nat, found: bool, mode: SeekMode): Option<nat> {
    if mode.Forward() then
      var start := if found && mode.SeekGt? then index + 1 else index;
      if start < n then Some(start) else None
    else if found && mode.SeekLe? then Some(index)
    else if index > 0 then Some(index - 1)
    else None
  }

  lemma CandidateNearest(a: seq<Entry>, c: seq<Entry>, b: seq<Entry>, key: Bytes, mode: SeekMode, index: nat,
                         found: bool)
    requires Sorted(a + c + b) && Below(a, key) && Above(b, key) && LeafEdit.Searched(c, key, index, found)
    requires Candidate(|c|, index, found, mode).Some?
    ensures Candidate(|c|, index, found, mode).value < |c|
    ensures Nearest(a + c + b, key, mode, Some(c[Candidate(|c|, index, found, mode).value]))
  {
    var s, k := a + c + b, Candidate(|c|, index, found, mode).value;
    var n := |a| + k;
    assert s[n] == c[k];
    LeafKeys(c, key, index, found);
    OrderLaws();
    forall e | e in s && Answers(mode, e.key, key)
      ensures if mode.Forward() then !Lt(e.key, c[k].key) else !Lt(c[k].key, e.key)
    {
      var i :| 0 <= i < |s| && s[i] == e;
      Side(a, c, b, key, i);
    }
  }

  lemma LeafKeys(c: seq<Entry>, key: Bytes, index: nat, found: bool)
    requires LeafEdit.Searched(c, key, index, found)
    ensures forall i :: 0 <= i < index ==> Lt(c[i].key, key)
    ensures forall i :: (if found then index + 1 else index) <= i < |c| ==> Lt(key, c[i].key)
  {
    forall i | 0 <= i < index ensures Lt(c[i].key, key) { assert c[i] == c[..index][i]; }
    var n := if found then index + 1 else index;
    forall i | n <= i < |c| ensures Lt(key, c[i].key) { assert c[i] == c[n..][i - n]; }
  }

  lemma Side(a: seq<Entry>, c: seq<Entry>, b: seq<Entry>, key: Bytes, i: nat)
    requires Below(a, key) && Above(b, key) && i < |a + c + b|
    ensures i < |a| ==> Lt((a + c + b)[i].key, key)
    ensures i >= |a| + |c| ==> Lt(key, (a + c + b)[i].key)
    ensures |a| <= i < |a| + |c| ==> (a + c + b)[i] == c[i - |a|]
  {
    if i < |a| { assert (a + c + b)[i] == a[i]; }
    else if i >= |a| + |c| { assert (a + c + b)[i] == b[i - |a| - |c|]; }
  }

  /** When the leaf has no answer, it is the nearest entry past the leaf. */
  lemma NoCandidate(a: seq<Entry>, c: seq<Entry>, b: seq<Entry>, key: Bytes, mode: SeekMode, index: nat, found: bool)
    requires Sorted(a + c + b) && Below(a, key) && Above(b, key) && LeafEdit.Searched(c, key, index, found)
    requires Candidate(|c|, index, found, mode).None?
    ensures Nearest(a + c + b, key, mode, if mode.Forward() then Edge(b, true) else Edge(a, false))
  {
    var s := a + c + b;
    LeafKeys(c, key, index, found);
    OrderLaws();
    forall e | e in s && Answers(mode, e.key, key)
      ensures if mode.Forward() then b != [] && !Lt(e.key, b[0].key) else a != [] && !Lt(a[|a| - 1].key, e.key)
    {
      var i :| 0 <= i < |s| && s[i] == e;
      Side(a, c, b, key, i);
      if mode.Forward() {
        assert i >= |a| + |c|;
        assert s[|a| + |c|] == b[0];
      } else {
        assert i < |a|;
        assert s[|a| - 1] == a[|a| - 1];
      }
    }
    if mode.Forward() && b != [] { assert b[0] in b; }
    if !mode.Forward() && a != [] { assert a[|a| - 1] in a; }
  }

  /** Climbing one level: the neighbouring child, when there is one, holds the edge
      of everything on that side of the path. */
  lemma ClimbRight(P: Store, path: Path, h: nat)
    requires PathOK(P, path, h) && path != []
    ensures var (id, slot) := path[|path| - 1];
      Edge(After(P, path, h), true) ==
         if slot + 1 < |P[id].kids| then Edge(Flat(P, P[id].kids[slot + 1], h - |path|), true)
             else Edge(After(P, path[..|path| - 1], h), true)
    ensures var (id, slot) := path[|path| - 1]; slot + 1 < |P[id].kids| ==>
                WF(P, P[id].kids[slot + 1], h - |path|) && Flat(P, P[id].kids[slot + 1], h - |path|) != []
  {
    hide WF, Linked, Flat, FlatKids;
    var (id, slot) := path[|path| - 1];
    var d := h - |path|;
    assert WF(P, id, d + 1);
    BranchFacts(P, id, d + 1);
    var kids := P[id].kids;
    var rest := After(P, path[..|path| - 1], h);
    if slot < |P[id].seps| {
      KidWF(P, kids, P[id].seps, d, slot + 1);
      EdgeStep(P, kids, d, slot + 1, true);
      EdgeConcat(FlatKids(P, kids[slot + 1..], d), rest);
    } else {
      NoFlat(P, kids[slot + 1..], d);
      EdgeConcat(FlatKids(P, kids[slot + 1..], d), rest);
    }
  }

  lemma ClimbLeft(P: Store, path: Path, h: nat)
    requires PathOK(P, path, h) && path != []
    ensures var (id, slot) := path[|path| - 1];
      Edge(Before(P, path, h), false) ==
         if slot > 0 then Edge(Flat(P, P[id].kids[slot - 1], h - |path|), false)
             else Edge(Before(P, path[..|path| - 1], h), false)
    ensures var (id, slot) := path[|path| - 1]; slot > 0 ==>
                WF(P, P[id].kids[slot - 1], h - |path|) && Flat(P, P[id].kids[slot - 1], h - |path|) != []
  {
    hide WF, Linked, Flat, FlatKids;
    var (id, slot) := path[|path| - 1];
    var d := h - |path|;
    assert WF(P, id, d + 1);
    BranchFacts(P, id, d + 1);
    var kids := P[id].kids;
    var rest := Before(P, path[..|path| - 1], h);
    EdgeConcat(rest, FlatKids(P, kids[..slot], d));
    if slot > 0 {
      KidWF(P, kids, P[id].seps, d, slot - 1);
      EdgeStep(P, kids, d, |kids| - slot, false);
    } else {
      NoFlat(P, kids[..slot], d);
    }
  }

  /** The entry nearest `key` in the requested direction. Only one neighbouring child
      is tried per level of the climb. */
  method SeekAt(P: Store, root: nat, key: Bytes, mode: SeekMode, ghost h: nat) returns (ok: bool, r: Option<Entry>)
    requires WF(P, root, h)
    ensures ok <==> h < MAX_TREE_DEPTH
    ensures ok ==> Nearest(Flat(P, root, h), key, mode, r)
  {
    var path, leaf;
    ok, path, leaf := Descend(P, root, key, h);
    if !ok { return false, None; }
    var list := P[leaf].entries;
    var index, found := LeafSearch(list, key);
    WFSorted(P, root, h);
    var candidate := Candidate(|list|, index, found, mode);
    ghost var a, b := Before(P, path, h), After(P, path, h);
    if candidate.Some? {
      CandidateNearest(a, list, b, key, mode, index, found);
      return true, Some(list[candidate.value]);
    }
    NoCandidate(a, list, b, key, mode, index, found);
    ok, r := Climb(P, path, mode.Forward(), h);
  }

  /** Walk back up the path for the neighbouring subtree in the direction of travel. */
  method Climb(P: Store, descent: Path, forward: bool, ghost h: nat) returns (ok: bool, r: Option<Entry>)
    requires PathOK(P, descent, h) && h < MAX_TREE_DEPTH
    ensures ok
    ensures r == if forward then Edge(After(P, descent, h), true) else Edge(Before(P, descent, h), false)
  {
    hide WF, Linked, Flat, FlatKids;
    var path := descent;
    while path != []
      invariant PathOK(P, path, h)
      invariant forward ==> Edge(After(P, path, h), true) == Edge(After(P, descent, h), true)
      invariant !forward ==> Edge(Before(P, path, h), false) == Edge(Before(P, descent, h), false)
      decreases |path|
    {
      var (branch, slot) := path[|path| - 1];
      BranchFacts(P, branch, h - |path| + 1);
      var page := P[branch];
      if forward { ClimbRight(P, path, h); } else { ClimbLeft(P, path, h); }
      if forward && slot < |page.seps| {
        WFWalkable(P, page.kids[slot + 1], h - |path|);
        ok, r := EdgeEntry(P, page.kids[slot + 1], true, 0, h - |path|);
        if !ok || r.Some? { return; }
      } else if !forward && slot > 0 {
        WFWalkable(P, page.kids[slot - 1], h - |path|);
        ok, r := EdgeEntry(P, page.kids[slot - 1], false, 0, h - |path|);
        if !ok || r.Some? { return; }
      }
      path := path[..|path| - 1];
    }
    return true, None;
  }
}
