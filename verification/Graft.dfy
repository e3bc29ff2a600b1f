/** How one level of an insert or a removal turns what happened below it into a
    well-formed subtree of its own. */
module Graft {
  import opened Bytes
  import opened Entries
  import opened Pages
  import opened Shape
  import opened Splice
  import opened Alloc
  import opened TreeLoad

  /** Children and separators ready to be put in place of branch `id`'s own. */
  ghost predicate Ready(s: State, t: State, id: nat, h: nat, kids: seq<nat>, seps: seq<Bytes>, base: set<nat>)
    requires h > 0
  {
    && Grown(s, t, Reach(s.mem, id, h))
    && Linked(t.mem, kids, seps, h - 1)
    && Owned(t, ReachKids(t.mem, kids, h - 1), base)
    && id !in ReachKids(t.mem, kids, h - 1)
    && (forall p :: p in ReachKids(t.mem, kids, h - 1) ==> p in Reach(s.mem, id, h) || p in t.dirty - s.dirty)
    && LightBranch(s.mem, id, h, t.mem, kids, |seps|)
  }

  lemma ReadyFacts(s: State, t: State, id: nat, h: nat, kids: seq<nat>, seps: seq<Bytes>, base: set<nat>)
    requires h > 0 && Ready(s, t, id, h, kids, seps, base)
    ensures id !in ReachKids(t.mem, kids, h - 1)
  {
  }

  /** Page `id` was not touched by what happened below it. */
  ghost predicate Untouched(s: State, t: State, id: nat) {
    && InUse(t, id) && !Freed(t, id) && id in s.mem && id in t.mem && t.mem[id] == s.mem[id]
    && (id in t.dirty <==> id in s.dirty)
  }

  lemma SiblingsKept(s: State, t: State, id: nat, h: nat, slot: nat, base: set<nat>)
    requires h > 0 && WF(s.mem, id, h) && slot < |s.mem[id].kids|
    requires Owned(s, Reach(s.mem, id, h), base)
    requires Grown(s, t, Reach(s.mem, s.mem[id].kids[slot], h - 1))
    ensures Agree(s.mem, t.mem, Siblings(s.mem, s.mem[id].kids, h - 1, slot))
    ensures Owned(t, Siblings(s.mem, s.mem[id].kids, h - 1, slot), base)
    ensures Grown(s, t, Reach(s.mem, id, h))
    ensures Untouched(s, t, id)
  {
    hide WF, Linked, Flat, FlatKids, Reach, ReachKids;
    BranchFacts(s.mem, id, h);
    var kids, child := s.mem[id].kids, s.mem[id].kids[slot];
    var scope := Reach(s.mem, child, h - 1);
    var sib := Siblings(s.mem, kids, h - 1, slot);
    LinkedFacts(s.mem, kids, s.mem[id].seps, h - 1);
    SiblingsDisjoint(s.mem, kids, h - 1, slot);
    KidsWithin(s.mem, id, h);
    SelfReach(s.mem, id, h);
    ReachClosed(s.mem, id, h);
    GrownAgree(s, t, scope, sib + {id});
    OwnedKept(s, t, scope, sib, base);
    OwnedKept(s, t, scope, {id}, base);
    GrownRefl(t, {});
    GrownTrans(s, t, t, scope, {}, Reach(s.mem, id, h));
  }

  lemma OwnedKept(s: State, t: State, scope: set<nat>, pages: set<nat>, base: set<nat>)
    requires Grown(s, t, scope) && Owned(s, pages, base) && pages !! scope
    ensures Owned(t, pages, base)
  {
    forall p | p in pages ensures !Freed(t, p) {
      assert InUse(s, p) && !Freed(s, p);
      forall e | e in t.free ensures e.page != p {
        if e in s.free { assert Freed(s, e.page); }
      }
    }
  }

  /** An edit of the child at `slot` gives the branch a new, ready list of children. */
  lemma Regraft(s: State, t: State, id: nat, h: nat, slot: nat, ks: seq<nat>, ss: seq<Bytes>, base: set<nat>)
    requires h > 0 && WF(s.mem, id, h) && slot < |s.mem[id].kids|
    requires Owned(s, Reach(s.mem, id, h), base)
    requires Grafted(s, t, s.mem[id].kids[slot], h - 1, ks, ss, base)
    requires slot <= |s.mem[id].seps| && InRange(FlatKids(t.mem, ks, h - 1), s.mem[id].seps, slot)
    ensures Ready(s, t, id, h, SpliceKids(s.mem[id].kids, slot, ks), SpliceSeps(s.mem[id].seps, slot, ss), base)
    ensures FlatKids(t.mem, SpliceKids(s.mem[id].kids, slot, ks), h - 1)
      == FlatKids(s.mem, s.mem[id].kids[..slot], h - 1) + FlatKids(t.mem, ks, h - 1) +
          FlatKids(s.mem, s.mem[id].kids[slot + 1..], h - 1)
    ensures Untouched(s, t, id)
  {
    hide WF, Linked, Flat, FlatKids, Reach, ReachKids, Light, LightBranch;
    BranchFacts(s.mem, id, h);
    var kids, seps := s.mem[id].kids, s.mem[id].seps;
    var sib := Siblings(s.mem, kids, h - 1, slot);
    SiblingsKept(s, t, id, h, slot, base);
    LightSplice(s.mem, t.mem, id, h, slot, ks, ss);
    NewApart(s, t, id, h, slot, ks, ss, base);
    Splice.Splice(s.mem, t.mem, kids, seps, h - 1, slot, ks, ss);
    assert sib + ReachKids(t.mem, ks, h - 1) == ReachKids(t.mem, SpliceKids(kids, slot, ks), h - 1);
  }

  lemma NewApart(s: State, t: State, id: nat, h: nat, slot: nat, ks: seq<nat>, ss: seq<Bytes>, base: set<nat>)
    requires h > 0 && WF(s.mem, id, h) && slot < |s.mem[id].kids|
    requires Owned(s, Reach(s.mem, id, h), base)
    requires Grafted(s, t, s.mem[id].kids[slot], h - 1, ks, ss, base)
    ensures Siblings(s.mem, s.mem[id].kids, h - 1, slot) !! ReachKids(t.mem, ks, h - 1)
    ensures id !in Siblings(s.mem, s.mem[id].kids, h - 1, slot) + ReachKids(t.mem, ks, h - 1)
    ensures var below := Siblings(s.mem, s.mem[id].kids, h - 1, slot) + Reach(s.mem, s.mem[id].kids[slot], h - 1);
            forall p :: p in below ==> p in Reach(s.mem, id, h)
  {
    var kids := s.mem[id].kids;
    SiblingsDisjoint(s.mem, kids, h - 1, slot);
    assert forall p :: p in ReachKids(s.mem, kids, h - 1) ==> p in Reach(s.mem, id, h) && p != id;
    assert id in Reach(s.mem, id, h);
  }

  // ------------------------------------------------------------------
  // Writing the pages of a level
  // ------------------------------------------------------------------

  lemma PlaceBranch(P: Store, Q: Store, nid: nat, kids: seq<nat>, seps: seq<Bytes>, h: nat)
    requires h > 0 && Linked(P, kids, seps, h - 1) && Fits(BranchLens(seps))
    requires nid >= FIRST_DATA_PAGE && nid !in ReachKids(P, kids, h - 1)
    requires nid in Q && Q[nid] == Branch(kids, seps) && Agree(P, Q, ReachKids(P, kids, h - 1))
    ensures WF(Q, nid, h)
    ensures Flat(Q, nid, h) == FlatKids(P, kids, h - 1) && Flat(Q, nid, h) != []
    ensures Reach(Q, nid, h) == {nid} + ReachKids(P, kids, h - 1)
  {
    hide Linked, Flat, FlatKids, Reach, ReachKids;
    FrameKids(P, Q, kids, seps, h - 1);
    FlatNonEmpty(P, kids, seps, h - 1);
    BranchTree(Q, nid, kids, seps, h);
  }

  lemma BranchTree(Q: Store, nid: nat, kids: seq<nat>, seps: seq<Bytes>, h: nat)
    requires h > 0 && nid >= FIRST_DATA_PAGE && nid in Q && Q[nid] == Branch(kids, seps)
    ensures Flat(Q, nid, h) == FlatKids(Q, kids, h - 1) && Reach(Q, nid, h) == {nid} + ReachKids(Q, kids, h - 1)
  {
  }

  lemma FlatNonEmpty(P: Store, kids: seq<nat>, seps: seq<Bytes>, h: nat)
    requires Linked(P, kids, seps, h)
    ensures FlatKids(P, kids, h) != []
  {
    FlatKidsAt(P, kids, h, 0);
  }

  lemma LinkedOne(P: Store, id: nat, h: nat)
    requires WF(P, id, h) && Flat(P, id, h) != []
    ensures Linked(P, [id], [], h)
    ensures FlatKids(P, [id], h) == Flat(P, id, h)
    ensures ReachKids(P, [id], h) == Reach(P, id, h)
  {
    FlatKidsOne(P, id, h);
    ReachKidsOne(P, id, h);
    assert [id][0] == id;
  }

  lemma LinkedOnly(P: Store, id: nat, h: nat)
    requires Linked(P, [id], [], h)
    ensures WF(P, id, h)
    ensures Flat(P, id, h) == FlatKids(P, [id], h) && Reach(P, id, h) == ReachKids(P, [id], h)
  {
    assert [id][0] == id;
    FlatKidsOne(P, id, h);
    ReachKidsOne(P, id, h);
  }

  lemma LinkedTwo(P: Store, a: nat, sep: Bytes, b: nat, h: nat)
    requires WF(P, a, h) && Flat(P, a, h) != [] && WF(P, b, h) && Flat(P, b, h) != []
    requires |sep| <= MAX_KEY_LEN && Below(Flat(P, a, h), sep) && From(Flat(P, b, h), sep)
    requires Reach(P, a, h) !! Reach(P, b, h)
    ensures Linked(P, [a, b], [sep], h)
    ensures FlatKids(P, [a, b], h) == Flat(P, a, h) + Flat(P, b, h)
    ensures ReachKids(P, [a, b], h) == Reach(P, a, h) + Reach(P, b, h)
  {
    hide Linked, WF, Flat, FlatKids, Reach, ReachKids;
    LinkedOne(P, a, h);
    LinkedOne(P, b, h);
    JoinRuns(P, [a], [], sep, [b], [], h);
    assert [a] + [b] == [a, b] && [] + [sep] + [] == [sep];
  }

  /** A page put in place of `id`: `id` itself when it was already a copy, else a new one. */
  ghost predicate Home(s: State, t: State, id: nat, nid: nat) {
    && nid in t.dirty && !Freed(t, nid)
    && (nid == id || nid in t.dirty - s.dirty)
  }

  /** One rewritten branch takes over from `id`. */
  lemma GraftOne(s: State, t: State, u: State, id: nat, h: nat, kids: seq<nat>, seps: seq<Bytes>, nid: nat,
                 scope: set<nat>, base: set<nat>)
    requires h > 0 && WF(s.mem, id, h) && Ready(s, t, id, h, kids, seps, base)
    requires Grown(t, u, scope) && Home(t, u, id, nid) && Fits(BranchLens(seps))
    requires Spent(s, t, id, h, scope) && scope !! ReachKids(t.mem, kids, h - 1)
    requires u.mem == t.mem[nid := Branch(kids, seps)]
    ensures Grafted(s, u, id, h, [nid], [], base)
    ensures FlatKids(u.mem, [nid], h) == FlatKids(t.mem, kids, h - 1)
  {
    hide Linked, WF, Flat, FlatKids, ReachKids, Light, LightBranch;
    var below := ReachKids(t.mem, kids, h - 1);
    KidsExist(t.mem, kids, seps, h - 1);
    LightOne(s.mem, id, h, t.mem, kids, seps, u.mem, nid);
    SelfReach(s.mem, id, h);
    PlaceBranch(t.mem, u.mem, nid, kids, seps, h);
    LinkedOne(u.mem, nid, h);
    GraftGrown(s, t, u, id, h, below, scope, base);
  }

  /** Pages of the old subtree, or taken since, that the new one has no use for. */
  ghost predicate Spent(s: State, t: State, id: nat, h: nat, scope: set<nat>) {
    forall p :: p in scope ==> p in Reach(s.mem, id, h) || p in t.dirty - s.dirty
  }

  lemma KidsWithin(P: Store, id: nat, h: nat)
    requires h > 0 && WF(P, id, h)
    ensures ReachKids(P, P[id].kids, h - 1) <= Reach(P, id, h) && id !in ReachKids(P, P[id].kids, h - 1)
  {
  }

  lemma SelfReach(P: Store, id: nat, h: nat)
    ensures id in Reach(P, id, h)
  {
  }

  lemma GraftGrown(s: State, t: State, u: State, id: nat, h: nat, below: set<nat>, scope: set<nat>, base: set<nat>)
    requires Grown(s, t, Reach(s.mem, id, h)) && Grown(t, u, scope)
    requires Owned(t, below, base) && scope !! below && Spent(s, t, id, h, scope)
    ensures Grown(s, u, Reach(s.mem, id, h)) && Owned(u, below, base)
  {
    GrownTrans(s, t, u, Reach(s.mem, id, h), scope, Reach(s.mem, id, h));
    OwnedKept(t, u, scope, below, base);
  }

  /** Two branches, split at separator `point`, take over from `id`. */
  lemma GraftTwo(s: State, t: State, u: State, id: nat, h: nat, kids: seq<nat>, seps: seq<Bytes>, point: nat, nid: nat,
                 rid: nat, base: set<nat>)
    requires h > 0 && WF(s.mem, id, h) && Ready(s, t, id, h, kids, seps, base)
    requires Grown(t, u, {id}) && Home(t, u, id, nid) && Home(t, u, id, rid) && nid != rid && rid != id
    requires 0 < point && point + 1 < |seps| && Fits(BranchLens(seps[..point])) && Fits(BranchLens(seps[point + 1..]))
    requires u.mem == t.mem[nid := Branch(kids[..point + 1], seps[..point])]
                           [rid := Branch(kids[point + 1..], seps[point + 1..])]
    ensures Grafted(s, u, id, h, [nid, rid], [seps[point]], base)
    ensures FlatKids(u.mem, [nid, rid], h) == FlatKids(t.mem, kids, h - 1)
  {
    hide Linked, WF, Flat, FlatKids, ReachKids, Light, LightBranch;
    var below := ReachKids(t.mem, kids, h - 1);
    KidsExist(t.mem, kids, seps, h - 1);
    SelfReach(s.mem, id, h);
    LinkedFacts(t.mem, kids, seps, h - 1);
    LightTwo(s.mem, id, h, t.mem, kids, seps, u.mem, point, nid, rid);
    TwoBranches(t.mem, u.mem, kids, seps, h, point, nid, rid);
    GraftGrown(s, t, u, id, h, below, {id}, base);
  }

  lemma TwoBranches(P: Store, Q: Store, kids: seq<nat>, seps: seq<Bytes>, h: nat, point: nat, nid: nat, rid: nat)
    requires h > 0 && Linked(P, kids, seps, h - 1) && point < |seps|
    requires Fits(BranchLens(seps[..point])) && Fits(BranchLens(seps[point + 1..]))
    requires nid != rid && nid >= FIRST_DATA_PAGE && rid >= FIRST_DATA_PAGE
    requires nid !in ReachKids(P, kids, h - 1) && rid !in ReachKids(P, kids, h - 1)
    requires nid in Q && Q[nid] == Branch(kids[..point + 1], seps[..point])
    requires rid in Q && Q[rid] == Branch(kids[point + 1..], seps[point + 1..])
    requires Agree(P, Q, ReachKids(P, kids, h - 1))
    ensures Linked(Q, [nid, rid], [seps[point]], h)
    ensures FlatKids(Q, [nid, rid], h) == FlatKids(P, kids, h - 1)
    ensures ReachKids(Q, [nid, rid], h) == {nid, rid} + ReachKids(P, kids, h - 1)
  {
    hide Linked, WF, Flat, FlatKids, Reach, ReachKids;
    LinkedFacts(P, kids, seps, h - 1);
    CutApart(P, kids, h - 1, point + 1);
    LinkedHead(P, kids, seps, h - 1, point);
    LinkedTail(P, kids, seps, h - 1, point + 1);
    PlaceBranch(P, Q, nid, kids[..point + 1], seps[..point], h);
    PlaceBranch(P, Q, rid, kids[point + 1..], seps[point + 1..], h);
    HeadBelow(P, kids, seps, h - 1, point + 1);
    TailFrom(P, kids, seps, h - 1, point + 1);
    CutFlat(P, kids, h - 1, point + 1);
    LinkedTwo(Q, nid, seps[point], rid, h);
  }

  lemma CutFlat(P: Store, kids: seq<nat>, h: nat, n: nat)
    requires n <= |kids|
    ensures FlatKids(P, kids, h) == FlatKids(P, kids[..n], h) + FlatKids(P, kids[n..], h)
  {
    assert kids == kids[..n] + kids[n..];
    FlatKidsConcat(P, kids[..n], kids[n..], h);
  }

  lemma KidsExist(P: Store, kids: seq<nat>, seps: seq<Bytes>, h: nat)
    requires Linked(P, kids, seps, h)
    ensures forall p :: p in ReachKids(P, kids, h) ==> p in P && p >= FIRST_DATA_PAGE
  {
    forall p | p in ReachKids(P, kids, h) ensures p in P && p >= FIRST_DATA_PAGE {
      var i :| 0 <= i < |kids| && p in Reach(P, kids[i], h);
      ReachClosed(P, kids[i], h);
    }
  }

  // ------------------------------------------------------------------
  // Leaves
  // ------------------------------------------------------------------

  lemma LeafTree(P: Store, id: nat, entries: seq<Entry>)
    requires id in P && id >= FIRST_DATA_PAGE && P[id] == Leaf(entries) && LeafOK(entries)
    ensures WF(P, id, 0) && Flat(P, id, 0) == entries && Reach(P, id, 0) == {id}
  {
  }

  /** One rewritten leaf takes over from `id`. */
  lemma GraftLeaf(s: State, u: State, id: nat, nid: nat, entries: seq<Entry>, base: set<nat>)
    requires Grown(s, u, {id}) && Home(s, u, id, nid)
    requires u.mem == s.mem[nid := Leaf(entries)] && LeafOK(entries) && entries != []
    requires OneMore(s.mem, id, |entries|)
    ensures Grafted(s, u, id, 0, [nid], [], base)
    ensures FlatKids(u.mem, [nid], 0) == entries
  {
    hide Light;
    LeafTree(u.mem, nid, entries);
    LightLeaf(s.mem, id, u.mem, nid, entries);
    LinkedOne(u.mem, nid, 0);
    assert Reach(s.mem, id, 0) == {id};
  }

  /** Two leaves, split at `point`, take over from `id`. */
  lemma GraftLeaves(s: State, u: State, id: nat, nid: nat, rid: nat, entries: seq<Entry>, point: nat, base: set<nat>)
    requires Grown(s, u, {id}) && Home(s, u, id, nid) && Home(s, u, id, rid) && nid != rid && rid != id
    requires 0 < point < |entries| && Sorted(entries)
    requires u.mem == s.mem[nid := Leaf(entries[..point])][rid := Leaf(entries[point..])]
    requires LeafOK(entries[..point]) && LeafOK(entries[point..]) && OneMore(s.mem, id, |entries|)
    ensures Grafted(s, u, id, 0, [nid, rid], [entries[point].key], base)
    ensures FlatKids(u.mem, [nid, rid], 0) == entries
  {
    hide Linked, FlatKids, ReachKids, WF, Flat, Reach, Light;
    LightLeaves(s.mem, id, u.mem, nid, rid, entries, point);
    var left, right, sep := entries[..point], entries[point..], entries[point].key;
    LeafTree(u.mem, nid, left);
    LeafTree(u.mem, rid, right);
    CutSorted(entries, point);
    assert right[0] == entries[point] && right[0] in right;
    LinkedTwo(u.mem, nid, sep, rid, 0);
    ReachLeaf(s.mem, id);
    assert left + right == entries;
  }

  lemma ReachLeaf(P: Store, id: nat)
    ensures Reach(P, id, 0) == {id}
  {
  }

  lemma CutSorted(s: seq<Entry>, n: nat)
    requires Sorted(s) && n < |s|
    ensures Below(s[..n], s[n].key) && From(s[n..], s[n].key)
  {
    forall e | e in s[n..] ensures !Lt(e.key, s[n].key) {
      var i :| 0 <= i < |s[n..]| && s[n..][i] == e;
      LtIrreflexive(e.key);
      if i > 0 && Lt(e.key, s[n].key) { LtTransitive(e.key, s[n].key, e.key); }
    }
  }

  // ------------------------------------------------------------------
  // Routing
  // ------------------------------------------------------------------

  /** What `Route` promises. */
  ghost predicate Routed(seps: seq<Bytes>, key: Bytes, slot: nat) {
    && slot <= |seps|
    && (forall i :: 0 <= i < slot ==> !Lt(key, seps[i]))
    && (slot < |seps| ==> Lt(key, seps[slot]))
  }

  lemma BranchFacts(P: Store, id: nat, h: nat)
    requires h > 0 && WF(P, id, h)
    ensures id in P && id >= FIRST_DATA_PAGE && P[id].Branch? && Fits(BranchLens(P[id].seps))
    ensures Flat(P, id, h) == FlatKids(P, P[id].kids, h - 1)
    ensures Linked(P, P[id].kids, P[id].seps, h - 1)
    ensures |P[id].kids| == |P[id].seps| + 1
    ensures forall i :: 0 <= i < |P[id].seps| ==> |P[id].seps[i]| <= MAX_KEY_LEN
  {
  }

  /** An insert below a branch lands in the routed child and stays in its range. */
  lemma InsertBelow(P: Store, kids: seq<nat>, seps: seq<Bytes>, h: nat, slot: nat, key: Bytes, value: Bytes)
    requires Linked(P, kids, seps, h) && Routed(seps, key, slot)
    ensures slot < |kids| && InRange(PutEntry(Flat(P, kids[slot], h), key, value), seps, slot)
    ensures PutEntry(FlatKids(P, kids, h), key, value)
      == FlatKids(P, kids[..slot], h) + PutEntry(Flat(P, kids[slot], h), key, value) + FlatKids(P, kids[slot + 1..], h)
  {
    Locate(P, kids, seps, h, slot, key);
    FlatKidsAt(P, kids, h, slot);
    PutMiddle(FlatKids(P, kids[..slot], h), Flat(P, kids[slot], h), FlatKids(P, kids[slot + 1..], h), key, value);
    PutMembers(Flat(P, kids[slot], h), key, value);
    assert InRange(Flat(P, kids[slot], h), seps, slot);
  }

  /** A removal below a branch happens in the routed child and stays in its range. */
  lemma RemoveBelow(P: Store, kids: seq<nat>, seps: seq<Bytes>, h: nat, slot: nat, key: Bytes)
    requires Linked(P, kids, seps, h) && Routed(seps, key, slot)
    ensures slot < |kids| && InRange(DelEntry(Flat(P, kids[slot], h), key), seps, slot)
    ensures DelEntry(FlatKids(P, kids, h), key)
      == FlatKids(P, kids[..slot], h) + DelEntry(Flat(P, kids[slot], h), key) + FlatKids(P, kids[slot + 1..], h)
    ensures Absent(FlatKids(P, kids, h), key) <==> Absent(Flat(P, kids[slot], h), key)
  {
    var a, c, b := FlatKids(P, kids[..slot], h), Flat(P, kids[slot], h), FlatKids(P, kids[slot + 1..], h);
    Locate(P, kids, seps, h, slot, key);
    FlatKidsAt(P, kids, h, slot);
    BelowAbsent(a, key);
    BelowAbsent(b, key);
    DelMiddle(a, c, b, key);
    WFSorted(P, kids[slot], h);
    DelMembers(c, key);
    assert InRange(c, seps, slot);
  }

  lemma ChildOwned(s: State, id: nat, h: nat, slot: nat, base: set<nat>)
    requires h > 0 && WF(s.mem, id, h) && slot < |s.mem[id].kids| && Owned(s, Reach(s.mem, id, h), base)
    ensures WF(s.mem, s.mem[id].kids[slot], h - 1)
    ensures Owned(s, Reach(s.mem, s.mem[id].kids[slot], h - 1), base)
    ensures Reach(s.mem, s.mem[id].kids[slot], h - 1) <= Reach(s.mem, id, h)
    ensures s.mem[id].kids[slot] in Reach(s.mem, s.mem[id].kids[slot], h - 1)
  {
    ReachKid(s.mem, s.mem[id].kids, h - 1, slot);
  }

  /** A child edited in place: the branch already points to it and is itself a copy. */
  lemma GraftInPlace(s: State, t: State, id: nat, h: nat, slot: nat, base: set<nat>)
    requires h > 0 && WF(s.mem, id, h) && slot < |s.mem[id].kids|
    requires Owned(s, Reach(s.mem, id, h), base) && Base(s, base)
    requires Ready(s, t, id, h, s.mem[id].kids, s.mem[id].seps, base) && Untouched(s, t, id)
    requires s.mem[id].kids[slot] in t.dirty
    ensures Grafted(s, t, id, h, [id], [], base)
    ensures FlatKids(t.mem, [id], h) == FlatKids(t.mem, s.mem[id].kids, h - 1)
  {
    ChildOwned(s, id, h, slot, base);
    assert id in Reach(s.mem, id, h);
    GrownRefl(t, {id});
    assert t.mem[id] == Branch(s.mem[id].kids, s.mem[id].seps);
    assert t.mem[id := Branch(s.mem[id].kids, s.mem[id].seps)] == t.mem;
    GraftOne(s, t, t, id, h, s.mem[id].kids, s.mem[id].seps, id, {id}, base);
  }

  lemma SpliceSame(kids: seq<nat>, seps: seq<Bytes>, slot: nat, child: nat)
    requires slot < |kids| && slot <= |seps|
    ensures SpliceKids(kids, slot, [child]) == kids[slot := child]
    ensures SpliceSeps(seps, slot, []) == seps
  {
  }

  // ------------------------------------------------------------------
  // The byte budget of a branch
  // ------------------------------------------------------------------

  lemma BranchLensConcat(a: seq<Bytes>, b: seq<Bytes>)
    ensures BranchLens(a + b) == BranchLens(a) + BranchLens(b)
    ensures Used(BranchLens(a + b)) == Used(BranchLens(a)) + Used(BranchLens(b))
  {
    assert BranchLens(a + b) == BranchLens(a) + BranchLens(b);
    UsedConcat(BranchLens(a), BranchLens(b));
  }

  lemma SpliceUsed(seps: seq<Bytes>, slot: nat, sep: Bytes)
    requires slot <= |seps|
    ensures Used(BranchLens(SpliceSeps(seps, slot, [sep]))) == Used(BranchLens(seps)) + BranchCellLen(sep) + SLOT_LEN
  {
    assert SpliceSeps(seps, slot, [sep]) == (seps[..slot] + [sep]) + seps[slot..];
    BranchLensConcat(seps[..slot] + [sep], seps[slot..]);
    BranchLensConcat(seps[..slot], [sep]);
    BranchLensConcat(seps[..slot], seps[slot..]);
    assert seps[..slot] + seps[slot..] == seps;
    assert BranchLens([sep]) == [BranchCellLen(sep)];
    UsedOne(BranchCellLen(sep));
  }

  /** A branch that overflows by one separator can always be cut in two. */
  lemma OverfullBranchCuts(seps: seq<Bytes>, slot: nat, sep: Bytes)
    requires slot <= |seps| && Fits(BranchLens(seps)) && |sep| <= MAX_KEY_LEN
    requires forall i :: 0 <= i < |seps| ==> |seps[i]| <= MAX_KEY_LEN
    requires !Fits(BranchLens(SpliceSeps(seps, slot, [sep])))
    ensures exists c :: GoodCut(BranchLens(SpliceSeps(seps, slot, [sep])), c)
    ensures Thirds(BranchLens(SpliceSeps(seps, slot, [sep])))
  {
    SpliceUsed(seps, slot, sep);
    SplitExists(BranchLens(SpliceSeps(seps, slot, [sep])), 6 + MAX_KEY_LEN + SLOT_LEN);
  }

  lemma CutBranchHalves(seps: seq<Bytes>, c: nat)
    requires GoodCut(BranchLens(seps), c)
    ensures c < |seps| && Fits(BranchLens(seps[..c])) && Fits(BranchLens(seps[c + 1..]))
  {
    assert BranchLens(seps)[..c] == BranchLens(seps[..c]);
    assert BranchLens(seps)[c..] == BranchLens(seps[c..]);
    assert seps[c..] == [seps[c]] + seps[c + 1..];
    BranchLensConcat([seps[c]], seps[c + 1..]);
  }

  // ------------------------------------------------------------------
  // Removal
  // ------------------------------------------------------------------

  /** The subtree `id` had is empty now; `page` is what is left to be released. */
  ghost predicate Emptied(s: State, t: State, id: nat, h: nat, page: nat) {
    && Grown(s, t, Reach(s.mem, id, h))
    && page in t.dirty && !Freed(t, page)
    && (page in Reach(s.mem, id, h) || page in t.dirty - s.dirty)
  }

  /** Dropping an emptied child leaves a ready list of the others. */
  lemma DropReady(s: State, t: State, id: nat, h: nat, slot: nat, page: nat, base: set<nat>)
    requires h > 0 && WF(s.mem, id, h) && slot < |s.mem[id].kids| && slot <= |s.mem[id].seps| && |s.mem[id].seps| > 0
    requires Owned(s, Reach(s.mem, id, h), base)
    requires Emptied(s, t, s.mem[id].kids[slot], h - 1, page)
    ensures Ready(s, t, id, h, DropKids(s.mem[id].kids, slot), DropSeps(s.mem[id].seps, slot), base)
    ensures FlatKids(t.mem, DropKids(s.mem[id].kids, slot), h - 1)
      == FlatKids(s.mem, s.mem[id].kids[..slot], h - 1) + FlatKids(s.mem, s.mem[id].kids[slot + 1..], h - 1)
    ensures Untouched(s, t, id)
    ensures Spent(s, t, id, h, {id, page})
    ensures {id, page} !! ReachKids(t.mem, DropKids(s.mem[id].kids, slot), h - 1) && page != id
  {
    hide WF, Linked, Flat, FlatKids, Reach, ReachKids, LightBranch;
    BranchFacts(s.mem, id, h);
    var kids, seps := s.mem[id].kids, s.mem[id].seps;
    var sib := Siblings(s.mem, kids, h - 1, slot);
    SiblingsKept(s, t, id, h, slot, base);
    LinkedFacts(s.mem, kids, seps, h - 1);
    SiblingsDisjoint(s.mem, kids, h - 1, slot);
    ChildOwned(s, id, h, slot, base);
    KidsWithin(s.mem, id, h);
    SelfReach(s.mem, id, h);
    LightDrop(s.mem, t.mem, id, h, slot);
    Drop(s.mem, t.mem, kids, seps, h - 1, slot);
  }

  lemma DropFits(seps: seq<Bytes>, slot: nat)
    requires 0 < |seps| && slot <= |seps| && Fits(BranchLens(seps))
    ensures Fits(BranchLens(DropSeps(seps, slot)))
  {
    if slot == 0 {
      assert seps == seps[..1] + seps[1..];
      BranchLensConcat(seps[..1], seps[1..]);
    } else {
      assert seps == seps[..slot - 1] + ([seps[slot - 1]] + seps[slot..]);
      BranchLensConcat(seps[..slot - 1], [seps[slot - 1]] + seps[slot..]);
      BranchLensConcat([seps[slot - 1]], seps[slot..]);
      BranchLensConcat(seps[..slot - 1], seps[slot..]);
    }
  }

  /** The only child of a branch was emptied, so the branch is empty too. */
  lemma EmptiedUp(s: State, t: State, u: State, id: nat, h: nat, page: nat, copy: nat, base: set<nat>)
    requires h > 0 && WF(s.mem, id, h) && |s.mem[id].kids| == 1 && Owned(s, Reach(s.mem, id, h), base)
    requires Emptied(s, t, s.mem[id].kids[0], h - 1, page)
    requires Grown(t, u, {id, page}) && Home(t, u, id, copy)
    ensures Emptied(s, u, id, h, copy)
  {
    SiblingsKept(s, t, id, h, 0, base);
    ChildOwned(s, id, h, 0, base);
    SelfReach(s.mem, id, h);
    GrownTrans(s, t, u, Reach(s.mem, id, h), {id, page}, Reach(s.mem, id, h));
  }
}
