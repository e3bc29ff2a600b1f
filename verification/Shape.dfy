/** What it means for a page and everything below it to be a tree of a given
    height, and the ordered entry list such a tree holds. */
module Shape {
  import opened Bytes
  import opened Entries
  import opened Pages

  type Store = map<nat, Page>

  const FIRST_DATA_PAGE: nat := 2

  /** The entries below page `id`, left to right. */
  ghost function Flat(P: Store, id: nat, h: nat): seq<Entry>
    decreases h, 0
  {
    if id !in P then []
    else if h == 0 then if P[id].Leaf? then P[id].entries else []
    else if P[id].Branch? then FlatKids(P, P[id].kids, h - 1) else []
  }

  ghost function FlatKids(P: Store, kids: seq<nat>, h: nat): seq<Entry>
    decreases h, 1 + |kids|
  {
    if kids == [] then [] else Flat(P, kids[0], h) + FlatKids(P, kids[1..], h)
  }

  /** The pages a walk from `id` can touch. */
  ghost function Reach(P: Store, id: nat, h: nat): set<nat>
    decreases h, 0
  {
    {id} + if h > 0 && id in P && P[id].Branch? then ReachKids(P, P[id].kids, h - 1) else {}
  }

  ghost function ReachKids(P: Store, kids: seq<nat>, h: nat): set<nat>
    decreases h, 1
  {
    set i, p | 0 <= i < |kids| && p in Reach(P, kids[i], h) :: p
  }

  ghost predicate SortedSeps(seps: seq<Bytes>) {
    forall i, j :: 0 <= i < j < |seps| ==> Lt(seps[i], seps[j])
  }

  /** Child `i` holds keys from its left separator up to, not including, its right one. */
  ghost predicate InRange(s: seq<Entry>, seps: seq<Bytes>, i: nat)
    requires i <= |seps|
  {
    (i > 0 ==> From(s, seps[i - 1])) && (i < |seps| ==> Below(s, seps[i]))
  }

  ghost predicate LeafOK(s: seq<Entry>) {
    Sorted(s) && Fits(LeafLens(s)) && forall e :: e in s ==> |e.key| <= MAX_KEY_LEN && |e.value| <= MAX_VALUE_LEN
  }

  /** Children and separators that belong together: non-empty trees over disjoint
      pages, each within its separators. */
  ghost predicate Linked(P: Store, kids: seq<nat>, seps: seq<Bytes>, h: nat)
    decreases h, 1
  {
    && |kids| == |seps| + 1
    && SortedSeps(seps)
    && (forall i :: 0 <= i < |seps| ==> |seps[i]| <= MAX_KEY_LEN)
    && (forall i :: 0 <= i < |kids| ==> WF(P, kids[i], h) && Flat(P, kids[i], h) != [])
    && (forall i :: 0 <= i < |kids| ==> InRange(Flat(P, kids[i], h), seps, i))
    && (forall i, j :: 0 <= i < j < |kids| ==> Reach(P, kids[i], h) !! Reach(P, kids[j], h))
  }

  /** Page `id` is the root of a well-formed tree of height `h`; height 0 is a leaf. */
  ghost predicate WF(P: Store, id: nat, h: nat)
    decreases h, 0
  {
    && id in P
    && id >= FIRST_DATA_PAGE
    && if h == 0 then P[id].Leaf? && LeafOK(P[id].entries)
       else
         && P[id].Branch?
         && Fits(BranchLens(P[id].seps))
         && Linked(P, P[id].kids, P[id].seps, h - 1)
         && id !in ReachKids(P, P[id].kids, h - 1)
  }

  ghost predicate Agree(P: Store, Q: Store, S: set<nat>) {
    forall p :: p in S ==> p in P && p in Q && P[p] == Q[p]
  }

  // ------------------------------------------------------------------
  // Lists of children
  // ------------------------------------------------------------------

  lemma {:induction false} FlatKidsConcat(P: Store, a: seq<nat>, b: seq<nat>, h: nat)
    ensures FlatKids(P, a + b, h) == FlatKids(P, a, h) + FlatKids(P, b, h)
  {
    if a == [] {
      assert a + b == b;
    } else {
      assert (a + b)[1..] == a[1..] + b;
      FlatKidsConcat(P, a[1..], b, h);
    }
  }

  lemma FlatKidsOne(P: Store, id: nat, h: nat)
    ensures FlatKids(P, [id], h) == Flat(P, id, h)
  {
    assert [id][1..] == [];
    assert Flat(P, id, h) + [] == Flat(P, id, h);
  }

  lemma FlatKidsAt(P: Store, kids: seq<nat>, h: nat, i: nat)
    requires i < |kids|
    ensures FlatKids(P, kids, h) == FlatKids(P, kids[..i], h) + Flat(P, kids[i], h) + FlatKids(P, kids[i + 1..], h)
  {
    assert kids == kids[..i] + ([kids[i]] + kids[i + 1..]);
    FlatKidsConcat(P, kids[..i], [kids[i]] + kids[i + 1..], h);
    FlatKidsConcat(P, [kids[i]], kids[i + 1..], h);
    FlatKidsOne(P, kids[i], h);
  }

  lemma {:induction false} FlatKidsMember(P: Store, kids: seq<nat>, h: nat, e: Entry)
    ensures e in FlatKids(P, kids, h) <==> exists i :: 0 <= i < |kids| && e in Flat(P, kids[i], h)
  {
    if kids != [] {
      FlatKidsMember(P, kids[1..], h, e);
      assert forall i :: 0 <= i < |kids| - 1 ==> kids[1..][i] == kids[i + 1];
      if i :| 0 <= i < |kids| && e in Flat(P, kids[i], h) {
        if i > 0 { assert kids[1..][i - 1] == kids[i]; }
      }
    }
  }

  lemma {:induction false} FlatKidsEq(P: Store, Q: Store, kids: seq<nat>, h: nat)
    requires forall i :: 0 <= i < |kids| ==> Flat(P, kids[i], h) == Flat(Q, kids[i], h)
    ensures FlatKids(P, kids, h) == FlatKids(Q, kids, h)
  {
    if kids != [] { FlatKidsEq(P, Q, kids[1..], h); }
  }

  lemma ReachKidsEq(P: Store, Q: Store, kids: seq<nat>, h: nat)
    requires forall i :: 0 <= i < |kids| ==> Reach(P, kids[i], h) == Reach(Q, kids[i], h)
    ensures ReachKids(P, kids, h) == ReachKids(Q, kids, h)
  {
  }

  lemma ReachKid(P: Store, kids: seq<nat>, h: nat, i: nat)
    requires i < |kids|
    ensures Reach(P, kids[i], h) <= ReachKids(P, kids, h)
  {
  }

  // ------------------------------------------------------------------
  // A tree depends only on the pages it reaches
  // ------------------------------------------------------------------

  lemma {:induction false} Frame(P: Store, Q: Store, id: nat, h: nat)
    requires WF(P, id, h) && Agree(P, Q, Reach(P, id, h))
    ensures WF(Q, id, h)
    ensures Flat(Q, id, h) == Flat(P, id, h)
    ensures Reach(Q, id, h) == Reach(P, id, h)
    decreases h, 0
  {
    assert id in Reach(P, id, h);
    if h > 0 { FrameKids(P, Q, P[id].kids, P[id].seps, h - 1); }
  }

  lemma {:induction false} FrameKids(P: Store, Q: Store, kids: seq<nat>, seps: seq<Bytes>, h: nat)
    requires Linked(P, kids, seps, h) && Agree(P, Q, ReachKids(P, kids, h))
    ensures Linked(Q, kids, seps, h)
    ensures FlatKids(Q, kids, h) == FlatKids(P, kids, h)
    ensures ReachKids(Q, kids, h) == ReachKids(P, kids, h)
    decreases h, 1
  {
    forall i | 0 <= i < |kids|
      ensures WF(Q, kids[i], h)
      ensures Flat(Q, kids[i], h) == Flat(P, kids[i], h)
      ensures Reach(Q, kids[i], h) == Reach(P, kids[i], h)
    {
      assert forall p :: p in Reach(P, kids[i], h) ==> p in ReachKids(P, kids, h);
      Frame(P, Q, kids[i], h);
    }
    SameKids(P, Q, kids, seps, h);
  }

  lemma SameKids(P: Store, Q: Store, kids: seq<nat>, seps: seq<Bytes>, h: nat)
    requires Linked(P, kids, seps, h)
    requires forall i :: 0 <= i < |kids| ==>
      WF(Q, kids[i], h) && Flat(Q, kids[i], h) == Flat(P, kids[i], h) && Reach(Q, kids[i], h) == Reach(P, kids[i], h)
    ensures Linked(Q, kids, seps, h)
    ensures FlatKids(Q, kids, h) == FlatKids(P, kids, h)
    ensures ReachKids(Q, kids, h) == ReachKids(P, kids, h)
  {
    FlatKidsEq(P, Q, kids, h);
    ReachKidsEq(P, Q, kids, h);
  }

  /** Every page a well-formed tree reaches exists, is a data page, and a branch
      among them points only to pages the tree also reaches. */
  lemma {:induction false} ReachClosed(P: Store, id: nat, h: nat)
    requires WF(P, id, h)
    ensures forall p :: p in Reach(P, id, h) ==> p in P && p >= FIRST_DATA_PAGE
    ensures forall p, i :: p in Reach(P, id, h) && P[p].Branch? && 0 <= i < |P[p].kids| ==>
                P[p].kids[i] in Reach(P, id, h)
    decreases h
  {
    if h > 0 {
      var kids := P[id].kids;
      forall i | 0 <= i < |kids|
        ensures kids[i] in Reach(P, kids[i], h - 1) && Reach(P, kids[i], h - 1) <= Reach(P, id, h)
        ensures forall p :: p in Reach(P, kids[i], h - 1) ==> p in P && p >= FIRST_DATA_PAGE
        ensures forall p, j :: p in Reach(P, kids[i], h - 1) && P[p].Branch? && 0 <= j < |P[p].kids| ==>
                    P[p].kids[j] in Reach(P, kids[i], h - 1)
      {
        ReachKid(P, kids, h - 1, i);
        ReachClosed(P, kids[i], h - 1);
      }
    }
  }

  // ------------------------------------------------------------------
  // Order
  // ------------------------------------------------------------------

  /** The children before and after the one a key routes to hold only smaller and
      only larger keys. */
  lemma Locate(P: Store, kids: seq<nat>, seps: seq<Bytes>, h: nat, slot: nat, key: Bytes)
    requires Linked(P, kids, seps, h)
    requires slot <= |seps|
    requires forall i :: 0 <= i < slot ==> !Lt(key, seps[i])
    requires slot < |seps| ==> Lt(key, seps[slot])
    ensures Below(FlatKids(P, kids[..slot], h), key)
    ensures Above(FlatKids(P, kids[slot + 1..], h), key)
  {
    hide Linked, FlatKids;
    LinkedShape(P, kids, seps, h);
    if slot > 0 {
      HeadBelow(P, kids, seps, h, slot);
      LtTotal(seps[slot - 1], key);
      forall e | e in FlatKids(P, kids[..slot], h) ensures Lt(e.key, key) {
        if seps[slot - 1] != key { LtTransitive(e.key, seps[slot - 1], key); }
      }
    } else {
      NoFlat(P, kids[..slot], h);
    }
    if slot < |seps| {
      TailFrom(P, kids, seps, h, slot + 1);
      forall e | e in FlatKids(P, kids[slot + 1..], h) ensures Lt(key, e.key) {
        LtTotal(e.key, seps[slot]);
        if e.key != seps[slot] { LtTransitive(key, seps[slot], e.key); }
      }
    } else {
      NoFlat(P, kids[slot + 1..], h);
    }
  }

  lemma LinkedShape(P: Store, kids: seq<nat>, seps: seq<Bytes>, h: nat)
    requires Linked(P, kids, seps, h)
    ensures |kids| == |seps| + 1 && SortedSeps(seps)
  {
  }

  lemma NoFlat(P: Store, kids: seq<nat>, h: nat)
    requires kids == []
    ensures FlatKids(P, kids, h) == []
  {
  }

  lemma BelowSep(seps: seq<Bytes>, a: nat, b: nat, key: Bytes)
    requires SortedSeps(seps) && a <= b < |seps| && Lt(key, seps[a])
    ensures Lt(key, seps[b])
  {
    if a < b { LtTransitive(key, seps[a], seps[b]); }
  }

  lemma {:induction false} WFSorted(P: Store, id: nat, h: nat)
    requires WF(P, id, h)
    ensures Sorted(Flat(P, id, h))
    decreases h, 0
  {
    if h > 0 { KidsSorted(P, P[id].kids, P[id].seps, h - 1); }
  }

  lemma {:induction false} KidsSorted(P: Store, kids: seq<nat>, seps: seq<Bytes>, h: nat)
    requires Linked(P, kids, seps, h)
    ensures Sorted(FlatKids(P, kids, h))
    decreases h, 1 + |kids|
  {
    WFSorted(P, kids[0], h);
    if |kids| == 1 {
      FlatKidsOne(P, kids[0], h);
      assert kids == [kids[0]];
    } else {
      LinkedTail(P, kids, seps, h, 1);
      KidsSorted(P, kids[1..], seps[1..], h);
      assert kids[..1] == [kids[0]];
      forall x, y | x in Flat(P, kids[0], h) && y in FlatKids(P, kids[1..], h) ensures Lt(x.key, y.key) {
        assert InRange(Flat(P, kids[0], h), seps, 0);
        FlatKidsMember(P, kids[1..], h, y);
        var i :| 0 <= i < |kids| - 1 && y in Flat(P, kids[1..][i], h);
        assert InRange(Flat(P, kids[i + 1], h), seps, i + 1);
        BelowSep(seps, 0, i, x.key);
        LtTotal(y.key, seps[i]);
        if y.key != seps[i] { LtTransitive(x.key, seps[i], y.key); }
      }
      SortedConcat(Flat(P, kids[0], h), FlatKids(P, kids[1..], h));
    }
  }

  // ------------------------------------------------------------------
  // Cutting and editing lists of children
  // ------------------------------------------------------------------

  lemma LinkedTail(P: Store, kids: seq<nat>, seps: seq<Bytes>, h: nat, n: nat)
    requires Linked(P, kids, seps, h) && n < |kids|
    ensures Linked(P, kids[n..], seps[n..], h)
  {
    forall i | 0 <= i < |kids[n..]| ensures InRange(Flat(P, kids[n..][i], h), seps[n..], i) {
      assert InRange(Flat(P, kids[n + i], h), seps, n + i);
    }
  }

  lemma LinkedHead(P: Store, kids: seq<nat>, seps: seq<Bytes>, h: nat, n: nat)
    requires Linked(P, kids, seps, h) && n <= |seps|
    ensures Linked(P, kids[..n + 1], seps[..n], h)
  {
    var head := kids[..n + 1];
    forall i | 0 <= i < |head| ensures InRange(Flat(P, head[i], h), seps[..n], i) {
      assert InRange(Flat(P, kids[i], h), seps, i);
    }
  }

  lemma TailFrom(P: Store, kids: seq<nat>, seps: seq<Bytes>, h: nat, n: nat)
    requires Linked(P, kids, seps, h) && 0 < n < |kids|
    ensures From(FlatKids(P, kids[n..], h), seps[n - 1])
  {
    forall e | e in FlatKids(P, kids[n..], h) ensures !Lt(e.key, seps[n - 1]) {
      FlatKidsMember(P, kids[n..], h, e);
      var i :| 0 <= i < |kids| - n && e in Flat(P, kids[n..][i], h);
      assert InRange(Flat(P, kids[n + i], h), seps, n + i);
      if Lt(e.key, seps[n - 1]) { BelowSep(seps, n - 1, n + i - 1, e.key); }
    }
  }

  lemma HeadBelow(P: Store, kids: seq<nat>, seps: seq<Bytes>, h: nat, n: nat)
    requires Linked(P, kids, seps, h) && 0 < n < |kids|
    ensures Below(FlatKids(P, kids[..n], h), seps[n - 1])
  {
    forall e | e in FlatKids(P, kids[..n], h) ensures Lt(e.key, seps[n - 1]) {
      FlatKidsMember(P, kids[..n], h, e);
      var i :| 0 <= i < n && e in Flat(P, kids[..n][i], h);
      assert InRange(Flat(P, kids[i], h), seps, i);
      BelowSep(seps, i, n - 1, e.key);
    }
  }

  /** Two runs of children join around a separator that divides their keys. */
  lemma LinkedConcat(P: Store, ka: seq<nat>, sa: seq<Bytes>, s: Bytes, kb: seq<nat>, sb: seq<Bytes>, h: nat)
    requires Linked(P, ka, sa, h) && Linked(P, kb, sb, h)
    requires |s| <= MAX_KEY_LEN
    requires Below(FlatKids(P, ka, h), s) && From(FlatKids(P, kb, h), s)
    requires ReachKids(P, ka, h) !! ReachKids(P, kb, h)
    ensures Linked(P, ka + kb, sa + [s] + sb, h)
  {
    var kids, seps := ka + kb, sa + [s] + sb;
    ConcatSeps(P, ka, sa, s, kb, sb, h);
    forall i | 0 <= i < |kids|
      ensures WF(P, kids[i], h) && Flat(P, kids[i], h) != []
    {
      assert kids[i] == if i < |ka| then ka[i] else kb[i - |ka|];
    }
    forall i | 0 <= i < |kids|
      ensures InRange(Flat(P, kids[i], h), seps, i)
    {
      ConcatRange(P, ka, sa, s, kb, sb, h, i);
    }
    forall i, j | 0 <= i < j < |kids|
      ensures Reach(P, kids[i], h) !! Reach(P, kids[j], h)
    {
      if i < |ka| <= j {
        ReachKid(P, ka, h, i);
        ReachKid(P, kb, h, j - |ka|);
      }
    }
  }

  lemma ConcatRange(P: Store, ka: seq<nat>, sa: seq<Bytes>, s: Bytes, kb: seq<nat>, sb: seq<Bytes>, h: nat, i: nat)
    requires Linked(P, ka, sa, h) && Linked(P, kb, sb, h)
    requires Below(FlatKids(P, ka, h), s) && From(FlatKids(P, kb, h), s)
    requires i < |ka| + |kb|
    ensures InRange(Flat(P, (ka + kb)[i], h), sa + [s] + sb, i)
  {
    if i < |ka| {
      assert InRange(Flat(P, ka[i], h), sa, i);
      forall e | e in Flat(P, ka[i], h) ensures Lt(e.key, s) { FlatKidsMember(P, ka, h, e); }
    } else {
      var j := i - |ka|;
      assert InRange(Flat(P, kb[j], h), sb, j);
      forall e | e in Flat(P, kb[j], h) ensures !Lt(e.key, s) { FlatKidsMember(P, kb, h, e); }
    }
  }

  lemma ConcatSeps(P: Store, ka: seq<nat>, sa: seq<Bytes>, s: Bytes, kb: seq<nat>, sb: seq<Bytes>, h: nat)
    requires Linked(P, ka, sa, h) && Linked(P, kb, sb, h)
    requires Below(FlatKids(P, ka, h), s) && From(FlatKids(P, kb, h), s)
    ensures SortedSeps(sa + [s] + sb)
  {
    forall i | 0 <= i < |sa| ensures Lt(sa[i], s) {
      var e := Flat(P, ka[i + 1], h)[0];
      assert InRange(Flat(P, ka[i + 1], h), sa, i + 1);
      FlatKidsMember(P, ka, h, e);
      LtTotal(sa[i], e.key);
      if sa[i] != e.key { LtTransitive(sa[i], e.key, s); }
    }
    forall j | 0 <= j < |sb| ensures Lt(s, sb[j]) {
      var e := Flat(P, kb[j], h)[0];
      assert InRange(Flat(P, kb[j], h), sb, j);
      FlatKidsMember(P, kb, h, e);
      LtTotal(s, e.key);
      if s != e.key { LtTransitive(s, e.key, sb[j]); }
    }
    forall i, j | 0 <= i < |sa| && 0 <= j < |sb| ensures Lt(sa[i], sb[j]) {
      LtTransitive(sa[i], s, sb[j]);
    }
  }

  lemma ReachKidsConcat(P: Store, a: seq<nat>, b: seq<nat>, h: nat)
    ensures ReachKids(P, a + b, h) == ReachKids(P, a, h) + ReachKids(P, b, h)
  {
    forall p | p in ReachKids(P, a, h) ensures p in ReachKids(P, a + b, h) {
      var i :| 0 <= i < |a| && p in Reach(P, a[i], h);
      assert (a + b)[i] == a[i];
    }
    forall p | p in ReachKids(P, b, h) ensures p in ReachKids(P, a + b, h) {
      var i :| 0 <= i < |b| && p in Reach(P, b[i], h);
      assert (a + b)[|a| + i] == b[i];
    }
  }
}
