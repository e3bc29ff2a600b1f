/** Editing a branch: replacing one child by the one or two subtrees an insert
    made of it, and dropping a child a removal emptied. */
module Splice {
  import opened Bytes
  import opened Entries
  import opened Pages
  import opened Shape

  /** The pages of every child but the one at `slot`. */
  ghost function Siblings(P: Store, kids: seq<nat>, h: nat, slot: nat): set<nat>
    requires slot < |kids|
  {
    ReachKids(P, kids[..slot], h) + ReachKids(P, kids[slot + 1..], h)
  }

  function SpliceKids(kids: seq<nat>, slot: nat, ks: seq<nat>): seq<nat>
    requires slot < |kids|
  {
    kids[..slot] + ks + kids[slot + 1..]
  }

  function SpliceSeps(seps: seq<Bytes>, slot: nat, ss: seq<Bytes>): seq<Bytes>
    requires slot <= |seps|
  {
    seps[..slot] + ss + seps[slot..]
  }

  ghost predicate Apart(P: Store, kids: seq<nat>, h: nat) {
    forall i, j :: 0 <= i < j < |kids| ==> Reach(P, kids[i], h) !! Reach(P, kids[j], h)
  }

  lemma LinkedFacts(P: Store, kids: seq<nat>, seps: seq<Bytes>, h: nat)
    requires Linked(P, kids, seps, h)
    ensures |kids| == |seps| + 1 && Apart(P, kids, h)
    ensures forall i :: 0 <= i < |seps| ==> |seps[i]| <= MAX_KEY_LEN
  {
  }

  lemma CutApart(P: Store, kids: seq<nat>, h: nat, n: nat)
    requires Apart(P, kids, h) && n <= |kids|
    ensures ReachKids(P, kids[..n], h) !! ReachKids(P, kids[n..], h)
    ensures ReachKids(P, kids, h) == ReachKids(P, kids[..n], h) + ReachKids(P, kids[n..], h)
  {
    var a, b := kids[..n], kids[n..];
    forall p, q | p in ReachKids(P, a, h) && q in ReachKids(P, b, h) ensures p != q {
      var i :| 0 <= i < |a| && p in Reach(P, a[i], h);
      var j :| 0 <= j < |b| && q in Reach(P, b[j], h);
      assert a[i] == kids[i] && b[j] == kids[n + j];
    }
    assert kids == a + b;
    ReachKidsConcat(P, a, b, h);
  }

  lemma SiblingsDisjoint(P: Store, kids: seq<nat>, h: nat, slot: nat)
    requires Apart(P, kids, h) && slot < |kids|
    ensures Siblings(P, kids, h, slot) !! Reach(P, kids[slot], h)
    ensures ReachKids(P, kids, h) == Siblings(P, kids, h, slot) + Reach(P, kids[slot], h)
    ensures ReachKids(P, kids[..slot], h) !! ReachKids(P, kids[slot + 1..], h)
  {
    hide Linked, WF;
    CutApart(P, kids, h, slot);
    CutApart(P, kids, h, slot + 1);
    assert kids[..slot + 1] == kids[..slot] + [kids[slot]];
    ReachKidsConcat(P, kids[..slot], [kids[slot]], h);
    assert kids[slot..] == [kids[slot]] + kids[slot + 1..];
    ReachKidsConcat(P, [kids[slot]], kids[slot + 1..], h);
    ReachKidsOne(P, kids[slot], h);
  }

  lemma ReachKidsOne(P: Store, id: nat, h: nat)
    ensures ReachKids(P, [id], h) == Reach(P, id, h)
  {
    assert [id][0] == id;
  }

  lemma HeadLinked(P: Store, Q: Store, kids: seq<nat>, seps: seq<Bytes>, h: nat, slot: nat)
    requires Linked(P, kids, seps, h) && 0 < slot < |kids|
    requires Agree(P, Q, ReachKids(P, kids[..slot], h))
    ensures Linked(Q, kids[..slot], seps[..slot - 1], h)
    ensures FlatKids(Q, kids[..slot], h) == FlatKids(P, kids[..slot], h)
    ensures ReachKids(Q, kids[..slot], h) == ReachKids(P, kids[..slot], h)
    ensures Below(FlatKids(Q, kids[..slot], h), seps[slot - 1])
  {
    LinkedHead(P, kids, seps, h, slot - 1);
    HeadBelow(P, kids, seps, h, slot);
    FrameKids(P, Q, kids[..slot], seps[..slot - 1], h);
  }

  lemma TailLinked(P: Store, Q: Store, kids: seq<nat>, seps: seq<Bytes>, h: nat, slot: nat)
    requires Linked(P, kids, seps, h) && slot < |seps|
    requires Agree(P, Q, ReachKids(P, kids[slot + 1..], h))
    ensures Linked(Q, kids[slot + 1..], seps[slot + 1..], h)
    ensures FlatKids(Q, kids[slot + 1..], h) == FlatKids(P, kids[slot + 1..], h)
    ensures ReachKids(Q, kids[slot + 1..], h) == ReachKids(P, kids[slot + 1..], h)
    ensures From(FlatKids(Q, kids[slot + 1..], h), seps[slot])
  {
    LinkedTail(P, kids, seps, h, slot + 1);
    TailFrom(P, kids, seps, h, slot + 1);
    FrameKids(P, Q, kids[slot + 1..], seps[slot + 1..], h);
  }

  /** The children up to and including the replaced one. */
  lemma SpliceHead(P: Store, Q: Store, kids: seq<nat>, seps: seq<Bytes>, h: nat, slot: nat, ks: seq<nat>,
                   ss: seq<Bytes>)
    requires Linked(P, kids, seps, h) && slot < |kids| && Linked(Q, ks, ss, h)
    requires Agree(P, Q, ReachKids(P, kids[..slot], h))
    requires slot > 0 ==> From(FlatKids(Q, ks, h), seps[slot - 1])
    requires ReachKids(P, kids[..slot], h) !! ReachKids(Q, ks, h)
    ensures Linked(Q, kids[..slot] + ks, seps[..slot] + ss, h)
    ensures FlatKids(Q, kids[..slot] + ks, h) == FlatKids(P, kids[..slot], h) + FlatKids(Q, ks, h)
    ensures ReachKids(Q, kids[..slot] + ks, h) == ReachKids(P, kids[..slot], h) + ReachKids(Q, ks, h)
  {
    hide Linked, WF;
    LinkedFacts(P, kids, seps, h);
    if slot == 0 {
      assert kids[..0] + ks == ks && seps[..0] + ss == ss;
      assert FlatKids(P, kids[..0], h) == [];
    } else {
      HeadLinked(P, Q, kids, seps, h, slot);
      JoinRuns(Q, kids[..slot], seps[..slot - 1], seps[slot - 1], ks, ss, h);
      SepsAfter(ss, seps, slot);
    }
  }

  lemma SpliceTail(P: Store, Q: Store, kids: seq<nat>, seps: seq<Bytes>, h: nat, slot: nat, ks: seq<nat>,
                   ss: seq<Bytes>)
    requires Linked(P, kids, seps, h) && slot < |kids| && Linked(Q, ks, ss, h)
    requires Agree(P, Q, ReachKids(P, kids[slot + 1..], h))
    requires slot < |seps| ==> Below(FlatKids(Q, ks, h), seps[slot])
    requires ReachKids(P, kids[slot + 1..], h) !! ReachKids(Q, ks, h)
    ensures Linked(Q, ks + kids[slot + 1..], ss + seps[slot..], h)
    ensures FlatKids(Q, ks + kids[slot + 1..], h) == FlatKids(Q, ks, h) + FlatKids(P, kids[slot + 1..], h)
    ensures ReachKids(Q, ks + kids[slot + 1..], h) == ReachKids(Q, ks, h) + ReachKids(P, kids[slot + 1..], h)
  {
    hide Linked, WF;
    LinkedFacts(P, kids, seps, h);
    var tk := kids[slot + 1..];
    if slot == |seps| {
      EmptyTail(P, Q, ks, ss, tk, seps[slot..], h);
    } else {
      TailLinked(P, Q, kids, seps, h, slot);
      JoinRuns(Q, ks, ss, seps[slot], tk, seps[slot + 1..], h);
      SepsBefore(ss, seps, slot);
    }
  }

  lemma SepsBefore(ss: seq<Bytes>, seps: seq<Bytes>, slot: nat)
    requires slot < |seps|
    ensures ss + seps[slot..] == ss + [seps[slot]] + seps[slot + 1..]
  {
  }

  lemma SepsAfter(ss: seq<Bytes>, seps: seq<Bytes>, slot: nat)
    requires 0 < slot <= |seps|
    ensures seps[..slot] + ss == seps[..slot - 1] + [seps[slot - 1]] + ss
  {
  }

  lemma EmptyTail(P: Store, Q: Store, ks: seq<nat>, ss: seq<Bytes>, tk: seq<nat>, ts: seq<Bytes>, h: nat)
    requires Linked(Q, ks, ss, h) && tk == [] && ts == []
    ensures Linked(Q, ks + tk, ss + ts, h)
    ensures FlatKids(Q, ks + tk, h) == FlatKids(Q, ks, h) + FlatKids(P, tk, h)
    ensures ReachKids(Q, ks + tk, h) == ReachKids(Q, ks, h) + ReachKids(P, tk, h)
  {
    assert ks + tk == ks && ss + ts == ss;
  }

  lemma JoinRuns(Q: Store, ka: seq<nat>, sa: seq<Bytes>, s: Bytes, kb: seq<nat>, sb: seq<Bytes>, h: nat)
    requires Linked(Q, ka, sa, h) && Linked(Q, kb, sb, h) && |s| <= MAX_KEY_LEN
    requires Below(FlatKids(Q, ka, h), s) && From(FlatKids(Q, kb, h), s)
    requires ReachKids(Q, ka, h) !! ReachKids(Q, kb, h)
    ensures Linked(Q, ka + kb, sa + [s] + sb, h)
    ensures FlatKids(Q, ka + kb, h) == FlatKids(Q, ka, h) + FlatKids(Q, kb, h)
    ensures ReachKids(Q, ka + kb, h) == ReachKids(Q, ka, h) + ReachKids(Q, kb, h)
  {
    hide Linked, WF;
    LinkedConcat(Q, ka, sa, s, kb, sb, h);
    FlatKidsConcat(Q, ka, kb, h);
    ReachKidsConcat(Q, ka, kb, h);
  }

  /** Replacing child `slot` by subtrees whose keys stay in its range. */
  lemma Splice(P: Store, Q: Store, kids: seq<nat>, seps: seq<Bytes>, h: nat, slot: nat, ks: seq<nat>, ss: seq<Bytes>)
    requires Linked(P, kids, seps, h) && slot < |kids| && Linked(Q, ks, ss, h)
    requires Agree(P, Q, Siblings(P, kids, h, slot))
    requires InRange(FlatKids(Q, ks, h), seps, slot)
    requires Siblings(P, kids, h, slot) !! ReachKids(Q, ks, h)
    ensures Linked(Q, SpliceKids(kids, slot, ks), SpliceSeps(seps, slot, ss), h)
    ensures FlatKids(Q, SpliceKids(kids, slot, ks), h) ==
                FlatKids(P, kids[..slot], h) + FlatKids(Q, ks, h) + FlatKids(P, kids[slot + 1..], h)
    ensures ReachKids(Q, SpliceKids(kids, slot, ks), h) == Siblings(P, kids, h, slot) + ReachKids(Q, ks, h)
  {
    hide Linked, WF, Flat, FlatKids, Reach, ReachKids;
    LinkedFacts(P, kids, seps, h);
    SpliceHead(P, Q, kids, seps, h, slot, ks, ss);
    SiblingsDisjoint(P, kids, h, slot);
    if slot < |seps| {
      HeadOfBelow(P, kids, seps, h, slot);
      BelowConcat(FlatKids(P, kids[..slot], h), FlatKids(Q, ks, h), seps[slot]);
    }
    SpliceTail(P, Q, kids, seps, h, slot, kids[..slot] + ks, seps[..slot] + ss);
  }

  lemma BelowConcat(a: seq<Entry>, b: seq<Entry>, k: Bytes)
    requires Below(a, k) && Below(b, k)
    ensures Below(a + b, k)
  {
  }

  lemma HeadOfBelow(P: Store, kids: seq<nat>, seps: seq<Bytes>, h: nat, slot: nat)
    requires Linked(P, kids, seps, h) && slot < |seps|
    ensures Below(FlatKids(P, kids[..slot], h), seps[slot])
  {
    if slot > 0 {
      HeadBelow(P, kids, seps, h, slot);
      forall e | e in FlatKids(P, kids[..slot], h) ensures Lt(e.key, seps[slot]) {
        LtTransitive(e.key, seps[slot - 1], seps[slot]);
      }
    }
  }

  function DropKids(kids: seq<nat>, slot: nat): seq<nat>
    requires slot < |kids|
  {
    kids[..slot] + kids[slot + 1..]
  }

  /** Dropping the leftmost child drops the first separator; any other child takes
      the separator on its left with it. */
  function DropSeps(seps: seq<Bytes>, slot: nat): seq<Bytes>
    requires 0 < |seps| && slot <= |seps|
  {
    if slot == 0 then seps[1..] else seps[..slot - 1] + seps[slot..]
  }

  lemma NoHead(P: Store, kids: seq<nat>, h: nat)
    requires |kids| > 0
    ensures kids[..0] + kids[1..] == kids[1..]
    ensures FlatKids(P, kids[..0], h) + FlatKids(P, kids[1..], h) == FlatKids(P, kids[1..], h)
    ensures ReachKids(P, kids[..0], h) == {}
  {
  }

  lemma Drop(P: Store, Q: Store, kids: seq<nat>, seps: seq<Bytes>, h: nat, slot: nat)
    requires Linked(P, kids, seps, h) && slot < |kids| && |seps| > 0
    requires Agree(P, Q, Siblings(P, kids, h, slot))
    ensures Linked(Q, DropKids(kids, slot), DropSeps(seps, slot), h)
    ensures FlatKids(Q, DropKids(kids, slot), h) == FlatKids(P, kids[..slot], h) + FlatKids(P, kids[slot + 1..], h)
    ensures ReachKids(Q, DropKids(kids, slot), h) == Siblings(P, kids, h, slot)
  {
    hide Linked, WF;
    LinkedFacts(P, kids, seps, h);
    if slot == 0 {
      TailLinked(P, Q, kids, seps, h, 0);
      NoHead(P, kids, h);
    } else {
      HeadLinked(P, Q, kids, seps, h, slot);
      SiblingsDisjoint(P, kids, h, slot);
      if slot < |seps| { HeadOfBelow(P, kids, seps, h, slot); }
      SpliceTail(P, Q, kids, seps, h, slot, kids[..slot], seps[..slot - 1]);
    }
  }
}
