/** How much a tree has been put into: a measure no operation raises by more than one, and that
    doubles with every level. */
module TreeLoad {
  import opened Bytes
  import opened Entries
  import opened Pages
  import opened Shape
  import opened Splice

  function Pow2(n: nat): (p: nat)
    ensures p > 0
  {
    if n == 0 then 1 else 2 * Pow2(n - 1)
  }

  lemma {:induction false} Pow2Monotone(a: nat, b: nat)
    requires a <= b
    ensures Pow2(a) <= Pow2(b)
    decreases b
  {
    if a < b { Pow2Monotone(a, b - 1); }
  }

  /** What a page holds beyond its first cell. */
  function Extra(n: nat): nat { if n > 0 then n - 1 else 0 }

  /** The spare separators of `n`, at the price of a level. */
  function Spare(h: nat, n: nat): nat { Pow2(h) * Extra(n) }

  ghost function Load(P: Store, id: nat, h: nat): nat
    decreases h, 0
  {
    if id !in P then 0
    else if h == 0 then (if P[id].Leaf? then Extra(|P[id].entries|) else 0)
    else if P[id].Branch? then Spare(h - 1, |P[id].seps|) + LoadKids(P, P[id].kids, h - 1)
    else 0
  }

  ghost function LoadKids(P: Store, kids: seq<nat>, h: nat): nat
    decreases h, 1 + |kids|
  {
    if kids == [] then 0 else Load(P, kids[0], h) + LoadKids(P, kids[1..], h)
  }

  /** Subtrees `ks` with `n` separators between them weigh at most one more than what they stand
      in for, a separator counting as much as it will in the level above. */
  ghost predicate Light(P: Store, id: nat, h: nat, Q: Store, ks: seq<nat>, n: nat) {
    LoadKids(Q, ks, h) + Pow2(h) * n <= Load(P, id, h) + 1
  }

  /** So does a branch made of these. */
  ghost predicate LightBranch(P: Store, id: nat, h: nat, Q: Store, kids: seq<nat>, n: nat)
    requires h > 0
  {
    LoadKids(Q, kids, h - 1) + Spare(h - 1, n) <= Load(P, id, h) + 1
  }

  // ---- lists of children ----

  lemma {:induction false} LoadKidsConcat(P: Store, a: seq<nat>, b: seq<nat>, h: nat)
    ensures LoadKids(P, a + b, h) == LoadKids(P, a, h) + LoadKids(P, b, h)
  {
    hide Load;
    if a == [] {
      assert a + b == b;
    } else {
      assert (a + b)[1..] == a[1..] + b;
      LoadKidsConcat(P, a[1..], b, h);
    }
  }

  lemma LoadKidsOne(P: Store, id: nat, h: nat)
    ensures LoadKids(P, [id], h) == Load(P, id, h)
  {
    hide Load;
    assert [id][1..] == [];
  }

  lemma LoadKidsAt(P: Store, kids: seq<nat>, h: nat, i: nat)
    requires i < |kids|
    ensures LoadKids(P, kids, h) == LoadKids(P, kids[..i], h) + Load(P, kids[i], h) + LoadKids(P, kids[i + 1..], h)
  {
    hide Load, LoadKids;
    assert kids == kids[..i] + ([kids[i]] + kids[i + 1..]);
    LoadKidsConcat(P, kids[..i], [kids[i]] + kids[i + 1..], h);
    LoadKidsConcat(P, [kids[i]], kids[i + 1..], h);
    LoadKidsOne(P, kids[i], h);
  }

  // ---- a page map that agrees ----

  lemma {:induction false} LoadFrame(P: Store, Q: Store, id: nat, h: nat)
    requires id in P && Agree(P, Q, Reach(P, id, h))
    ensures Load(Q, id, h) == Load(P, id, h)
    decreases h, 0
  {
    hide Spare;
    assert id in Reach(P, id, h);
    if h > 0 && P[id].Branch? { LoadFrameKids(P, Q, P[id].kids, h - 1); }
  }

  lemma {:induction false} LoadFrameKids(P: Store, Q: Store, kids: seq<nat>, h: nat)
    requires Agree(P, Q, ReachKids(P, kids, h))
    ensures LoadKids(Q, kids, h) == LoadKids(P, kids, h)
    decreases h, 1 + |kids|
  {
    hide Load;
    if kids != [] {
      KidReached(P, kids, h);
      LoadFrame(P, Q, kids[0], h);
      LoadFrameKids(P, Q, kids[1..], h);
    }
  }

  lemma KidReached(P: Store, kids: seq<nat>, h: nat)
    requires kids != []
    ensures Reach(P, kids[0], h) <= ReachKids(P, kids, h) && kids[0] in Reach(P, kids[0], h)
    ensures ReachKids(P, kids[1..], h) <= ReachKids(P, kids, h)
  {
    forall p | p in ReachKids(P, kids[1..], h) ensures p in ReachKids(P, kids, h) {
      var i :| 0 <= i < |kids[1..]| && p in Reach(P, kids[1..][i], h);
      assert kids[1..][i] == kids[i + 1];
    }
  }

  // ---- editing a branch ----

  /** What a branch weighs. */
  lemma BranchLoad(P: Store, id: nat, h: nat)
    requires h > 0 && id in P && P[id].Branch?
    ensures Load(P, id, h) == Spare(h - 1, |P[id].seps|) + LoadKids(P, P[id].kids, h - 1)
  {
  }

  lemma SpareGrows(h: nat, n: nat, more: nat)
    ensures Spare(h, n + more) <= Spare(h, n) + Pow2(h) * more
  {
    hide Pow2;
    var a, b, c, p := Extra(n + more), Extra(n), more, Pow2(h);
    assert a <= b + c;
    Times(p, a, b + c);
    assert p * (b + c) == p * b + p * c;
  }

  lemma Times(p: nat, a: nat, b: nat)
    requires a <= b
    ensures p * a <= p * b
  {
  }

  /** Replacing a child by something light. */
  lemma LightSplice(P: Store, Q: Store, id: nat, h: nat, slot: nat, ks: seq<nat>, ss: seq<Bytes>)
    requires h > 0 && id in P && P[id].Branch? && slot < |P[id].kids| && slot <= |P[id].seps|
    requires Agree(P, Q, Siblings(P, P[id].kids, h - 1, slot))
    requires Light(P, P[id].kids[slot], h - 1, Q, ks, |ss|)
    ensures LightBranch(P, id, h, Q, SpliceKids(P[id].kids, slot, ks), |SpliceSeps(P[id].seps, slot, ss)|)
  {
    hide Load, LoadKids, Spare, Pow2;
    var kids, seps := P[id].kids, P[id].seps;
    BranchLoad(P, id, h);
    LoadKidsAt(P, kids, h - 1, slot);
    LoadKidsConcat(Q, kids[..slot] + ks, kids[slot + 1..], h - 1);
    LoadKidsConcat(Q, kids[..slot], ks, h - 1);
    LoadFrameKids(P, Q, kids[..slot], h - 1);
    LoadFrameKids(P, Q, kids[slot + 1..], h - 1);
    SpareGrows(h - 1, |seps|, |ss|);
    assert |SpliceSeps(seps, slot, ss)| == |seps| + |ss|;
  }

  lemma SpareShrinks(h: nat, n: nat)
    requires n > 0
    ensures Spare(h, n - 1) <= Spare(h, n)
  {
    hide Pow2;
    Times(Pow2(h), Extra(n - 1), Extra(n));
  }

  /** Dropping a child makes nothing heavier. */
  lemma LightDrop(P: Store, Q: Store, id: nat, h: nat, slot: nat)
    requires h > 0 && id in P && P[id].Branch? && slot < |P[id].kids| && slot <= |P[id].seps| && |P[id].seps| > 0
    requires Agree(P, Q, Siblings(P, P[id].kids, h - 1, slot))
    ensures LightBranch(P, id, h, Q, DropKids(P[id].kids, slot), |DropSeps(P[id].seps, slot)|)
  {
    hide Load, LoadKids, Spare, Pow2;
    var kids, seps := P[id].kids, P[id].seps;
    BranchLoad(P, id, h);
    LoadKidsAt(P, kids, h - 1, slot);
    assert DropKids(kids, slot) == kids[..slot] + kids[slot + 1..];
    LoadKidsConcat(Q, kids[..slot], kids[slot + 1..], h - 1);
    LoadFrameKids(P, Q, kids[..slot], h - 1);
    LoadFrameKids(P, Q, kids[slot + 1..], h - 1);
    SpareShrinks(h - 1, |seps|);
    assert |DropSeps(seps, slot)| == |seps| - 1;
  }

  // ---- writing pages ----

  /** One branch in place of `id`. */
  lemma LightOne(P: Store, id: nat, h: nat, Q: Store, kids: seq<nat>, seps: seq<Bytes>, R: Store, nid: nat)
    requires h > 0 && LightBranch(P, id, h, Q, kids, |seps|)
    requires nid in R && R[nid] == Branch(kids, seps) && Agree(Q, R, ReachKids(Q, kids, h - 1))
    ensures Light(P, id, h, R, [nid], 0)
  {
    hide Load, LoadKids, Spare, Pow2;
    BranchLoad(R, nid, h);
    LoadFrameKids(Q, R, kids, h - 1);
    LoadKidsOne(R, nid, h);
  }

  /** Splitting a branch frees two separators of its level, which pay for one of the next. */
  lemma SparesPay(h: nat, point: nat, n: nat)
    requires 0 < point && point + 1 < n
    ensures Spare(h, point) + Spare(h, n - 1 - point) + Pow2(h + 1) == Spare(h, n)
  {
    var p, a, b := Pow2(h), Extra(point), Extra(n - 1 - point);
    assert Extra(n) == a + b + 2;
    assert p * (a + b + 2) == p * a + p * b + 2 * p;
  }

  /** Two branches in place of `id`. */
  lemma LightTwo(P: Store, id: nat, h: nat, Q: Store, kids: seq<nat>, seps: seq<Bytes>, R: Store, point: nat,
                 nid: nat, rid: nat)
    requires h > 0 && LightBranch(P, id, h, Q, kids, |seps|) && |kids| == |seps| + 1
    requires 0 < point && point + 1 < |seps|
    requires nid in R && R[nid] == Branch(kids[..point + 1], seps[..point])
    requires rid in R && R[rid] == Branch(kids[point + 1..], seps[point + 1..])
    requires Agree(Q, R, ReachKids(Q, kids, h - 1))
    ensures Light(P, id, h, R, [nid, rid], 1)
  {
    hide Load, LoadKids, Spare, Pow2;
    BranchLoad(R, nid, h);
    BranchLoad(R, rid, h);
    LoadFrameKids(Q, R, kids, h - 1);
    assert kids == kids[..point + 1] + kids[point + 1..];
    LoadKidsConcat(R, kids[..point + 1], kids[point + 1..], h - 1);
    assert [nid, rid] == [nid] + [rid];
    LoadKidsConcat(R, [nid], [rid], h);
    LoadKidsOne(R, nid, h);
    LoadKidsOne(R, rid, h);
    SparesPay(h - 1, point, |seps|);
  }

  /** At most one entry more than leaf `id` had. */
  predicate OneMore(P: Store, id: nat, n: nat) { id in P && P[id].Leaf? && n <= |P[id].entries| + 1 }

  lemma LightLeaf(P: Store, id: nat, R: Store, nid: nat, entries: seq<Entry>)
    requires OneMore(P, id, |entries|) && nid in R && R[nid] == Leaf(entries)
    ensures Light(P, id, 0, R, [nid], 0)
  {
    LoadKidsOne(R, nid, 0);
  }

  lemma LightLeaves(P: Store, id: nat, R: Store, nid: nat, rid: nat, entries: seq<Entry>, point: nat)
    requires OneMore(P, id, |entries|) && 0 < point < |entries|
    requires nid in R && R[nid] == Leaf(entries[..point]) && rid in R && R[rid] == Leaf(entries[point..])
    ensures Light(P, id, 0, R, [nid, rid], 1)
  {
    assert [nid, rid] == [nid] + [rid];
    LoadKidsConcat(R, [nid], [rid], 0);
    LoadKidsOne(R, nid, 0);
    LoadKidsOne(R, rid, 0);
  }

  // ---- whole trees ----

  /** What a tree weighs: every level counts once more on its own. */
  ghost function Weight(P: Store, root: nat, h: nat): nat { Load(P, root, h) + Pow2(h) }

  /** A new root above two halves. */
  lemma LightRoot(P: Store, id: nat, h: nat, Q: Store, left: nat, sep: Bytes, right: nat, R: Store, top: nat)
    requires Light(P, id, h, Q, [left, right], 1)
    requires top in R && R[top] == Branch([left, right], [sep]) && Agree(Q, R, ReachKids(Q, [left, right], h))
    ensures Weight(R, top, h + 1) <= Weight(P, id, h) + 1
  {
    hide Load, LoadKids;
    BranchLoad(R, top, h + 1);
    LoadFrameKids(Q, R, [left, right], h);
  }

  /** A branch without separators weighs no less than its child. */
  lemma OnlyChildLighter(P: Store, id: nat, h: nat)
    requires h > 0 && id in P && P[id].Branch? && |P[id].kids| == 1
    ensures Weight(P, P[id].kids[0], h - 1) <= Weight(P, id, h)
  {
    hide Load, LoadKids, Spare;
    BranchLoad(P, id, h);
    LoadKidsOne(P, P[id].kids[0], h - 1);
    assert P[id].kids == [P[id].kids[0]];
  }

  lemma PowDeep()
    ensures Pow2(64) == 0x1_0000_0000_0000_0000
  {
    hide Pow2;
    PowFour();
    PowAdd(4, 4);
    PowAdd(8, 8);
    PowAdd(16, 16);
    PowAdd(32, 32);
  }

  lemma PowFour()
    ensures Pow2(4) == 16
  {
    assert Pow2(2) == 4;
  }

  lemma {:induction false} PowAdd(a: nat, b: nat)
    ensures Pow2(a + b) == Pow2(a) * Pow2(b)
  {
    if a == 0 {
      assert Pow2(0) == 1;
    } else {
      PowAdd(a - 1, b);
      PowStep(a - 1);
      PowStep(a - 1 + b);
      Doubled(Pow2(a - 1), Pow2(b));
    }
  }

  lemma PowStep(n: nat)
    ensures Pow2(n + 1) == 2 * Pow2(n)
  {
  }

  lemma Doubled(x: nat, y: nat)
    ensures 2 * (x * y) == (2 * x) * y
  {
  }
}
