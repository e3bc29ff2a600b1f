/** The copy-on-write B+tree over the pager. */
module BTreeModel {
  import opened Bytes
  import opened Entries
  import opened Pages
  import opened Shape
  import opened Splice
  import opened Alloc
  import opened Graft
  import opened LeafEdit
  import opened Crash
  import opened PagerModel
  import opened Walk
  import opened TreeLoad

  /** What an insert made of the subtree it was applied to. */
  datatype Insert = Kept(page: nat) | Split(left: nat, sep: Bytes, right: nat) {
    function Kids(): seq<nat> { if Kept? then [page] else [left, right] }
    function Seps(): seq<Bytes> { if Kept? then [] else [sep] }
  }

  datatype Snapshot = Snapshot(generation: nat, root: nat)

  datatype Outcome = Done | BadInput | TooDeep

  datatype Removal = Removal(page: nat, removed: bool, empty: bool)

  /** The snapshots pinned at generation `g`. */
  ghost function At(live: map<nat, nat>, g: nat): set<nat> {
    set t | t in live && live[t] == g
  }

  function SaturatingPred(n: nat): nat { if n > 0 then n - 1 else 0 }

  /** The moments an operation added all show the same published tree. */
  ghost predicate Quiet(before: seq<Moment>, after: seq<Moment>, now: Published) {
    && before <= after
    && forall i :: |before| <= i < |after| ==> after[i].now == now && after[i].next == None
  }

  /** The moments a commit added show the old tree, the old one while the new one is
      being published, then the new one. */
  ghost predicate Published3(before: seq<Moment>, after: seq<Moment>, old_: Published, new_: Published) {
    var n := |before|;
    && before <= after && |after| == n + 3
    && after[n].now == old_ && after[n].next == None
    && after[n + 1].now == old_ && after[n + 1].next == Some(new_)
    && after[n + 2].now == new_ && after[n + 2].next == None
  }

  /** What removing `key` below `id` did. */
  ghost predicate Removed(s: State, t: State, id: nat, h: nat, key: Bytes, r: Removal, base: set<nat>) {
    var before := Flat(s.mem, id, h);
    if !r.removed then t == s && Absent(before, key) && r == Removal(id, false, false)
    else
      && !Absent(before, key)
      && (r.empty <==> DelEntry(before, key) == [])
      && if r.empty then Emptied(s, t, id, h, r.page) && (h == 0 ==> r.page in t.mem && t.mem[r.page] == Leaf([]))
         else Grafted(s, t, id, h, [r.page], [], base) && FlatKids(t.mem, [r.page], h) == DelEntry(before, key)
  }

  /** The branch that took over has at least as many separators. */
  ghost predicate Wider(P: Store, id: nat, Q: Store, nid: nat) {
    && id in P && P[id].Branch? && nid in Q && Q[nid].Branch?
    && |Q[nid].seps| >= |P[id].seps|
  }

  function MinKey(m: map<nat, nat>): (k: Option<nat>)
    ensures k.None? <==> m == map[]
    ensures k.Some? ==> k.value in m && forall j :: j in m ==> k.value <= j
  {
    if m == map[] then None else
      HasMin(m.Keys);
      var k :| k in m && forall j :: j in m ==> k <= j;
      Some(k)
  }

  lemma {:induction false} MinExists(s: set<nat>) returns (k: nat)
    requires s != {}
    ensures k in s && forall j :: j in s ==> k <= j
  {
    var x :| x in s;
    if s == {x} { return x; }
    var y := MinExists(s - {x});
    k := if x < y then x else y;
    forall j | j in s ensures k <= j { assert j == x || j in s - {x}; }
  }

  lemma HasMin(s: set<nat>)
    requires s != {}
    ensures exists k :: k in s && forall j :: j in s ==> k <= j
  {
    var k := MinExists(s);
  }

  class BTree {
    const pager: Pager
    var generation: nat
    var root: nat
    var entries: nat
    var free: seq<FreeEntry>
    var dirty: set<nat>
    var readers: map<nat, nat>
    ghost var height: nat
    ghost var live: map<nat, nat>

    ghost function S(): State
      reads this`free, this`dirty, this`generation, this`readers, pager
    {
      State(pager.pages, pager.pageCount, free, dirty, generation, MinKey(readers))
    }

    ghost function Committed(): set<nat>
      reads pager
    {
      pager.now.view.pages
    }

    /** Holds throughout an operation: nothing published or pinned is up for writing. */
    ghost predicate Busy()
      reads this`free, this`dirty, this`generation, this`readers, pager
    {
      && pager.Valid() && pager.next == None
      && StateOK(S())
      && Base(S(), Committed())
      && forall p :: pager.Guarded(p) ==> InUse(S(), p) && p !in dirty
    }

    lemma BusyBounds()
      requires Busy()
      ensures forall p: nat :: p in pager.now.view.pages ==> p < pager.pageCount && p !in dirty
      ensures forall t :: t in pager.pins ==> forall p: nat :: p in pager.pins[t].view.pages ==>
                  p < pager.pageCount && p !in dirty
      ensures pager.prev.Some? ==> forall p: nat :: p in pager.prev.value.view.pages ==>
                  p < pager.pageCount && p !in dirty
    {
      hide Pager.Valid, StateOK, Base;
      forall p: nat | p in pager.now.view.pages ensures p < pager.pageCount && p !in dirty {
        assert pager.Guarded(p);
      }
      forall t | t in pager.pins
        ensures forall p: nat :: p in pager.pins[t].view.pages ==> p < pager.pageCount && p !in dirty
      {
        forall p: nat | p in pager.pins[t].view.pages
          ensures p < pager.pageCount && p !in dirty
        {
          assert pager.Guarded(p);
        }
      }
      if pager.prev.Some? {
        forall p: nat | p in pager.prev.value.view.pages ensures p < pager.pageCount && p !in dirty {
          assert pager.Guarded(p);
        }
      }
    }

    /** The bounds of every guarded page, from those of each view. */
    lemma GuardBounds()
      requires forall p: nat :: p in pager.now.view.pages ==> p < pager.pageCount && p !in dirty
      requires forall t :: t in pager.pins ==> forall p: nat :: p in pager.pins[t].view.pages ==>
                   p < pager.pageCount && p !in dirty
      requires pager.prev.Some? ==> forall p: nat :: p in pager.prev.value.view.pages ==>
                   p < pager.pageCount && p !in dirty
      ensures forall p: nat :: pager.Guarded(p) ==> p < pager.pageCount && p !in dirty
    {
      forall p: nat | pager.Guarded(p) ensures p < pager.pageCount && p !in dirty {
        if p !in pager.now.view.pages && !(pager.prev.Some? && p in pager.prev.value.view.pages) {
          var t :| t in pager.pins && p in pager.pins[t].view.pages;
        }
      }
    }

    lemma BusyFacts()
      requires Busy()
      ensures StateOK(S()) && Base(S(), Committed())
    {
    }

    /** `readers` counts the live snapshots of each generation; `live` names them. */
    ghost predicate ReadersOK()
      reads this`readers, this`live
    {
      && (forall g :: g in readers <==> At(live, g) != {})
      && (forall g :: g in readers ==> readers[g] == |At(live, g)|)
    }

    ghost predicate Valid()
      reads this, pager
    {
      && Busy()
      && Books()
      && Tree()
      && entries == |Contents()|
    }

    /** The working tree is whole, and stands on pages that are its own. */
    ghost predicate Tree()
      reads this`free, this`dirty, this`generation, this`readers, this`root, this`height, pager
    {
      && WF(pager.pages, root, height) && RootOK(pager.pages, root, height)
      && Owned(S(), Reach(pager.pages, root, height), Committed())
    }

    /** The entries of the tree being built, in key order. */
    ghost function Contents(): seq<Entry>
      reads this`root, this`height, pager
    {
      Flat(pager.pages, root, height)
    }

    /** What it weighs. */
    ghost function Weighs(): nat
      reads this`root, this`height, pager
    {
      Weight(pager.pages, root, height)
    }

    /** Open the file a crash (or a clean close) left. */
    constructor Reopen(img: Store, meta: Meta, ghost view: View, ghost before: Option<Published>)
      requires Settled(img, meta) && Holds(img, view) && PublishedOK(Published(meta, view))
      requires before.Some? ==> Fallback(img, before.value, Published(meta, view))
      ensures Valid() && fresh(pager)
      ensures pager.now == Published(meta, view) && pager.prev == before && pager.disk == Disk(img, img, map[])
      ensures Contents() == view.entries && generation == meta.generation && dirty == {}
      ensures Weighs() == view.weight && height == view.height
      ensures readers == map[] && live == map[]
    {
      hide Linked, WF, Flat, FlatKids, Reach, ReachKids, Pager.Valid, Holds, RootOK, Settled;
      pager := new Pager.Reopen(img, meta, view, before);
      generation, root, entries, free, dirty := meta.generation, meta.root, meta.entries, meta.free, {};
      readers := map[];
      height := view.height;
      live := map[];
      new;
      ReopenState(img, meta, view);
      HoldsWeight(img, view);
      if before.Some? { FallbackState(img, before.value, Published(meta, view)); }
      assert MinKey(readers) == None;
      NotFreedStamped(S(), view.pages, view.pages);
      GuardBounds();
      GuardHolds();
    }

    /** A new index: one empty leaf, published as generation 1. */
    constructor Create()
      ensures Valid() && fresh(pager)
      ensures Contents() == [] && height == 0 && generation == 1 && dirty == {}
      ensures readers == map[] && live == map[]
      ensures pager.disk == CreationDisk(4) && pager.now == Published(FirstMeta(), EmptyView()) && Weighs() == 1
    {
      hide Linked, WF, Flat, FlatKids, Reach, ReachKids, Pager.Valid, Holds, RootOK, Settled;
      var meta := FirstMeta();
      var img := map[FIRST_DATA_PAGE := Leaf([])];
      img := img[META_B := MetaPage(meta)];
      ghost var view := EmptyView();
      EmptyIndex(img, meta, view);
      pager := new Pager.Reopen(img, meta, view, None);
      generation, root, entries, free, dirty := meta.generation, meta.root, meta.entries, meta.free, {};
      readers := map[];
      height := view.height;
      live := map[];
      new;
      ReopenState(img, meta, view);
      assert MinKey(readers) == None;
      NotFreedStamped(S(), view.pages, view.pages);
      GuardBounds();
      GuardHolds();
    }

    // ----------------------------------------------------------------
    // Allocation
    // ----------------------------------------------------------------

    /** A page id safe to write, recorded as copied in this generation. */
    method Allocate() returns (id: nat)
      requires Busy()
      modifies this`free, this`dirty, pager`pageCount
      ensures Busy() && Grown(old(S()), S(), {})
      ensures id in dirty && id !in old(dirty) && !Freed(S(), id)
      ensures pager.pageCount >= old(pager.pageCount)
      ensures dirty == old(dirty) + {id}
      ensures FirstReusable(old(S()), S(), id)
    {
      hide Linked, WF, Flat, FlatKids, Reach, ReachKids, Recoverable, DiskOK, Holds, Pinned, SwapRemove;
      ghost var s := S();
      var i := FindReusable();
      if i < |free| {
        ReuseGrown(s, i);
        id := free[i].page;
        free := SwapRemove(free, i);
      } else {
        ExtendGrown(s);
        id := pager.Allocate();
      }
      dirty := dirty + {id};
      BaseGrown(s, S(), {}, Committed());
      assert i < |s.free| ==> TakesFirst(s, S(), id, i);
    }

    /** The first reusable entry of the free list, or its end. */
    method FindReusable() returns (i: nat)
      ensures i <= |free| && (i < |free| ==> Reusable(free[i], generation, MinKey(readers)))
      ensures forall j :: 0 <= j < i ==> !Reusable(free[j], generation, MinKey(readers))
    {
      var oldest := MinKey(readers);
      i := 0;
      while i < |free| && !Reusable(free[i], generation, oldest)
        invariant 0 <= i <= |free|
        invariant forall j :: 0 <= j < i ==> !Reusable(free[j], generation, oldest)
      {
        i := i + 1;
      }
    }

    /** Record a superseded page for later reuse; past the bound it is leaked. */
    method Release(page: nat)
      requires Busy() && InUse(S(), page) && !Freed(S(), page) && page >= FIRST_DATA_PAGE
      modifies this`free
      ensures Busy() && Grown(old(S()), S(), {page})
      ensures free == if |old(free)| < MAX_FREE_ENTRIES then old(free) + [FreeEntry(generation + 1, page)]
                  else old(free)
    {
      hide Linked, WF, Flat, FlatKids, Reach, ReachKids, Recoverable, DiskOK, Holds, Pinned;
      ghost var s := S();
      if |free| >= MAX_FREE_ENTRIES {
        GrownRefl(s, {page});
        return;
      }
      ReleaseGrown(s, page);
      free := free + [FreeEntry(generation + 1, page)];
      BaseGrown(s, S(), {page}, Committed());
    }

    /** The id to write page `id`'s new contents under: itself when it was already
        copied in this generation, else a fresh page, releasing the original. */
    method Cow(id: nat) returns (copy: nat)
      requires Busy() && InUse(S(), id) && !Freed(S(), id) && id >= FIRST_DATA_PAGE
      modifies this`free, this`dirty, pager`pageCount
      ensures id in old(dirty) ==> copy == id
      ensures id !in old(dirty) ==> copy !in old(dirty) && (Freed(S(), id) || |free| >= MAX_FREE_ENTRIES)
      ensures Busy() && Grown(old(S()), S(), {id}) && Home(old(S()), S(), id, copy)
    {
      hide Linked, WF, Flat, FlatKids, Reach, ReachKids, Recoverable, DiskOK, Holds, Pinned, FirstReusable;
      ghost var s := S();
      if id in dirty {
        GrownRefl(s, {id});
        return id;
      }
      copy := Allocate();
      ghost var t := S();
      assert InUse(t, id) && !Freed(t, id) && copy != id;
      Release(id);
      GrownTrans(s, t, S(), {}, {id}, {id});
      assert !Freed(S(), copy);
      assert |t.free| < MAX_FREE_ENTRIES ==> FreeEntry(generation + 1, id) in free;
    }

    method WritePage(id: nat, page: Page)
      requires Busy() && id in dirty
      modifies pager`pages, pager`disk, pager`history
      ensures old(pager.history) <= pager.history
      ensures Busy() && pager.pages == old(pager.pages)[id := page]
      ensures Grown(old(S()), S(), {id})
    {
      hide Linked, WF, Flat, FlatKids, Reach, ReachKids, Recoverable, DiskOK, Holds, Pinned;
      ghost var s := S();
      WriteGrown(s, id, page, {id});
      pager.Write(id, page);
      BaseGrown(s, S(), {id}, Committed());
    }

    // ----------------------------------------------------------------
    // Insert
    // ----------------------------------------------------------------

    method InsertIntoLeaf(id: nat, key: Bytes, value: Bytes, ghost base: set<nat>) returns (r: Insert)
      requires Busy() && base == Committed()
      requires WF(pager.pages, id, 0) && Owned(S(), {id}, base)
      requires |key| <= MAX_KEY_LEN && |value| <= MAX_VALUE_LEN
      modifies this`free, this`dirty, pager`pageCount, pager`pages, pager`disk, pager`history
      ensures id in old(dirty) ==> r.Kids()[0] == id
      ensures old(pager.history) <= pager.history
      ensures Busy()
      ensures Grafted(old(S()), S(), id, 0, r.Kids(), r.Seps(), base)
      ensures FlatKids(pager.pages, r.Kids(), 0) == PutEntry(old(pager.pages[id].entries), key, value)
    {
      hide Linked, FlatKids, ReachKids, Recoverable, DiskOK, Holds, Pinned, Used, PutEntry, Sorted, Base;
      ghost var s := S();
      var list := pager.pages[id].entries;
      var copy := Cow(id);
      var index, found := LeafSearch(list, key);
      var cell := Entry(key, value);
      var cells := PutAt(list, index, found, cell);
      PutAtFacts(list, key, value, index, found);
      PutAtUsed(list, index, found, cell);
      var space := CAPACITY - Used(LeafLens(list));
      if (if found then space + LeafCellLen(list[index]) >= LeafCellLen(cell)
          else space >= LeafCellLen(cell) + SLOT_LEN) {
        ReplaceLeaf(s, id, copy, cells, base);
        return Kept(copy);
      }
      OverfullCuts(list, cells, LeafCellLen(cell) + SLOT_LEN);
      var point := SplitPoint(LeafLens(cells));
      CutHalves(cells, point.value);
      var right := SplitLeaf(s, id, copy, cells, point.value, base);
      return Split(copy, cells[point.value].key, right);
    }

    /** Write one leaf in place of `id`. */
    method ReplaceLeaf(ghost s: State, id: nat, copy: nat, cells: seq<Entry>, ghost base: set<nat>)
      requires Busy() && Grown(s, S(), {id}) && Home(s, S(), id, copy) && s.mem == pager.pages
      requires LeafOK(cells) && cells != [] && OneMore(s.mem, id, |cells|)
      modifies pager`pages, pager`disk, pager`history
      ensures old(pager.history) <= pager.history
      ensures Busy()
      ensures Grafted(s, S(), id, 0, [copy], [], base)
      ensures FlatKids(pager.pages, [copy], 0) == cells
    {
      hide Linked, WF, Flat, FlatKids, Reach, ReachKids, LeafOK, Recoverable, DiskOK, Holds, Pinned, FirstReusable;
      ghost var t := S();
      WritePage(copy, Leaf(cells));
      GrownTrans(s, t, S(), {id}, {copy}, {id});
      GraftLeaf(s, S(), id, copy, cells, base);
    }

    /** Write two leaves in place of `id`; the right one on a new page. */
    method SplitLeaf(ghost s: State, id: nat, copy: nat, cells: seq<Entry>, point: nat, ghost base: set<nat>)
      returns (right: nat)
      requires Busy() && Grown(s, S(), {id}) && Home(s, S(), id, copy) && s.mem == pager.pages
      requires InUse(s, id) && OneMore(s.mem, id, |cells|)
      requires 0 < point < |cells| && Sorted(cells) && LeafOK(cells[..point]) && LeafOK(cells[point..])
      modifies this`free, this`dirty, pager`pageCount, pager`pages, pager`disk, pager`history
      ensures old(pager.history) <= pager.history
      ensures Busy()
      ensures Grafted(s, S(), id, 0, [copy, right], [cells[point].key], base)
      ensures FlatKids(pager.pages, [copy, right], 0) == cells
    {
      hide Linked, WF, Flat, FlatKids, Reach, ReachKids, LeafOK, Recoverable, DiskOK, Holds, Pinned, FirstReusable,
           Busy, Sorted;
      ghost var t := S();
      right := Allocate();
      ghost var u := S();
      GrownTrans(s, t, u, {id}, {}, {id});
      WritePage(copy, Leaf(cells[..point]));
      ghost var v := S();
      GrownTrans(s, u, v, {id}, {copy}, {id});
      WritePage(right, Leaf(cells[point..]));
      GrownTrans(s, v, S(), {id}, {right}, {id});
      GraftLeaves(s, S(), id, copy, right, cells, point, base);
    }

    /** Write one branch in place of `id`. */
    method ReplaceBranch(ghost s: State, id: nat, kids: seq<nat>, seps: seq<Bytes>, ghost h: nat, ghost base: set<nat>)
      returns (copy: nat)
      requires h > 0 && WF(s.mem, id, h) && Busy() && Ready(s, S(), id, h, kids, seps, base)
      requires InUse(S(), id) && !Freed(S(), id) && Fits(BranchLens(seps))
      modifies this`free, this`dirty, pager`pageCount, pager`pages, pager`disk, pager`history
      ensures id in old(dirty) ==> copy == id
      ensures old(pager.history) <= pager.history
      ensures Busy()
      ensures Grafted(s, S(), id, h, [copy], [], base)
      ensures FlatKids(pager.pages, [copy], h) == old(FlatKids(pager.pages, kids, h - 1))
      ensures copy in pager.pages && pager.pages[copy] == Branch(kids, seps)
    {
      hide Linked, WF, Flat, FlatKids, Reach, ReachKids, Busy, Ready, FirstReusable;
      BranchFacts(s.mem, id, h);
      ghost var t := S();
      copy := Cow(id);
      ghost var u := S();
      WritePage(copy, Branch(kids, seps));
      GrownTrans(t, u, S(), {id}, {copy}, {id});
      SelfReach(s.mem, id, h);
      ReadyFacts(s, t, id, h, kids, seps, base);
      GraftOne(s, t, S(), id, h, kids, seps, copy, {id}, base);
    }

    /** Write two branches in place of `id`, promoting the separator at `point`. */
    method SplitBranch(ghost s: State, id: nat, kids: seq<nat>, seps: seq<Bytes>, point: nat, ghost h: nat,
                       ghost base: set<nat>) returns (copy: nat, right: nat)
      requires h > 0 && WF(s.mem, id, h) && Busy() && Ready(s, S(), id, h, kids, seps, base)
      requires InUse(S(), id) && !Freed(S(), id)
      requires |kids| == |seps| + 1 && 0 < point && point + 1 < |seps|
      requires Fits(BranchLens(seps[..point])) && Fits(BranchLens(seps[point + 1..]))
      modifies this`free, this`dirty, pager`pageCount, pager`pages, pager`disk, pager`history
      ensures id in old(dirty) ==> copy == id
      ensures old(pager.history) <= pager.history
      ensures Busy()
      ensures Grafted(s, S(), id, h, [copy, right], [seps[point]], base)
      ensures FlatKids(pager.pages, [copy, right], h) == old(FlatKids(pager.pages, kids, h - 1))
    {
      hide Linked, WF, Flat, FlatKids, Reach, ReachKids, Busy, Ready, FirstReusable;
      BranchFacts(s.mem, id, h);
      ghost var t := S();
      copy := Cow(id);
      ghost var u := S();
      right := Allocate();
      ghost var v := S();
      GrownTrans(t, u, v, {id}, {}, {id});
      WritePage(copy, Branch(kids[..point + 1], seps[..point]));
      ghost var w := S();
      GrownTrans(t, v, w, {id}, {copy}, {id});
      WritePage(right, Branch(kids[point + 1..], seps[point + 1..]));
      GrownTrans(t, w, S(), {id}, {right}, {id});
      GraftTwo(s, t, S(), id, h, kids, seps, point, copy, right, base);
    }

    /** Insert below page `id`. A tree deeper than the walk limit is refused before
        anything changes. */
    method InsertInto(id: nat, key: Bytes, value: Bytes, depth: nat, ghost h: nat, ghost base: set<nat>)
      returns (ok: bool, r: Insert)
      requires Busy() && base == Committed()
      requires WF(pager.pages, id, h) && Owned(S(), Reach(pager.pages, id, h), base)
      requires |key| <= MAX_KEY_LEN && |value| <= MAX_VALUE_LEN
      modifies this`free, this`dirty, pager`pageCount, pager`pages, pager`disk, pager`history
      ensures ok && id in old(dirty) ==> r.Kids()[0] == id
      ensures old(pager.history) <= pager.history
      ensures Busy()
      ensures ok <==> depth + h < MAX_TREE_DEPTH
      ensures !ok ==> S() == old(S())
      ensures ok ==> Grafted(old(S()), S(), id, h, r.Kids(), r.Seps(), base)
      ensures ok ==> FlatKids(pager.pages, r.Kids(), h) == PutEntry(old(Flat(pager.pages, id, h)), key, value)
      ensures ok && h > 0 && r.Kept? ==> Wider(old(pager.pages), id, pager.pages, r.page)
      decreases h, 1
    {
      if depth >= MAX_TREE_DEPTH { return false, Kept(id); }
      if pager.pages[id].Leaf? {
        r := InsertIntoLeaf(id, key, value, base);
        return true, r;
      } else {
        ok, r := InsertIntoBranch(id, key, value, depth, h, base);
      }
    }

    method InsertIntoBranch(id: nat, key: Bytes, value: Bytes, depth: nat, ghost h: nat, ghost base: set<nat>)
      returns (ok: bool, r: Insert)
      requires Busy() && base == Committed() && h > 0
      requires WF(pager.pages, id, h) && Owned(S(), Reach(pager.pages, id, h), base)
      requires |key| <= MAX_KEY_LEN && |value| <= MAX_VALUE_LEN
      modifies this`free, this`dirty, pager`pageCount, pager`pages, pager`disk, pager`history
      ensures ok && id in old(dirty) ==> r.Kids()[0] == id
      ensures old(pager.history) <= pager.history
      ensures Busy()
      ensures ok <==> depth + h < MAX_TREE_DEPTH
      ensures !ok ==> S() == old(S())
      ensures ok ==> Grafted(old(S()), S(), id, h, r.Kids(), r.Seps(), base)
      ensures ok ==> FlatKids(pager.pages, r.Kids(), h) == PutEntry(old(Flat(pager.pages, id, h)), key, value)
      ensures ok && r.Kept? ==> Wider(old(pager.pages), id, pager.pages, r.page)
      decreases h, 0
    {
      hide Linked, WF, Flat, FlatKids, Reach, ReachKids, Busy, Ready, PutEntry, Used;
      ghost var s := S();
      BusyFacts();
      BranchFacts(pager.pages, id, h);
      var kids, seps := pager.pages[id].kids, pager.pages[id].seps;
      var slot := Route(seps, key);
      InsertBelow(pager.pages, kids, seps, h - 1, slot, key, value);
      ChildOwned(s, id, h, slot, base);
      ok, r := InsertInto(kids[slot], key, value, depth + 1, h - 1, base);
      if !ok { return; }
      ghost var t := S();
      LinkedFacts(t.mem, r.Kids(), r.Seps(), h - 1);
      assert r.Split? ==> r.Seps()[0] == r.sep;
      assert r.Kept? ==> r.Kids()[0] == r.page;
      Regraft(s, t, id, h, slot, r.Kids(), r.Seps(), base);
      r := RewriteBranch(s, id, slot, r, h, base);
    }

    /** Point the branch at what the insert made of its child, splitting it if need be. */
    method RewriteBranch(ghost s: State, id: nat, slot: nat, below: Insert, ghost h: nat, ghost base: set<nat>)
      returns (r: Insert)
      requires h > 0 && WF(s.mem, id, h) && Busy() && base == Committed()
      requires Owned(s, Reach(s.mem, id, h), base) && Base(s, base)
      requires Untouched(s, S(), id) && slot < |s.mem[id].kids| && slot <= |s.mem[id].seps|
      requires below.Kept? ==> below.page in dirty
      requires below.Split? ==> |below.sep| <= MAX_KEY_LEN
      requires Ready(s, S(), id, h, SpliceKids(s.mem[id].kids, slot, below.Kids()),
                     SpliceSeps(s.mem[id].seps, slot, below.Seps()), base)
      modifies this`free, this`dirty, pager`pageCount, pager`pages, pager`disk, pager`history
      ensures id in old(dirty) ==> r.Kids()[0] == id
      ensures old(pager.history) <= pager.history
      ensures Busy()
      ensures Grafted(s, S(), id, h, r.Kids(), r.Seps(), base)
      ensures FlatKids(pager.pages, r.Kids(), h) ==
                  old(FlatKids(pager.pages, SpliceKids(s.mem[id].kids, slot, below.Kids()), h - 1))
      ensures r.Kept? ==> Wider(s.mem, id, pager.pages, r.page)
    {
      hide Linked, WF, Flat, FlatKids, Reach, ReachKids, Busy, Ready, Used, Grown, Owned, Base, FirstReusable;
      BranchFacts(s.mem, id, h);
      var kids, seps := pager.pages[id].kids, pager.pages[id].seps;
      match below {
        case Kept(child) =>
          SpliceSame(kids, seps, slot, child);
          if child == kids[slot] {
            assert kids[slot := child] == kids;
            GraftInPlace(s, S(), id, h, slot, base);
            return Kept(id);
          }
          var copy := ReplaceBranch(s, id, kids[slot := child], seps, h, base);
          return Kept(copy);
        case Split(left, sep, right) =>
          var newKids, newSeps := SpliceKids(kids, slot, [left, right]), SpliceSeps(seps, slot, [sep]);
          SpliceUsed(seps, slot, sep);
          if CAPACITY - Used(BranchLens(seps)) >= BranchCellLen(sep) + SLOT_LEN {
            var copy := ReplaceBranch(s, id, newKids, newSeps, h, base);
            return Kept(copy);
          }
          OverfullBranchCuts(seps, slot, sep);
          var point := SplitPoint(BranchLens(newSeps));
          CutBranchHalves(newSeps, point.value);
          var copy, rightCopy := SplitBranch(s, id, newKids, newSeps, point.value, h, base);
          return Split(copy, newSeps[point.value], rightCopy);
      }
    }

    /** A new root above the two halves of the old one. */
    method NewRoot(ghost s: State, id: nat, left: nat, sep: Bytes, right: nat, ghost h: nat, ghost base: set<nat>)
      returns (top: nat)
      requires Busy() && Grafted(s, S(), id, h, [left, right], [sep], base)
      modifies this`free, this`dirty, pager`pageCount, pager`pages, pager`disk, pager`history
      ensures old(pager.history) <= pager.history
      ensures Busy() && Grown(s, S(), Reach(s.mem, id, h))
      ensures WF(pager.pages, top, h + 1) && RootOK(pager.pages, top, h + 1)
      ensures Owned(S(), Reach(pager.pages, top, h + 1), base)
      ensures Flat(pager.pages, top, h + 1) == old(FlatKids(pager.pages, [left, right], h))
      ensures Flat(pager.pages, left, h) != []
      ensures Weight(pager.pages, top, h + 1) <= Weight(s.mem, id, h) + 1
    {
      hide Linked, WF, Flat, FlatKids, Reach, ReachKids, Busy, FirstReusable, Light, Weight;
      ghost var t := S();
      ghost var below := ReachKids(t.mem, [left, right], h);
      top := Allocate();
      ghost var u := S();
      WritePage(top, Branch([left, right], [sep]));
      LinkedFacts(t.mem, [left, right], [sep], h);
      assert |[sep][0]| <= MAX_KEY_LEN;
      OneSepFits(sep);
      KidsExist(t.mem, [left, right], [sep], h);
      PlaceBranch(t.mem, pager.pages, top, [left, right], [sep], h + 1);
      LightRoot(s.mem, id, h, t.mem, left, sep, right, pager.pages, top);
      BranchFacts(pager.pages, top, h + 1);
      KidWF(pager.pages, [left, right], [sep], h, 0);
      GrownTrans(t, u, S(), {}, {top}, {});
      OwnedKept(t, S(), {}, below, base);
      GrownTrans(s, t, S(), Reach(s.mem, id, h), {}, Reach(s.mem, id, h));
    }

    /** What `Valid` asks beyond the working tree itself. */
    ghost predicate Books()
      reads this`free, this`generation, this`readers, this`live, pager
    {
      && pager.now.meta.generation == generation && pager.now.view.generation == generation
      && (pager.prev.Some? ==> pager.prev.value.view.generation + 1 == generation)
      && Stamped(free, pager.now.view.pages, generation)
      && (pager.prev.Some? ==> Stamped(free, pager.prev.value.view.pages, pager.prev.value.view.generation))
      && ReadersOK() && (forall t :: t in live ==> live[t] <= generation)
      && (forall t :: t in pager.pins ==> t in live && live[t] == pager.pins[t].view.generation)
      && (forall t :: t in pager.pins ==> Stamped(free, pager.pins[t].view.pages, pager.pins[t].view.generation))
    }

    twostate lemma BooksGrown(scope: set<nat>)
      requires old(Books()) && Grown(old(S()), S(), scope)
      requires unchanged(this`generation, this`readers, this`live) && unchanged(pager`now, pager`prev, pager`pins)
      ensures Books()
    {
      var s, t := old(S()), S();
      StampedGrown(s, t, scope, pager.now.view.pages, generation);
      if pager.prev.Some? { StampedGrown(s, t, scope, pager.prev.value.view.pages, pager.prev.value.view.generation); }
      forall k | k in pager.pins ensures Stamped(free, pager.pins[k].view.pages, pager.pins[k].view.generation) {
        StampedGrown(s, t, scope, pager.pins[k].view.pages, pager.pins[k].view.generation);
      }
    }

    /** Nothing was published between the two states. */
    twostate lemma StayedQuiet()
      requires old(Busy()) && Busy() && unchanged(pager`now) && old(pager.history) <= pager.history
      ensures Quiet(old(pager.history), pager.history, pager.now)
    {
      hide MomentOK, StateOK, Base, Pinned, InUse, FirstReusable;
      var a, b := old(pager.history), pager.history;
      assert a[|a| - 1] == b[|a| - 1];
      NowSteady(b, |a| - 1, |b| - 1);
    }

    method RootInsert(key: Bytes, value: Bytes) returns (kept: bool)
      requires Valid() && height < MAX_TREE_DEPTH && |key| <= MAX_KEY_LEN && |value| <= MAX_VALUE_LEN
      modifies this`root, this`free, this`dirty, this`height
      modifies pager`pageCount, pager`pages, pager`disk, pager`history
      ensures old(root) in old(dirty) ==> Flat(pager.pages, old(root), old(height)) != []
      ensures old(pager.history) <= pager.history
      ensures Busy() && Books() && Tree()
      ensures Contents() == PutEntry(old(Contents()), key, value)
      ensures height == old(height) + if kept then 0 else 1
      ensures Weighs() <= old(Weighs()) + 1
    {
      hide Linked, WF, Flat, FlatKids, Reach, ReachKids, Busy, Books, PutEntry, Light, Weight;
      ghost var s, base, h, top := S(), Committed(), height, root;
      var ok, r := InsertInto(root, key, value, 0, height, base);
      match r {
        case Kept(page) =>
          LightTree(s.mem, top, h, pager.pages, page);
          LinkedOnly(pager.pages, page, h);
          LinkedFlat(pager.pages, [page], [], h);
          root := page;
          RootKept(s.mem, top, pager.pages, page, h);
          kept := true;
        case Split(left, sep, right) =>
          root := NewRoot(s, root, left, sep, right, h, base);
          height := height + 1;
          kept := false;
      }
      BooksGrown(Reach(s.mem, top, h));
    }

    /** Insert or replace `key`. */
    method Put(key: Bytes, value: Bytes) returns (r: Outcome)
      requires Valid()
      modifies this`root, this`entries, this`free, this`dirty, this`height
      modifies pager`pageCount, pager`pages, pager`disk, pager`history
      ensures Valid()
      ensures r == BadInput <==> !(1 <= |key| <= MAX_KEY_LEN && |value| <= MAX_VALUE_LEN)
      ensures r == TooDeep <==> r != BadInput && old(height) >= MAX_TREE_DEPTH
      ensures r == Done ==> Contents() == PutEntry(old(Contents()), key, value)
      ensures r != Done ==> Contents() == old(Contents()) && S() == old(S())
      ensures old(height) <= height <= old(height) + 1
      ensures r == Done && old(root) in old(dirty) ==> Flat(pager.pages, old(root), old(height)) != []
      ensures Weighs() <= old(Weighs()) + 1
      ensures Quiet(old(pager.history), pager.history, pager.now)
    {
      hide Linked, WF, Flat, FlatKids, Reach, ReachKids, Busy, Books, PutEntry, Weight;
      if |key| == 0 || |key| > MAX_KEY_LEN || |value| > MAX_VALUE_LEN { return BadInput; }
      var ok, existing := GetAt(pager.pages, root, key, height);
      if !ok { return TooDeep; }
      PutCounts(pager.pages, root, height, key, value);
      var kept := RootInsert(key, value);
      if existing.None? { entries := entries + 1; }
      StayedQuiet();
      return Done;
    }

    // ----------------------------------------------------------------
    // Remove
    // ----------------------------------------------------------------

    method RemoveFromLeaf(id: nat, key: Bytes, ghost base: set<nat>) returns (r: Removal)
      requires Busy() && base == Committed()
      requires WF(pager.pages, id, 0) && Owned(S(), {id}, base)
      modifies this`free, this`dirty, pager`pageCount, pager`pages, pager`disk, pager`history
      ensures r.removed && id in old(dirty) ==> r.page == id
      ensures old(pager.history) <= pager.history
      ensures Busy() && Removed(old(S()), S(), id, 0, key, r, base)
    {
      hide Linked, FlatKids, ReachKids, Busy, Sorted, DelEntry, FirstReusable, WF, Flat, Reach, LeafOK, Absent;
      ghost var s := S();
      LeafShape(pager.pages, id);
      var list := pager.pages[id].entries;
      var index, found := LeafSearch(list, key);
      if !found {
        SearchedAbsent(list, key, index);
        return Removal(id, false, false);
      }
      RemoveAtFacts(list, key, index);
      var copy := Cow(id);
      ghost var t := S();
      var cells := RemoveAt(list, index);
      WritePage(copy, Leaf(cells));
      GrownTrans(s, t, S(), {id}, {copy}, {id});
      if |cells| > 0 { GraftLeaf(s, S(), id, copy, cells, base); }
      return Removal(copy, true, |cells| == 0);
    }

    method RemoveFrom(id: nat, key: Bytes, depth: nat, ghost h: nat, ghost base: set<nat>)
      returns (ok: bool, r: Removal)
      requires Busy() && base == Committed()
      requires WF(pager.pages, id, h) && Owned(S(), Reach(pager.pages, id, h), base)
      modifies this`free, this`dirty, pager`pageCount, pager`pages, pager`disk, pager`history
      ensures ok && r.removed && id in old(dirty) ==> r.page == id
      ensures old(pager.history) <= pager.history
      ensures Busy()
      ensures ok <==> depth + h < MAX_TREE_DEPTH
      ensures !ok ==> S() == old(S())
      ensures ok ==> Removed(old(S()), S(), id, h, key, r, base)
      decreases h, 1
    {
      if depth >= MAX_TREE_DEPTH { return false, Removal(id, false, false); }
      if pager.pages[id].Leaf? {
        r := RemoveFromLeaf(id, key, base);
        return true, r;
      } else {
        ok, r := RemoveFromBranch(id, key, depth, h, base);
      }
    }

    method RemoveFromBranch(id: nat, key: Bytes, depth: nat, ghost h: nat, ghost base: set<nat>)
      returns (ok: bool, r: Removal)
      requires Busy() && base == Committed() && h > 0
      requires WF(pager.pages, id, h) && Owned(S(), Reach(pager.pages, id, h), base)
      modifies this`free, this`dirty, pager`pageCount, pager`pages, pager`disk, pager`history
      ensures ok && r.removed && id in old(dirty) ==> r.page == id
      ensures old(pager.history) <= pager.history
      ensures Busy()
      ensures ok <==> depth + h < MAX_TREE_DEPTH
      ensures !ok ==> S() == old(S())
      ensures ok ==> Removed(old(S()), S(), id, h, key, r, base)
      decreases h, 0
    {
      hide Linked, WF, Flat, FlatKids, Reach, ReachKids, Busy, Ready, DelEntry, Used, Grown, Owned, FirstReusable;
      ghost var s := S();
      BranchFacts(pager.pages, id, h);
      var kids, seps := pager.pages[id].kids, pager.pages[id].seps;
      var slot := Route(seps, key);
      RemoveBelow(pager.pages, kids, seps, h - 1, slot, key);
      ChildOwned(s, id, h, slot, base);
      var below;
      ok, below := RemoveFrom(kids[slot], key, depth + 1, h - 1, base);
      if !ok { return false, Removal(id, false, false); }
      if !below.removed { return true, Removal(id, false, false); }
      ghost var t := S();
      if below.empty {
        DropFlat(s.mem, kids, seps, h - 1, slot);
        SiblingsKept(s, t, id, h, slot, base);
        r := DropChild(s, id, slot, below.page, h, base);
      } else {
        Regraft(s, t, id, h, slot, [below.page], [], base);
        SpliceSame(kids, seps, slot, below.page);
        LinkedFlat(t.mem, [below.page], [], h - 1);
        var copy := ReplaceBranch(s, id, kids[slot := below.page], seps, h, base);
        r := Removal(copy, true, false);
      }
    }

    /** Write page `id`'s new contents where `Cow` says, releasing `page` in between. */
    method CowAndRelease(id: nat, page: nat, contents: Page) returns (copy: nat)
      requires Busy() && InUse(S(), id) && !Freed(S(), id) && id >= FIRST_DATA_PAGE
      requires page in dirty && !Freed(S(), page) && page != id
      modifies this`free, this`dirty, pager`pageCount, pager`pages, pager`disk, pager`history
      ensures old(pager.history) <= pager.history
      ensures Busy() && Grown(old(S()), S(), {id, page}) && Home(old(S()), S(), id, copy)
      ensures id in old(dirty) ==> copy == id
      ensures pager.pages == old(pager.pages)[copy := contents]
    {
      hide Busy, FirstReusable;
      ghost var t := S();
      copy := Cow(id);
      ghost var u := S();
      BusyFacts();
      Release(page);
      ghost var v := S();
      GrownTrans(t, u, v, {id}, {page}, {id, page});
      WritePage(copy, contents);
      GrownTrans(t, v, S(), {id, page}, {copy}, {id, page});
    }

    /** Rewrite the branch without the child a removal emptied, releasing that child. */
    method DropChild(ghost s: State, id: nat, slot: nat, page: nat, ghost h: nat, ghost base: set<nat>)
      returns (r: Removal)
      requires h > 0 && WF(s.mem, id, h) && Busy() && base == Committed() && Owned(s, Reach(s.mem, id, h), base)
      requires slot < |s.mem[id].kids| && slot <= |s.mem[id].seps|
      requires Emptied(s, S(), s.mem[id].kids[slot], h - 1, page)
      modifies this`free, this`dirty, pager`pageCount, pager`pages, pager`disk, pager`history
      ensures id in old(dirty) ==> r.page == id
      ensures old(pager.history) <= pager.history
      ensures Busy() && r.removed && (r.empty <==> |s.mem[id].seps| == 0)
      ensures r.empty ==> Emptied(s, S(), id, h, r.page)
      ensures !r.empty ==> Grafted(s, S(), id, h, [r.page], [], base)
      ensures !r.empty ==>
        FlatKids(pager.pages, [r.page], h) ==
            FlatKids(s.mem, s.mem[id].kids[..slot], h - 1) + FlatKids(s.mem, s.mem[id].kids[slot + 1..], h - 1)
    {
      hide Linked, WF, Flat, FlatKids, Reach, ReachKids, Busy, Ready, FirstReusable;
      ghost var t := S();
      SiblingsKept(s, t, id, h, slot, base);
      BranchFacts(s.mem, id, h);
      if |s.mem[id].seps| > 0 { DropReady(s, t, id, h, slot, page, base); }
      PageApart(s, t, id, h, slot, page, base);
      var kids, seps := pager.pages[id].kids, pager.pages[id].seps;
      var empty := |seps| == 0;
      var left := if empty then Branch(kids, seps) else Branch(DropKids(kids, slot), DropSeps(seps, slot));
      var copy := CowAndRelease(id, page, left);
      if empty {
        EmptiedUp(s, t, S(), id, h, page, copy, base);
      } else {
        DropFits(seps, slot);
        GraftOne(s, t, S(), id, h, DropKids(kids, slot), DropSeps(seps, slot), copy, {id, page}, base);
      }
      return Removal(copy, true, empty);
    }

    /** Remove `key`. `removed` says whether it was there. */
    method Remove(key: Bytes) returns (r: Outcome, removed: bool)
      requires Valid()
      modifies this`root, this`entries, this`free, this`dirty, this`height
      modifies pager`pageCount, pager`pages, pager`disk, pager`history
      ensures Valid()
      ensures r == (if old(height) < MAX_TREE_DEPTH then Done else TooDeep)
      ensures r == Done ==> Contents() == DelEntry(old(Contents()), key)
      ensures r == Done ==> (removed <==> !Absent(old(Contents()), key))
      ensures r != Done || !removed ==> Contents() == old(Contents()) && S() == old(S())
      ensures height <= old(height)
      ensures removed && old(root) in old(dirty) ==>
                  Flat(pager.pages, old(root), old(height)) == DelEntry(old(Contents()), key)
      ensures Weighs() <= old(Weighs()) + 1
      ensures Quiet(old(pager.history), pager.history, pager.now)
    {
      hide Linked, WF, Flat, FlatKids, Reach, ReachKids, Busy, Books, DelEntry, Weight;
      DelCounts(pager.pages, root, height, key);
      var ok;
      ok, removed := RootRemove(key);
      StayedQuiet();
      if !ok { return TooDeep, false; }
      if !removed { return Done, false; }
      entries := SaturatingPred(entries);
      Collapse();
      StayedQuiet();
      return Done, true;
    }

    method RootRemove(key: Bytes) returns (ok: bool, removed: bool)
      requires Valid()
      modifies this`root, this`free, this`dirty
      modifies pager`pageCount, pager`pages, pager`disk, pager`history
      ensures ok && old(root) in old(dirty) ==> root == old(root)
      ensures old(pager.history) <= pager.history
      ensures Busy() && Books()
      ensures ok <==> height < MAX_TREE_DEPTH
      ensures !ok || !removed ==> S() == old(S()) && root == old(root)
      ensures ok ==> (removed <==> !Absent(old(Contents()), key))
      ensures ok ==> WF(pager.pages, root, height) && Owned(S(), Reach(pager.pages, root, height), Committed())
      ensures ok && removed ==> Contents() == DelEntry(old(Contents()), key)
      ensures Weighs() <= old(Weighs()) + 1
    {
      hide Linked, WF, Flat, FlatKids, Reach, ReachKids, Busy, Books, DelEntry, Grown, Light, Weight;
      ghost var s, base, h, top := S(), Committed(), height, root;
      RootStays(pager.pages, root, height, key);
      BusyFacts();
      var out;
      ok, out := RemoveFrom(root, key, 0, height, base);
      removed := out.removed;
      if !ok || !removed {
        assert S() == s;
        GrownRefl(s, {});
        BooksGrown({});
        return;
      }
      BusyFacts();
      root := out.page;
      if out.empty {
        LeafTree(pager.pages, root, []);
        EmptyLeafLight(s.mem, top, pager.pages, root);
      } else {
        LinkedOnly(pager.pages, root, h);
        LightTree(s.mem, top, h, pager.pages, root);
      }
      BooksGrown(Reach(s.mem, top, h));
    }

    /** Drop root branches that have lost every separator. */
    method Collapse()
      requires Busy() && Books() && height < MAX_TREE_DEPTH
      requires WF(pager.pages, root, height) && Owned(S(), Reach(pager.pages, root, height), Committed())
      modifies this`root, this`free, this`height
      ensures Busy() && Books() && Tree() && Contents() == old(Contents()) && height <= old(height)
      ensures Weighs() <= old(Weighs())
    {
      hide Linked, WF, Reach, Flat, FlatKids, ReachKids, Busy, Books, Owned, Weight;
      var i := 0;
      while i < MAX_TREE_DEPTH
        invariant Busy() && Books() && i <= MAX_TREE_DEPTH && height + i <= old(height)
        invariant WF(pager.pages, root, height) && Owned(S(), Reach(pager.pages, root, height), Committed())
        invariant Contents() == old(Contents()) && Weighs() <= old(Weighs())
      {
        RootKind(pager.pages, root, height);
        if !pager.pages[root].Branch? || |pager.pages[root].seps| > 0 { break; }
        label before:
        ghost var s, top := S(), root;
        OnlyChild(s, root, height, Committed());
        OnlyChildLighter(s.mem, root, height);
        var child := pager.pages[root].kids[0];
        Release(root);
        OwnedKept(s, S(), {top}, Reach(s.mem, child, height - 1), Committed());
        BooksGrown@before({top});
        root := child;
        height := height - 1;
        i := i + 1;
      }
    }

    // ----------------------------------------------------------------
    // Commit
    // ----------------------------------------------------------------

    /** The working tree as a published generation would record it. */
    ghost function Here(g: nat): View
      reads this`root, this`height, pager
    {
      View(g, root, height, Contents(), Reach(pager.pages, root, height), Weighs())
    }

    /** Publish everything written since the last commit: data pages first, then the
        meta page that names them. */
    method Commit()
      requires Valid()
      modifies this`generation, this`dirty
      modifies pager`pages, pager`disk, pager`prev, pager`now, pager`next, pager`history
      ensures Valid()
      ensures generation == old(generation) + 1 && dirty == {}
      ensures Contents() == old(Contents()) && Weighs() == old(Weighs()) && height == old(height)
      ensures pager.prev == Some(old(pager.now)) && pager.now.view == Here(generation)
      ensures Published3(old(pager.history), pager.history, old(pager.now), pager.now)
    {
      hide Linked, WF, Flat, FlatKids, Reach, ReachKids, Pager.Valid, PublishedOK, Base, Holds, StateOK, Stamped,
           ReadersOK, InUse, Weight;
      ghost var s, view := S(), Here(generation + 1);
      BusyBounds();
      assert 30 + 12 * |free| <= MAX_CELL_LEN by { StateBounds(s); }
      PublishOK(s, Meta(generation + 1, root, entries, pager.pageCount, free), view, Committed());
      ViewHolds(s.mem, view);
      ghost var meta := Meta(generation + 1, root, entries, pager.pageCount, free);
      pager.NowHolds();
      PublishFollows(pager.now, Published(meta, view), generation, free, pager.pageCount);
      Publish(Meta(generation + 1, root, entries, pager.pageCount, free), view);
      generation := generation + 1;
      dirty := {};
      AfterCommit(s, S(), view, old(Committed()));
      TreeMoved(s, S(), view, old(Committed()));
      SameWeight(s.mem, pager.pages, root, height, Slot(generation));
      GuardBounds();
      GuardHolds();
    }

    /** The two flushes of a commit and the meta page between them. */
    method Publish(meta: Meta, ghost view: View)
      requires pager.Valid() && pager.next == None
      requires Follows(pager.now, Published(meta, view)) && Holds(pager.pages, view)
      requires PublishedOK(Published(meta, view))
      modifies pager`pages, pager`disk, pager`prev, pager`now, pager`next, pager`history
      ensures pager.Valid() && pager.next == None
      ensures pager.pages == old(pager.pages)[Slot(meta.generation) := MetaPage(meta)]
      ensures pager.prev == Some(old(pager.now)) && pager.now == Published(meta, view)
      ensures Published3(old(pager.history), pager.history, old(pager.now), Published(meta, view))
    {
      pager.Flush();
      ghost var h1 := pager.history;
      pager.WriteMeta(meta, view);
      ghost var h2 := pager.history;
      pager.Flush();
    }

    // ----------------------------------------------------------------
    // Reads of the tree being built
    // ----------------------------------------------------------------

    method Get(key: Bytes) returns (ok: bool, value: Option<Bytes>)
      requires Valid()
      ensures ok <==> height < MAX_TREE_DEPTH
      ensures ok ==> value == Lookup(Contents(), key)
    {
      ok, value := GetAt(pager.pages, root, key, height);
    }

    method Seek(key: Bytes, mode: SeekMode) returns (ok: bool, r: Option<Entry>)
      requires Valid()
      ensures ok <==> height < MAX_TREE_DEPTH
      ensures ok ==> Nearest(Contents(), key, mode, r)
    {
      ok, r := SeekAt(pager.pages, root, key, mode, height);
    }

    // ----------------------------------------------------------------
    // Snapshots
    // ----------------------------------------------------------------

    /** Pin the current root for reading. `t` names the snapshot in the ghost books. */
    method TakeSnapshot(ghost t: nat) returns (snap: Snapshot)
      requires Valid() && t !in live
      modifies this`readers, this`live, pager`pins
      ensures Valid() && snap == Snapshot(generation, root)
      ensures live == old(live)[t := generation]
      ensures pager.pins == if root in dirty then old(pager.pins)
                  else old(pager.pins)[t := Pin(Here(generation), |pager.history| - 1)]
    {
      CountReader(t);
      if root !in dirty { PinHere(t); }
      return Snapshot(generation, root);
    }

    method CountReader(ghost t: nat)
      requires Valid() && t !in live
      modifies this`readers, this`live
      ensures Valid() && live == old(live)[t := generation]
    {
      hide Linked, WF, Flat, FlatKids, Reach, ReachKids, Pager.Valid, Base, Holds, StateOK, Stamped, InUse, At, MinKey;
      ghost var s := S();
      BusyBounds();
      CountIn(live, t, generation);
      readers := readers[generation := (if generation in readers then readers[generation] else 0) + 1];
      live := live[t := generation];
      ReadersMove(s, MinKey(readers));
      GuardBounds();
      GuardHolds();
    }

    /** Nothing under a root that was not copied in this generation can change, so the
        view it shows can be held. */
    ghost method PinHere(t: nat)
      requires Valid() && t in live && live[t] == generation && root !in dirty && t !in pager.pins
      modifies pager`pins
      ensures Valid() && pager.pins == old(pager.pins)[t := Pin(Here(generation), |pager.history| - 1)]
    {
      hide Linked, WF, Flat, FlatKids, Reach, ReachKids, Pager.Valid, Base, Holds, StateOK, Stamped, InUse, At, MinKey,
           ReadersOK;
      ghost var s := S();
      BusyBounds();
      CleanTree(s, root, height, Committed());
      ViewHolds(pager.pages, Here(generation));
      NotFreedStamped(s, Here(generation).pages, Committed());
      pager.AddPin(t, Here(generation));
      GuardBounds();
      GuardHolds();
    }

    /** Release a snapshot's pin. */
    method ReleaseSnapshot(snap: Snapshot, ghost t: nat)
      requires Valid() && t in live && live[t] == snap.generation
      modifies this`readers, this`live, pager`pins
      ensures Valid()
      ensures live == old(live) - {t} && pager.pins == old(pager.pins) - {t}
    {
      hide Linked, WF, Flat, FlatKids, Reach, ReachKids, Pager.Valid, Base, Holds, StateOK, Stamped, InUse, At, MinKey;
      ghost var s := S();
      BusyBounds();
      CountOut(live, t);
      assert t in live && At(live, live[t]) != {} by { AtLive(live, t); }
      pager.DropPin(t);
      var g := snap.generation;
      if g in readers {
        readers := if readers[g] == 1 then readers - {g} else readers[g := SaturatingPred(readers[g])];
      }
      live := live - {t};
      ReadersMove(s, MinKey(readers));
      GuardBounds();
      GuardHolds();
    }

    /** With the books in order, no published or pinned page is up for allocation. */
    lemma GuardHolds()
      requires pager.Valid() && pager.next == None && StateOK(S()) && Books()
      requires forall p: nat :: pager.Guarded(p) ==> p < pager.pageCount && p !in dirty
      ensures Busy()
    {
      hide Pager.Valid, StateOK, Stamped, InUse, Base;
      var s := S();
      forall p: nat | pager.Guarded(p) ensures InUse(s, p) {
        if p in pager.now.view.pages {
          StampedInUse(s, pager.now.view.pages, generation, p);
        } else if pager.prev.Some? && p in pager.prev.value.view.pages {
          StampedInUse(s, pager.prev.value.view.pages, pager.prev.value.view.generation, p);
        } else {
          var t :| t in pager.pins && p in pager.pins[t].view.pages;
          assert t in At(live, live[t]) && live[t] in readers;
          StampedInUse(s, pager.pins[t].view.pages, pager.pins[t].view.generation, p);
        }
      }
      pager.NowHolds();
      BaseHolds(s, pager.now.view);
    }
  }

  lemma CountIn(live: map<nat, nat>, t: nat, g: nat)
    requires t !in live
    ensures At(live[t := g], g) == At(live, g) + {t} && |At(live[t := g], g)| == |At(live, g)| + 1
    ensures forall x :: x != g ==> At(live[t := g], x) == At(live, x)
  {
    assert At(live[t := g], g) == At(live, g) + {t};
  }

  lemma AtLive(live: map<nat, nat>, t: nat)
    requires t in live
    ensures At(live, live[t]) != {}
  {
    assert t in At(live, live[t]);
  }

  lemma CountOut(live: map<nat, nat>, t: nat)
    requires t in live
    ensures At(live - {t}, live[t]) == At(live, live[t]) - {t} && |At(live - {t}, live[t])| == |At(live, live[t])| - 1
    ensures forall x :: x != live[t] ==> At(live - {t}, x) == At(live, x)
  {
    assert t in At(live, live[t]);
    assert At(live - {t}, live[t]) == At(live, live[t]) - {t};
  }

  /** A tree under a page that was not copied in this generation has no copied page. */
  lemma CleanTree(s: State, root: nat, h: nat, base: set<nat>)
    requires WF(s.mem, root, h) && Owned(s, Reach(s.mem, root, h), base) && Base(s, base) && root !in s.dirty
    ensures forall p :: p in Reach(s.mem, root, h) ==> p in base && p !in s.dirty && p < s.pageCount
  {
    SelfReach(s.mem, root, h);
    ReachWithin(s.mem, root, h, base);
  }

  lemma {:induction false} ReachWithin(P: Store, id: nat, h: nat, base: set<nat>)
    requires WF(P, id, h) && id in base
    requires forall p, i :: p in base && p in P && P[p].Branch? && 0 <= i < |P[p].kids| ==> P[p].kids[i] in base
    ensures Reach(P, id, h) <= base
    decreases h
  {
    hide WF, Linked, Flat, FlatKids;
    if h > 0 {
      BranchFacts(P, id, h);
      forall p | p in ReachKids(P, P[id].kids, h - 1) ensures p in base {
        var i :| 0 <= i < |P[id].kids| && p in Reach(P, P[id].kids[i], h - 1);
        KidWF(P, P[id].kids, P[id].seps, h - 1, i);
        ReachWithin(P, P[id].kids[i], h - 1, base);
      }
    }
  }

  lemma NotFreedStamped(s: State, pages: set<nat>, base: set<nat>)
    requires Owned(s, pages, base)
    ensures forall g :: Stamped(s.free, pages, g)
  {
    forall e | e in s.free ensures e.page !in pages { assert Freed(s, e.page); }
  }

  lemma ReopenState(img: Store, meta: Meta, view: View)
    requires Holds(img, view) && PublishedOK(Published(meta, view))
    ensures var s := State(img, meta.highWater, meta.free, {}, meta.generation, None);
      StateOK(s) && Owned(s, view.pages, view.pages)
    ensures WF(img, view.root, view.height) && RootOK(img, view.root, view.height)
    ensures Flat(img, view.root, view.height) == view.entries && Reach(img, view.root, view.height) == view.pages
  {
  }

  /** What the allocator must know of the tree before the one just opened. */
  lemma FallbackState(img: Store, prev: Published, now: Published)
    requires Fallback(img, prev, now)
    ensures prev.view.generation + 1 == now.meta.generation
    ensures Stamped(now.meta.free, prev.view.pages, prev.view.generation)
    ensures forall p: nat :: p in prev.view.pages ==> p < now.meta.highWater
  {
    hide Holds;
  }

  /** The generation being published follows the one before it. */
  lemma PublishFollows(now: Published, next: Published, g: nat, free: seq<FreeEntry>, pageCount: nat)
    requires now.meta.generation == now.view.generation == g && next.meta.generation == g + 1
    requires next.meta.free == free && next.meta.highWater == pageCount
    requires Stamped(free, now.view.pages, g) && forall p: nat :: p in now.view.pages ==> p < pageCount
    ensures Follows(now, next)
  {
  }

  lemma EmptyIndex(img: Store, meta: Meta, view: View)
    requires meta == FirstMeta() && view == EmptyView()
    requires img == map[FIRST_DATA_PAGE := Leaf([]), META_B := MetaPage(meta)]
    ensures CreationDisk(4) == Disk(img, img, map[])
    ensures Settled(img, meta) && Holds(img, view) && PublishedOK(Published(meta, view))
  {
    LeafTree(img, FIRST_DATA_PAGE, []);
  }

  lemma BaseHolds(s: State, view: View)
    requires Holds(s.mem, view) && forall p :: p in view.pages ==> InUse(s, p) && p !in s.dirty
    ensures Base(s, view.pages)
  {
    ReachClosed(s.mem, view.root, view.height);
  }

  lemma StateBounds(s: State)
    requires StateOK(s)
    ensures |s.free| <= MAX_FREE_ENTRIES
  {
  }

  lemma HoldsWeight(P: Store, view: View)
    requires Holds(P, view)
    ensures Weight(P, view.root, view.height) == view.weight
  {
  }

  lemma ViewHolds(P: Store, view: View)
    requires WF(P, view.root, view.height) && RootOK(P, view.root, view.height)
    requires view.entries == Flat(P, view.root, view.height) && view.pages == Reach(P, view.root, view.height)
    requires view.weight == Weight(P, view.root, view.height)
    ensures Holds(P, view)
  {
  }

  /** The allocator's state when the next generation starts. */
  lemma AfterCommit(s: State, t: State, view: View, base: set<nat>)
    requires StateOK(s) && Owned(s, view.pages, base)
    requires t == s.(mem := t.mem, dirty := {}, generation := s.generation + 1)
    ensures StateOK(t)
    ensures Stamped(s.free, view.pages, s.generation + 1)
    ensures forall p :: p in view.pages ==> p < s.pageCount
  {
    forall e | e in s.free ensures e.page !in view.pages { assert Freed(s, e.page); }
  }

  lemma TreeMoved(s: State, t: State, view: View, base: set<nat>)
    requires Holds(s.mem, view) && Owned(s, view.pages, base)
    requires t.free == s.free && t.pageCount == s.pageCount && Slot(view.generation) in t.mem
    requires t.mem == s.mem[Slot(view.generation) := t.mem[Slot(view.generation)]]
    ensures Holds(t.mem, view) && Owned(t, view.pages, view.pages)
  {
    ReachClosed(s.mem, view.root, view.height);
    HoldsFrame(s.mem, t.mem, view);
    forall p | p in view.pages ensures InUse(t, p) && !Freed(t, p) {
      forall e | e in t.free ensures e.page != p { assert Freed(s, e.page); }
    }
  }

  lemma PublishOK(s: State, meta: Meta, view: View, base: set<nat>)
    requires StateOK(s) && Owned(s, view.pages, base) && WF(s.mem, view.root, view.height)
    requires Reach(s.mem, view.root, view.height) == view.pages
    requires meta == Meta(s.generation + 1, view.root, |view.entries|, s.pageCount, s.free)
    requires view.generation == meta.generation
    ensures PublishedOK(Published(meta, view))
  {
    forall e | e in meta.free ensures e.page !in view.pages { assert Freed(s, e.page); }
  }

  lemma LinkedFlat(P: Store, kids: seq<nat>, seps: seq<Bytes>, h: nat)
    requires Linked(P, kids, seps, h)
    ensures FlatKids(P, kids, h) != []
  {
    FlatNonEmpty(P, kids, seps, h);
  }

  lemma DropFlat(P: Store, kids: seq<nat>, seps: seq<Bytes>, h: nat, slot: nat)
    requires Linked(P, kids, seps, h) && slot < |kids|
    ensures FlatKids(P, kids[..slot], h) + [] + FlatKids(P, kids[slot + 1..], h)
      == FlatKids(P, kids[..slot], h) + FlatKids(P, kids[slot + 1..], h)
    ensures |seps| == 0 <==> FlatKids(P, kids[..slot], h) + FlatKids(P, kids[slot + 1..], h) == []
  {
    if slot > 0 { FlatKidsAt(P, kids[..slot], h, 0); }
    if slot + 1 < |kids| { FlatKidsAt(P, kids[slot + 1..], h, 0); }
  }

  lemma PageApart(s: State, t: State, id: nat, h: nat, slot: nat, page: nat, base: set<nat>)
    requires h > 0 && WF(s.mem, id, h) && slot < |s.mem[id].kids| && Owned(s, Reach(s.mem, id, h), base)
    requires Emptied(s, t, s.mem[id].kids[slot], h - 1, page)
    ensures page != id
  {
    KidsWithin(s.mem, id, h);
    ReachKid(s.mem, s.mem[id].kids, h - 1, slot);
    SelfReach(s.mem, id, h);
  }

  lemma DelCounts(P: Store, root: nat, h: nat, key: Bytes)
    requires WF(P, root, h)
    ensures Absent(Flat(P, root, h), key) ==> DelEntry(Flat(P, root, h), key) == Flat(P, root, h)
    ensures !Absent(Flat(P, root, h), key) ==> |DelEntry(Flat(P, root, h), key)| == |Flat(P, root, h)| - 1
  {
    WFSorted(P, root, h);
    DelMeaning(Flat(P, root, h), key);
    AsMapKeys(Flat(P, root, h));
    if Absent(Flat(P, root, h), key) { DelAbsent(Flat(P, root, h), key); }
  }

  /** A root with two or more children cannot be emptied by one removal. */
  lemma RootStays(P: Store, root: nat, h: nat, key: Bytes)
    requires WF(P, root, h) && RootOK(P, root, h)
    ensures h > 0 ==> DelEntry(Flat(P, root, h), key) != []
  {
    hide WF, Linked, Flat, FlatKids, DelEntry, Absent;
    if h > 0 {
      BranchFacts(P, root, h);
      var kids := P[root].kids;
      KidWF(P, kids, P[root].seps, h - 1, 0);
      KidWF(P, kids, P[root].seps, h - 1, 1);
      FlatKidsAt(P, kids, h - 1, 0);
      FlatKidsAt(P, kids[1..], h - 1, 0);
      DelCounts(P, root, h, key);
    }
  }

  lemma LeafShape(P: Store, id: nat)
    requires WF(P, id, 0)
    ensures id in P && id >= FIRST_DATA_PAGE && P[id].Leaf? && LeafOK(P[id].entries)
    ensures Flat(P, id, 0) == P[id].entries && Reach(P, id, 0) == {id}
  {
  }

  lemma RootKind(P: Store, root: nat, h: nat)
    requires WF(P, root, h)
    ensures root in P && (P[root].Branch? <==> h > 0)
  {
  }

  lemma OnlyChild(s: State, id: nat, h: nat, base: set<nat>)
    requires WF(s.mem, id, h) && s.mem[id].Branch? && |s.mem[id].seps| == 0 && Owned(s, Reach(s.mem, id, h), base)
    ensures h > 0 && |s.mem[id].kids| == 1 && id >= FIRST_DATA_PAGE && InUse(s, id) && !Freed(s, id)
    ensures var child := s.mem[id].kids[0];
      && WF(s.mem, child, h - 1) && Flat(s.mem, child, h - 1) == Flat(s.mem, id, h)
      && Owned(s, Reach(s.mem, child, h - 1), base) && id !in Reach(s.mem, child, h - 1)
  {
    BranchFacts(s.mem, id, h);
    ChildOwned(s, id, h, 0, base);
    assert s.mem[id].kids == [s.mem[id].kids[0]];
    FlatKidsOne(s.mem, s.mem[id].kids[0], h - 1);
    ReachKidsOne(s.mem, s.mem[id].kids[0], h - 1);
    SelfReach(s.mem, id, h);
    KidsWithin(s.mem, id, h);
  }

  lemma LightTree(P: Store, id: nat, h: nat, Q: Store, page: nat)
    requires Light(P, id, h, Q, [page], 0)
    ensures Weight(Q, page, h) <= Weight(P, id, h) + 1
  {
    hide Load, LoadKids, Pow2;
    LoadKidsOne(Q, page, h);
  }

  lemma EmptyLeafLight(P: Store, id: nat, Q: Store, page: nat)
    requires page in Q && Q[page] == Leaf([])
    ensures Weight(Q, page, 0) <= Weight(P, id, 0)
  {
  }

  /** Writing a meta page does not touch the tree. */
  lemma SameWeight(P: Store, Q: Store, root: nat, h: nat, slot: nat)
    requires WF(P, root, h) && slot < FIRST_DATA_PAGE && slot in Q && Q == P[slot := Q[slot]]
    ensures Weight(Q, root, h) == Weight(P, root, h)
  {
    hide Load, WF, Reach;
    ReachClosed(P, root, h);
    RootKind(P, root, h);
    LoadFrame(P, Q, root, h);
  }

  lemma RootKept(P: Store, root: nat, Q: Store, page: nat, h: nat)
    requires WF(P, root, h) && RootOK(P, root, h) && WF(Q, page, h)
    requires h > 0 ==> Wider(P, root, Q, page)
    ensures RootOK(Q, page, h)
  {
  }

  lemma PutCounts(P: Store, root: nat, h: nat, key: Bytes, value: Bytes)
    requires WF(P, root, h)
    ensures |PutEntry(Flat(P, root, h), key, value)| ==
                |Flat(P, root, h)| + if Lookup(Flat(P, root, h), key).None? then 1 else 0
  {
    WFSorted(P, root, h);
    PutMeaning(Flat(P, root, h), key, value);
  }

  lemma OneSepFits(sep: Bytes)
    requires |sep| <= MAX_KEY_LEN
    ensures Fits(BranchLens([sep]))
  {
    assert BranchLens([sep]) == [BranchCellLen(sep)];
    UsedOne(BranchCellLen(sep));
  }
}
