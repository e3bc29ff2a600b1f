/** What the index promises over whole runs: crashes, snapshots and reads. */
module IndexTheorems {
  import opened Bytes
  import opened Entries
  import opened Pages
  import opened Shape
  import opened Alloc
  import opened Crash
  import opened PagerModel
  import opened Graft
  import opened TreeLoad
  import opened Walk
  import opened Range
  import opened BTreeModel
  import PageBytes

  // ------------------------------------------------------------------
  // Crashes
  // ------------------------------------------------------------------

  /** Whatever a run of puts, removes, commits and snapshots has done, and whichever of
      its moments the crash falls on, opening the file finds the tree published last,
      or the one whose meta page was just being written, whole. */
  lemma CrashAnywhere(t: BTree, i: nat, img: Store)
    requires t.Valid() && i < |t.pager.history| && Image(t.pager.history[i].disk, img)
    ensures var m := t.pager.history[i];
            var x := Chosen(m, img);
            && (x == m.now || m.next == Some(x))
            && OpenMeta(img) == Some(x.meta) && Holds(img, x.view) && PublishedOK(x)
    ensures Settled(img, OpenMeta(img).value)
    ensures var m := t.pager.history[i];
            var p := Previous(img, m.prev, m.now, m.next);
            p.Some? ==> Fallback(img, p.value, Chosen(m, img))
  {
    hide BTree.Busy, BTree.Books, BTree.Tree;
    History(t);
    var m := t.pager.history[i];
    CrashReopens(m.disk, m.prev, m.now, m.next, img);
    FallbackSurvives(m.disk, m.prev, m.now, m.next, img);
  }

  /** Which of the two trees that is. */
  ghost function Chosen(m: Moment, img: Store): Published {
    if m.next.Some? && OpenMeta(img) == Some(m.next.value.meta) then m.next.value else m.now
  }

  lemma History(t: BTree)
    requires t.Valid()
    ensures Chain(t.pager.history)
  {
  }

  /** And the tree opened from it is a working tree again, holding those entries and still
      guarding the generation before it. */
  method Restart(t: BTree, ghost i: nat, img: Store) returns (u: BTree)
    requires t.Valid() && i < |t.pager.history| && Image(t.pager.history[i].disk, img)
    ensures fresh(u) && u.Valid() && u.dirty == {} && u.readers == map[]
    ensures var m := t.pager.history[i];
            && u.Contents() == Chosen(m, img).view.entries
            && u.pager.now == Chosen(m, img)
            && u.pager.prev == Previous(img, m.prev, m.now, m.next)
            && (m.next.None? ==> u.pager.prev == m.prev)
            && u.Weighs() == Chosen(m, img).view.weight
  {
    hide BTree.Valid, Holds, PublishedOK, Settled, Fallback;
    CrashAnywhere(t, i, img);
    ghost var m := t.pager.history[i];
    KeepsPrevious(t, i, img);
    var meta := OpenMeta(img).value;
    u := new BTree.Reopen(img, meta, Chosen(m, img).view, Previous(img, m.prev, m.now, m.next));
  }

  lemma KeepsPrevious(t: BTree, i: nat, img: Store)
    requires t.Valid() && i < |t.pager.history| && Image(t.pager.history[i].disk, img)
    ensures var m := t.pager.history[i];
            m.next.None? ==> Previous(img, m.prev, m.now, m.next) == m.prev
  {
    hide BTree.Busy, BTree.Books, BTree.Tree;
    History(t);
    var m := t.pager.history[i];
    FallbackSurvives(m.disk, m.prev, m.now, m.next, img);
  }

  /** One step further back: if the newest meta page cannot be read either, the generation
      before it opens as a working tree with its own entries, also right after a restart. */
  method RestartOneBack(t: BTree, img: Store) returns (u: BTree)
    requires t.Valid() && t.pager.prev.Some? && Image(t.pager.disk, img)
    ensures fresh(u) && u.Valid() && u.dirty == {} && u.readers == map[]
    ensures u.Contents() == t.pager.prev.value.view.entries
  {
    hide BTree.Valid, Holds, PublishedOK, Settled, Fallback;
    Latest(t, img);
    ghost var prev, now := t.pager.prev.value, t.pager.now;
    NewestMetaLost(img, prev, now);
    var left := img - {Slot(t.generation)};
    var meta := OpenMeta(left).value;
    u := new BTree.Reopen(left, meta, prev.view, None);
  }

  lemma Latest(t: BTree, img: Store)
    requires t.Valid() && t.pager.prev.Some? && Image(t.pager.disk, img)
    ensures Fallback(img, t.pager.prev.value, t.pager.now) && t.pager.now.meta.generation == t.generation
  {
    hide BTree.Busy, BTree.Tree, Fallback;
    History(t);
    NothingPending(t);
    var i := |t.pager.history| - 1;
    var m := t.pager.history[i];
    FallbackSurvives(m.disk, m.prev, m.now, m.next, img);
  }

  lemma NothingPending(t: BTree)
    requires t.Valid()
    ensures t.pager.next == None && |t.pager.history| > 0
    ensures t.pager.history[|t.pager.history| - 1] == t.pager.Here()
  {
  }

  // ------------------------------------------------------------------
  // A new file
  // ------------------------------------------------------------------

  /** A crash at any step of creating an index: the file opens to the empty index if and only
      if it is still too short to hold the meta slots, or its first meta page can be read. */
  lemma CreationOpens(step: nat, f: File)
    requires CrashFile(CreationDisk(step), f)
    ensures OpensEmpty(f) <==> f.count < FIRST_DATA_PAGE || ReadMeta(f.pages, META_B).Some?
    ensures !OpensEmpty(f) ==> OpenFile(f) == Refused
  {
    CreationPages(step);
    if f.count >= FIRST_DATA_PAGE && ReadMeta(f.pages, META_B).Some? {
      FirstMetaHolds(step, f);
    }
  }

  /** What each step of creation can have written. */
  lemma CreationPages(step: nat)
    ensures var d := CreationDisk(step);
            && (forall p :: p in d.mem ==> p == META_B || p == FIRST_DATA_PAGE)
            && (META_B in d.mem ==> step >= 3 && d.mem[META_B] == MetaPage(FirstMeta()))
            && (step >= 2 ==> FIRST_DATA_PAGE in d.mem && d.mem[FIRST_DATA_PAGE] == Leaf([]))
            && (step >= 2 ==> FIRST_DATA_PAGE !in d.versions)
            && (META_B in d.versions ==> d.versions[META_B] == {MetaPage(FirstMeta())})
            && (META_B in d.synced ==> d.synced[META_B] == MetaPage(FirstMeta()))
  {
    assert CreationDisk(0) == Disk(map[], map[], map[]);
    assert CreationDisk(2) == Flushed(CreationDisk(1));
    assert CreationDisk(3) == Written(CreationDisk(2), META_B, MetaPage(FirstMeta()));
  }

  lemma FirstMetaHolds(step: nat, f: File)
    requires CrashFile(CreationDisk(step), f) && ReadMeta(f.pages, META_B).Some?
    ensures Settled(f.pages, FirstMeta()) && OpenMeta(f.pages) == Some(FirstMeta()) && Holds(f.pages, EmptyView())
  {
    hide CreationDisk;
    CreationPages(step);
    assert f.pages[META_B] == MetaPage(FirstMeta());
    assert f.pages[FIRST_DATA_PAGE] == Leaf([]);
    assert META_A !in f.pages;
    LeafTree(f.pages, FIRST_DATA_PAGE, []);
  }

  /** Between the first flush and the moment the meta page reaches the disk, no file a crash
      can leave opens. */
  lemma CrashDuringCreation(f: File)
    requires CrashFile(CreationDisk(2), f)
    ensures OpenFile(f) == Refused
  {
    CreationPages(2);
    assert FIRST_DATA_PAGE in f.pages;
    CreationOpens(2, f);
  }

  /** Before the first flush and after the last, creation survives any crash that leaves the
      file short or whole. */
  method OpenCreated(ghost step: nat, f: File) returns (t: BTree?)
    requires CrashFile(CreationDisk(step), f)
    ensures t != null <==> f.count < FIRST_DATA_PAGE || ReadMeta(f.pages, META_B).Some?
    ensures t != null ==> fresh(t) && t.Valid() && t.Contents() == [] && t.generation == 1
  {
    hide BTree.Valid, CreationDisk, Holds, Settled;
    CreationOpens(step, f);
    var outcome := OpenFile(f);
    if outcome.Refused? { return null; }
    if outcome.Initialized? {
      t := new BTree.Create();
    } else {
      FirstMetaHolds(step, f);
      FirstMetaOK();
      t := new BTree.Reopen(f.pages, outcome.meta, EmptyView(), None);
    }
  }

  lemma FirstMetaOK()
    ensures PublishedOK(Published(FirstMeta(), EmptyView()))
  {
  }

  // ------------------------------------------------------------------
  // Snapshots
  // ------------------------------------------------------------------

  /** A reader's walk may interleave with any writer's. As long as each page it reads is
      read at some moment since its pin, it reads the pinned tree. */
  lemma InterleavedRead(t: BTree, k: nat, seen: Store, when: map<nat, nat>)
    requires t.Valid() && k in t.pager.pins
    requires forall p :: p in t.pager.pins[k].view.pages ==>
      && p in seen && p in when && t.pager.pins[k].since <= when[p] < |t.pager.history|
      && p in t.pager.history[when[p]].disk.mem && seen[p] == t.pager.history[when[p]].disk.mem[p]
    ensures Holds(seen, t.pager.pins[k].view)
  {
    hide BTree.Busy, BTree.Books, BTree.Tree;
    PinHeld(t, k);
    var pin := t.pager.pins[k];
    var P := t.pager.history[pin.since].disk.mem;
    forall p | p in pin.view.pages ensures p in P && P[p] == seen[p] {
      assert Agree(P, t.pager.history[when[p]].disk.mem, pin.view.pages);
    }
    HoldsFrame(P, seen, pin.view);
  }

  lemma PinHeld(t: BTree, k: nat)
    requires t.Valid() && k in t.pager.pins
    ensures Pinned(t.pager.history, t.pager.pins[k])
  {
  }

  /** The pinned view at any one moment, now included. */
  lemma FrozenView(t: BTree, k: nat, i: nat)
    requires t.Valid() && k in t.pager.pins && t.pager.pins[k].since <= i < |t.pager.history|
    ensures Holds(t.pager.history[i].disk.mem, t.pager.pins[k].view)
  {
    hide BTree.Busy, BTree.Books, BTree.Tree;
    PinHeld(t, k);
    PinnedHolds(t.pager.history, t.pager.pins[k], i);
  }

  lemma NowIsLast(t: BTree)
    requires t.Valid()
    ensures |t.pager.history| > 0 && t.pager.history[|t.pager.history| - 1].disk.mem == t.pager.pages
  {
    hide BTree.Books, BTree.Tree, Base, StateOK, Chain, Pinned, WF, Reach, Flat;
  }

  lemma ViewNow(t: BTree, k: nat)
    requires t.Valid() && k in t.pager.pins
    ensures Holds(t.pager.pages, t.pager.pins[k].view)
  {
    hide BTree.Valid, Holds, Agree;
    PinHeld(t, k);
    NowIsLast(t);
    FrozenView(t, k, |t.pager.history| - 1);
  }

  /** A snapshot's lookup answers from the entries it was taken at. */
  method SnapshotGet(t: BTree, snap: Snapshot, key: Bytes, ghost k: nat) returns (ok: bool, value: Option<Bytes>)
    requires t.Valid() && k in t.pager.pins && snap.root == t.pager.pins[k].view.root
    ensures ok <==> t.pager.pins[k].view.height < MAX_TREE_DEPTH
    ensures ok ==> value == Lookup(t.pager.pins[k].view.entries, key)
  {
    hide BTree.Valid;
    ViewNow(t, k);
    ok, value := GetAt(t.pager.pages, snap.root, key, t.pager.pins[k].view.height);
  }

  /** So does its seek. */
  method SnapshotSeek(t: BTree, snap: Snapshot, key: Bytes, mode: SeekMode, ghost k: nat)
    returns (ok: bool, r: Option<Entry>)
    requires t.Valid() && k in t.pager.pins && snap.root == t.pager.pins[k].view.root
    ensures ok <==> t.pager.pins[k].view.height < MAX_TREE_DEPTH
    ensures ok ==> Nearest(t.pager.pins[k].view.entries, key, mode, r)
  {
    hide BTree.Valid;
    ViewNow(t, k);
    ok, r := SeekAt(t.pager.pages, snap.root, key, mode, t.pager.pins[k].view.height);
  }

  lemma {:induction false} WFShort(P: Store, id: nat, h: nat)
    requires WF(P, id, h)
    ensures ShortKeys(Flat(P, id, h))
    decreases h
  {
    hide Linked, FlatKids;
    if h > 0 {
      var kids := P[id].kids;
      BranchFacts(P, id, h);
      var all := FlatKids(P, kids, h - 1);
      forall i | 0 <= i < |all| ensures |all[i].key| <= MAX_KEY_LEN {
        FlatKidsMember(P, kids, h - 1, all[i]);
        var j :| 0 <= j < |kids| && all[i] in Flat(P, kids[j], h - 1);
        KidWF(P, kids, P[id].seps, h - 1, j);
        WFShort(P, kids[j], h - 1);
      }
    }
  }

  lemma TwoInGap(prefix: Bytes, cursor: Bytes, reverse: bool)
    requires CursorShort(prefix, cursor, reverse)
    ensures |Gap(prefix, cursor, reverse)| == 2
  {
  }

  lemma TwoPuts(s: seq<Entry>)
    requires |s| == 2 && Sorted(s)
    ensures PutEntry(PutEntry([], s[0].key, s[0].value), s[1].key, s[1].value) == s
  {
    LtIrreflexive(s[0].key);
    OrderLaws();
    assert PutEntry([], s[0].key, s[0].value) == [s[0]] && [s[0]][1..] == [];
  }

  lemma Standing(t: BTree)
    requires t.Valid()
    ensures WF(t.pager.pages, t.root, t.height)
  {
    hide BTree.Busy, BTree.Books, WF;
  }

  /** A tree built by two puts whose range scan misses an entry, for every cursor short of the
      prefix range. */
  method RangeMissesTree(prefix: Bytes, cursor: Bytes, reverse: bool) returns (t: BTree, visited: seq<Entry>)
    requires CursorShort(prefix, cursor, reverse)
    ensures fresh(t) && t.Valid() && t.Contents() == Gap(prefix, cursor, reverse)
    ensures visited == [] && Wanted(t.Contents(), prefix, Some(cursor), reverse) != []
  {
    hide BTree.Valid, Candidates, Wanted, Leading, CursorShort, PutEntry, Lt, Gap;
    var s := Gap(prefix, cursor, reverse);
    ghost var missed := RangeMisses(prefix, cursor, reverse);
    assert |s| == 2 by { TwoInGap(prefix, cursor, reverse); }
    TwoPuts(s);
    t := new BTree.Create();
    var one := t.Put(s[0].key, s[0].value);
    var two := t.Put(s[1].key, s[1].value);
    var ok;
    Standing(t);
    ok, visited := RangeAt(t.pager.pages, t.root, prefix, Some(cursor), reverse, _ => true, t.height);
  }

  /** And its range scan: exactly the entries with the prefix strictly past the cursor,
      up to where the visitor stops. */
  method SnapshotRange(t: BTree, snap: Snapshot, prefix: Bytes, startAfter: Option<Bytes>, reverse: bool,
                       visit: Entry -> bool, ghost k: nat)
    returns (ok: bool, visited: seq<Entry>)
    requires t.Valid() && k in t.pager.pins && snap.root == t.pager.pins[k].view.root
    requires CursorOK(prefix, startAfter, reverse)
    ensures ok <==> t.pager.pins[k].view.height < MAX_TREE_DEPTH
    ensures ok ==> visited == Upto(Wanted(t.pager.pins[k].view.entries, prefix, startAfter, reverse), visit)
  {
    hide BTree.Valid, Candidates, Wanted, Leading, Upto, CursorOK;
    ViewNow(t, k);
    ghost var v := t.pager.pins[k].view;
    WFSorted(t.pager.pages, v.root, v.height);
    WFShort(t.pager.pages, v.root, v.height);
    RangeExact(v.entries, prefix, startAfter, reverse);
    ok, visited := RangeAt(t.pager.pages, snap.root, prefix, startAfter, reverse, visit, v.height);
  }

  /** A snapshot taken while its root is a page of the generation being built is not
      frozen: one more operation changes what it shows. (When the root is not such a
      page, `TakeSnapshot` pins it and `FrozenView` applies.) */
  method DirtyRootMoves(t: BTree)
    requires t.Valid() && t.root in t.dirty && t.height < MAX_TREE_DEPTH
    modifies t, t.pager
    ensures Flat(t.pager.pages, old(t.root), old(t.height)) != old(t.Contents())
  {
    hide BTree.Busy, BTree.Books, Flat, DelEntry, PutEntry, WF;
    WFWalkable(t.pager.pages, t.root, t.height);
    var ok, first := EdgeEntry(t.pager.pages, t.root, true, 0, t.height);
    if first.None? {
      var r := t.Put([0], []);
    } else {
      DelCounts(t.pager.pages, t.root, t.height, first.value.key);
      assert first.value in t.Contents();
      var r, removed := t.Remove(first.value.key);
    }
  }

  /** The entry counter is the size of the finite map the tree stands for. */
  lemma CounterIsSize(t: BTree)
    requires t.Valid()
    ensures Sorted(t.Contents()) && t.entries == |AsMap(t.Contents())|
  {
    hide BTree.Busy, BTree.Books;
    WFSorted(t.pager.pages, t.root, t.height);
    AsMapSize(t.Contents());
  }

  // ------------------------------------------------------------------
  // How deep a tree can get
  // ------------------------------------------------------------------

  datatype Operation = PutOp(key: Bytes, value: Bytes) | RemoveOp(key: Bytes) | CommitOp

  /** Neither the working tree nor the published one weighs more than `n`. */
  ghost predicate AtMost(t: BTree, n: nat)
    reads t, t.pager
  {
    t.Weighs() <= n && t.pager.now.view.weight <= n
  }

  /** Any operations on any tree: each adds at most one to what it weighs, which is at least two to
      the power of its height. */
  method Operate(t: BTree, ops: seq<Operation>, ghost n: nat) returns (tooDeep: bool)
    requires t.Valid() && AtMost(t, n)
    modifies t, t.pager
    ensures t.Valid() && AtMost(t, n + |ops|) && Pow2(t.height) <= n + |ops|
    ensures tooDeep ==> n + |ops| > 0x1_0000_0000_0000_0000
  {
    hide BTree.Valid, Weight, PutEntry, DelEntry;
    tooDeep := false;
    for i := 0 to |ops|
      invariant t.Valid() && AtMost(t, n + i)
      invariant tooDeep ==> n + i > 0x1_0000_0000_0000_0000
    {
      DeepIsHeavy(t.pager.pages, t.root, t.height);
      var r := Done;
      match ops[i] {
        case PutOp(key, value) => r := t.Put(key, value);
        case RemoveOp(key) =>
          var removed;
          r, removed := t.Remove(key);
        case CommitOp => t.Commit();
      }
      if r == TooDeep { tooDeep := true; }
    }
    DeepIsHeavy(t.pager.pages, t.root, t.height);
  }

  /** A crash and a restart add nothing. */
  method ReopenLighter(t: BTree, img: Store, ghost n: nat) returns (u: BTree)
    requires t.Valid() && AtMost(t, n) && Image(t.pager.disk, img)
    ensures fresh(u) && u.Valid() && AtMost(u, n)
  {
    hide BTree.Valid, Weight;
    LastMoment(t);
    u := Restart(t, |t.pager.history| - 1, img);
  }

  lemma LastMoment(t: BTree)
    requires t.Valid()
    ensures |t.pager.history| > 0
    ensures var m := t.pager.history[|t.pager.history| - 1];
            m.disk == t.pager.disk && m.now == t.pager.now && m.next == None
  {
    hide BTree.Books, BTree.Tree, Base, StateOK, Chain, Pinned, WF, Reach, Flat;
  }

  /** So over all the processes that open an index, none of its operations is refused for depth
      before there have been 2^64 of them. */
  method NeverTooDeep(ops: seq<Operation>) returns (t: BTree, tooDeep: bool)
    ensures fresh(t) && t.Valid() && AtMost(t, |ops| + 1) && Pow2(t.height) <= |ops| + 1
    ensures |ops| < 0x1_0000_0000_0000_0000 ==> !tooDeep
  {
    hide BTree.Valid, Weight;
    t := new BTree.Create();
    tooDeep := Operate(t, ops, 1);
  }

  lemma DeepIsHeavy(P: Store, root: nat, h: nat)
    ensures Pow2(h) <= Weight(P, root, h)
    ensures h >= MAX_TREE_DEPTH ==> Pow2(h) >= 0x1_0000_0000_0000_0000
  {
    PowDeep();
    if h >= MAX_TREE_DEPTH { Pow2Monotone(MAX_TREE_DEPTH, h); }
  }

  // ------------------------------------------------------------------
  // Bytes
  // ------------------------------------------------------------------

  /** Every page of the tree that puts and removes have left, encoded: cells and slots take no more
      than a body less its header, as long as page numbers fit their thirty-two bits. */
  lemma EveryPageFits(t: BTree, p: nat)
    requires t.Valid() && t.pager.pageCount <= 0x1_0000_0000
    requires p in Reach(t.pager.pages, t.root, t.height)
    ensures p in t.pager.pages && PageBytes.Narrow(t.pager.pages[p]) && PageBytes.Budgeted(t.pager.pages[p])
    ensures var cells := PageBytes.CellsFor(t.pager.pages[p]);
            |PageBytes.Joined(cells)| + |cells| * SLOT_LEN <= PAGE_BODY_LEN - PAGE_HEADER_LEN
  {
    hide WF, Reach, BTree.Busy, BTree.Books, RootOK, PageBytes.Narrow, PageBytes.Budgeted, PageBytes.CellsFor;
    PageBytes.TreeStores(t.pager.pages, t.root, t.height, p);
    PageBytes.StoredSize(t.pager.pages[p]);
  }

  /** So each of them has a body, and the body reads back as the page. */
  method WriteOut(t: BTree, p: nat) returns (bytes: Bytes)
    requires t.Valid() && t.pager.pageCount <= 0x1_0000_0000
    requires p in Reach(t.pager.pages, t.root, t.height)
    ensures p in t.pager.pages && |bytes| == PAGE_BODY_LEN && PageBytes.Loaded(bytes) == Some(t.pager.pages[p])
  {
    hide BTree.Valid, Reach, PageBytes.Narrow, PageBytes.Budgeted, PageBytes.Loaded;
    EveryPageFits(t, p);
    var stored := PageBytes.StorePage(t.pager.pages[p]);
    return stored.value;
  }
}
