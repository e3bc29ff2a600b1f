/** What a crash can leave of an index file, and which tree opening it yields.

    A page written since the last flush may come back as it was before, as any of
    the versions written since, or not readable at all: the buffer pool may have
    evicted it early, and the write may be torn. Everything older is intact. */
module Crash {
  import opened Bytes
  import opened Entries
  import opened Pages
  import opened Shape
  import opened TreeLoad

  const META_A: nat := 0
  const META_B: nat := 1

  datatype Disk = Disk(mem: Store, synced: Store, versions: map<nat, set<Page>>)

  ghost predicate DiskOK(d: Disk) {
    && (forall p :: p in d.mem && p !in d.versions ==> p in d.synced && d.synced[p] == d.mem[p])
    && (forall p :: p in d.versions ==> p in d.mem && d.mem[p] in d.versions[p])
  }

  ghost function Written(d: Disk, id: nat, page: Page): Disk {
    Disk(d.mem[id := page], d.synced, d.versions[id := (if id in d.versions then d.versions[id] else {}) + {page}])
  }

  ghost function Flushed(d: Disk): Disk { Disk(d.mem, d.mem, map[]) }

  /** `img` is a file a crash can leave; a page missing from it cannot be read. */
  ghost predicate Image(d: Disk, img: Store) {
    && (forall p :: p in d.mem && p !in d.versions ==> p in img && img[p] == d.mem[p])
    && (forall p :: p in img && p in d.versions ==> img[p] in d.versions[p] || (p in d.synced && img[p] == d.synced[p]))
    && (forall p :: p in img ==> p in d.mem)
  }

  /** The tree a meta page published: its entries and the pages they stand on. */
  datatype View = View(generation: nat, root: nat, height: nat, entries: seq<Entry>, pages: set<nat>, weight: nat)

  ghost predicate RootOK(P: Store, root: nat, h: nat)
    requires WF(P, root, h)
  {
    h > 0 ==> |P[root].seps| > 0
  }

  ghost predicate Holds(P: Store, v: View) {
    && WF(P, v.root, v.height)
    && Flat(P, v.root, v.height) == v.entries
    && Reach(P, v.root, v.height) == v.pages
    && RootOK(P, v.root, v.height)
    && Weight(P, v.root, v.height) == v.weight
  }

  lemma HoldsFrame(P: Store, Q: Store, v: View)
    requires Holds(P, v) && Agree(P, Q, v.pages)
    ensures Holds(Q, v)
  {
    hide Load;
    Frame(P, Q, v.root, v.height);
    assert v.root in v.pages;
    LoadFrame(P, Q, v.root, v.height);
  }

  datatype Published = Published(meta: Meta, view: View)

  /** The meta page describes the tree it publishes, and lists none of its pages as free. */
  ghost predicate PublishedOK(x: Published) {
    && x.meta.generation == x.view.generation && x.meta.root == x.view.root && x.meta.entries == |x.view.entries|
    && x.meta.highWater >= FIRST_DATA_PAGE
    && (forall p :: p in x.view.pages ==> p < x.meta.highWater)
    && |x.meta.free| <= MAX_FREE_ENTRIES && Distinct(x.meta.free)
    && (forall e :: e in x.meta.free ==>
          FIRST_DATA_PAGE <= e.page < x.meta.highWater && e.page !in x.view.pages && e.generation <= x.meta.generation)
  }

  function Slot(generation: nat): nat { if generation % 2 == 0 then META_A else META_B }

  /** The meta page in a slot, when it reads back as one. */
  function ReadMeta(img: Store, slot: nat): Option<Meta> {
    if slot in img && img[slot].MetaPage? then Some(img[slot].meta) else None
  }

  /** The meta `open` settles on: the readable one of the higher generation. */
  function OpenMeta(img: Store): Option<Meta> {
    match (ReadMeta(img, META_A), ReadMeta(img, META_B))
    case (Some(a), Some(b)) => if a.generation >= b.generation then Some(a) else Some(b)
    case (Some(a), None) => Some(a)
    case (None, Some(b)) => Some(b)
    case (None, None) => None
  }

  /** `meta` sits in its own slot and the other slot holds nothing newer. */
  ghost predicate Settled(img: Store, meta: Meta) {
    && ReadMeta(img, Slot(meta.generation)) == Some(meta)
    && var other := ReadMeta(img, Slot(meta.generation + 1)); other.Some? ==> other.value.generation < meta.generation
  }

  lemma SettledOpens(img: Store, meta: Meta)
    requires Settled(img, meta)
    ensures OpenMeta(img) == Some(meta)
  {
    SlotsDiffer(meta.generation);
  }

  /** A published tree that a crash now cannot touch. */
  ghost predicate Safe(d: Disk, v: View) {
    Holds(d.mem, v) && v.pages !! d.versions.Keys
  }

  /** Every version of page `slot` a crash could leave. */
  ghost predicate MayBe(d: Disk, slot: nat, page: Page) {
    (slot in d.versions && page in d.versions[slot]) || (slot in d.synced && d.synced[slot] == page)
  }

  /** `now` was built on `prev`: it may have freed pages of `prev`, but only with stamps that
      keep them from being reused while `prev` can still be needed. */
  ghost predicate Follows(prev: Published, now: Published) {
    && now.meta.generation == prev.meta.generation + 1
    && (forall p :: p in prev.view.pages ==> p < now.meta.highWater)
    && (forall e :: e in now.meta.free && e.page in prev.view.pages ==> e.generation > prev.meta.generation)
  }

  ghost predicate Publishing(d: Disk, slot: nat, now: Published, next: Published) {
    && Follows(now, next) && Safe(d, next.view) && PublishedOK(next)
    && slot in d.mem && d.mem[slot] == MetaPage(next.meta)
  }

  /** `now` is durably published, `next` (if any) is being published over the older
      slot, and `prev` (if any) still sits whole in that slot. */
  ghost predicate Recoverable(d: Disk, prev: Option<Published>, now: Published, next: Option<Published>) {
    var slot, other := Slot(now.meta.generation), Slot(now.meta.generation + 1);
    && slot !in d.versions && slot in d.mem && d.mem[slot] == MetaPage(now.meta)
    && Safe(d, now.view) && PublishedOK(now)
    && (forall page :: MayBe(d, other, page) && page.MetaPage? ==>
          page.meta.generation < now.meta.generation || (next.Some? && page.meta == next.value.meta))
    && (next.Some? ==> Publishing(d, other, now, next.value))
    && (prev.Some? ==> Follows(prev.value, now) && Safe(d, prev.value.view) && PublishedOK(prev.value))
    && (prev.Some? && next.None? ==>
           other !in d.versions && other in d.mem && d.mem[other] == MetaPage(prev.value.meta))
  }

  /** Opening after a crash finds the last published tree, or the one being
      published, whole: same entries, same pages. */
  lemma CrashReopens(d: Disk, prev: Option<Published>, now: Published, next: Option<Published>, img: Store)
    requires DiskOK(d) && Recoverable(d, prev, now, next) && Image(d, img)
    ensures OpenMeta(img) == Some(now.meta) || (next.Some? && OpenMeta(img) == Some(next.value.meta))
    ensures Settled(img, OpenMeta(img).value)
    ensures PublishedOK(now) && (next.Some? ==> PublishedOK(next.value))
    ensures Holds(img, now.view)
    ensures next.Some? ==> Holds(img, next.value.view)
  {
    hide Holds, PublishedOK;
    var slot, other := Slot(now.meta.generation), Slot(now.meta.generation + 1);
    SlotsDiffer(now.meta.generation);
    assert img[slot] == MetaPage(now.meta);
    if other in img { assert MayBe(d, other, img[other]); }
    SafeSurvives(d, now.view, img);
    if next.Some? { SafeSurvives(d, next.value.view, img); }
  }

  lemma SlotsDiffer(g: nat)
    ensures {Slot(g), Slot(g + 1)} == {META_A, META_B} && Slot(g) != Slot(g + 1)
  {
  }

  lemma SafeSurvives(d: Disk, v: View, img: Store)
    requires DiskOK(d) && Safe(d, v) && Image(d, img)
    ensures Holds(img, v)
  {
    ReachClosed(d.mem, v.root, v.height);
    HoldsFrame(d.mem, img, v);
  }

  /** `prev` is whole in the file beside `now`, ready to be fallen back to. */
  ghost predicate Fallback(img: Store, prev: Published, now: Published) {
    && Follows(prev, now) && PublishedOK(prev) && Holds(img, prev.view)
    && ReadMeta(img, Slot(now.meta.generation + 1)) == Some(prev.meta)
  }

  /** The tree one generation before the one `open` settles on, if the file still has it. */
  ghost function Previous(img: Store, prev: Option<Published>, now: Published,
                          next: Option<Published>): Option<Published> {
    if next.Some? && OpenMeta(img) == Some(next.value.meta) then Some(now)
    else if prev.Some? && ReadMeta(img, Slot(now.meta.generation + 1)) == Some(prev.value.meta) then prev
    else None
  }

  /** A crash never costs the fallback, but for a torn meta page over it. */
  lemma FallbackSurvives(d: Disk, prev: Option<Published>, now: Published, next: Option<Published>, img: Store)
    requires DiskOK(d) && Recoverable(d, prev, now, next) && Image(d, img)
    ensures var p := Previous(img, prev, now, next);
            var chosen := if next.Some? && OpenMeta(img) == Some(next.value.meta) then next.value else now;
            && (p.Some? ==> Fallback(img, p.value, chosen))
            && (next.None? ==> p == prev)
  {
    hide Holds, PublishedOK;
    SlotsDiffer(now.meta.generation);
    SafeSurvives(d, now.view, img);
    if prev.Some? { SafeSurvives(d, prev.value.view, img); }
    assert next.Some? ==> Slot(next.value.meta.generation + 1) == Slot(now.meta.generation);
  }

  /** The two-generation reuse rule buys one more step back: if the newest meta page is itself
      lost, opening settles on the generation before it, which is still whole. */
  lemma NewestMetaLost(img: Store, prev: Published, now: Published)
    requires Fallback(img, prev, now)
    ensures var left := img - {Slot(now.meta.generation)};
            && Settled(left, prev.meta) && OpenMeta(left) == Some(prev.meta)
            && Holds(left, prev.view) && PublishedOK(prev)
  {
    var left := img - {Slot(now.meta.generation)};
    SlotsDiffer(prev.meta.generation);
    assert Slot(now.meta.generation + 1) == Slot(prev.meta.generation);
    ReachClosed(img, prev.view.root, prev.view.height);
    HoldsFrame(img, left, prev.view);
    SettledOpens(left, prev.meta);
  }

  lemma WriteKeepsSafe(d: Disk, id: nat, page: Page, v: View)
    requires Safe(d, v) && id !in v.pages
    ensures Safe(Written(d, id, page), v)
  {
    ReachClosed(d.mem, v.root, v.height);
    HoldsFrame(d.mem, Written(d, id, page).mem, v);
  }

  /** Building the next generation: any data page outside the published trees may be
      written, and may reach the disk at any time. */
  lemma WriteKeeps(d: Disk, prev: Option<Published>, now: Published, id: nat, page: Page)
    requires DiskOK(d) && Recoverable(d, prev, now, None)
    requires id >= FIRST_DATA_PAGE && id !in now.view.pages && (prev.Some? ==> id !in prev.value.view.pages)
    ensures DiskOK(Written(d, id, page)) && Recoverable(Written(d, id, page), prev, now, None)
  {
    var e := Written(d, id, page);
    var other := Slot(now.meta.generation + 1);
    WriteKeepsSafe(d, id, page, now.view);
    if prev.Some? { WriteKeepsSafe(d, id, page, prev.value.view); }
    forall q | MayBe(e, other, q) ensures MayBe(d, other, q) { }
  }

  /** The first flush of a commit: the data pages are durable, nothing is published. */
  lemma FlushKeeps(d: Disk, prev: Option<Published>, now: Published)
    requires DiskOK(d) && Recoverable(d, prev, now, None)
    ensures DiskOK(Flushed(d)) && Recoverable(Flushed(d), prev, now, None)
  {
    var e := Flushed(d);
    var other := Slot(now.meta.generation + 1);
    forall q | MayBe(e, other, q) ensures MayBe(d, other, q) { }
  }

  /** The meta page written over the older slot, not yet flushed. */
  lemma MetaKeeps(d: Disk, prev: Option<Published>, now: Published, next: Published)
    requires DiskOK(d) && Recoverable(d, prev, now, None) && d.versions == map[]
    requires Follows(now, next) && Holds(d.mem, next.view) && PublishedOK(next)
    ensures var e := Written(d, Slot(next.meta.generation), MetaPage(next.meta));
      DiskOK(e) && Recoverable(e, prev, now, Some(next))
  {
    var id := Slot(next.meta.generation);
    var e := Written(d, id, MetaPage(next.meta));
    SlotsDiffer(now.meta.generation);
    ReachClosed(d.mem, now.view.root, now.view.height);
    ReachClosed(d.mem, next.view.root, next.view.height);
    WriteKeepsSafe(d, id, MetaPage(next.meta), now.view);
    WriteKeepsSafe(d, id, MetaPage(next.meta), next.view);
    if prev.Some? {
      ReachClosed(d.mem, prev.value.view.root, prev.value.view.height);
      WriteKeepsSafe(d, id, MetaPage(next.meta), prev.value.view);
    }
    forall q | MayBe(e, id, q) ensures q == MetaPage(next.meta) || MayBe(d, id, q) { }
  }

  /** The second flush is the commit point. */
  lemma PublishKeeps(d: Disk, prev: Option<Published>, now: Published, next: Published)
    requires DiskOK(d) && Recoverable(d, prev, now, Some(next))
    ensures DiskOK(Flushed(d)) && Recoverable(Flushed(d), Some(now), next, None)
  {
    SlotsDiffer(now.meta.generation);
    assert Slot(next.meta.generation + 1) == Slot(now.meta.generation);
  }

  // ------------------------------------------------------------------
  // A new file
  // ------------------------------------------------------------------

  function FirstMeta(): Meta { Meta(1, FIRST_DATA_PAGE, 0, FIRST_DATA_PAGE + 1, []) }

  function EmptyView(): View { View(1, FIRST_DATA_PAGE, 0, [], {FIRST_DATA_PAGE}, 1) }

  /** The file after each step of creating an index: nothing, the root leaf written, that
      flushed, the first meta page written, that flushed. */
  ghost function CreationDisk(step: nat): Disk {
    if step == 0 then Disk(map[], map[], map[])
    else if step == 1 then Written(CreationDisk(0), FIRST_DATA_PAGE, Leaf([]))
    else if step == 2 then Flushed(CreationDisk(1))
    else if step == 3 then Written(CreationDisk(2), META_B, MetaPage(FirstMeta()))
    else Flushed(CreationDisk(3))
  }

  /** A file: the pages that can be read, and its length in whole pages. */
  datatype File = File(pages: Store, count: nat)

  /** A file a crash can leave. It is long enough for what is in it, and never longer than
      what was written; in between lie the lengths of a torn extension. */
  ghost predicate CrashFile(d: Disk, f: File) {
    && Image(d, f.pages)
    && (forall p :: p in f.pages ==> p < f.count)
    && (f.count > 0 ==> exists p :: p in d.mem && f.count <= p + 1)
  }

  datatype Opened = Initialized | Found(meta: Meta) | Refused

  /** Opening a file: one too short to hold both meta slots is initialised anew, any other
      needs a readable meta page. */
  function OpenFile(f: File): Opened {
    if f.count < FIRST_DATA_PAGE then Initialized
    else
      var meta := OpenMeta(f.pages);
      if meta.Some? then Found(meta.value) else Refused
  }

  /** Opening gives the empty index. */
  ghost predicate OpensEmpty(f: File) {
    || OpenFile(f).Initialized?
    || (OpenFile(f) == Found(FirstMeta()) && Settled(f.pages, FirstMeta()) && Holds(f.pages, EmptyView()))
  }
}
