/** Page allocation inside one generation: which pages may be handed out, and what
    a run of allocations, releases and page writes leaves alone. */
module Alloc {
  import opened Bytes
  import opened Entries
  import opened Pages
  import opened Shape
  import opened TreeLoad

  /** The tree's working state: page contents, the allocator, and the pages already
      copied in the generation being built. `oldest` is the oldest pinned reader. */
  datatype State = State(mem: Store, pageCount: nat, free: seq<FreeEntry>, dirty: set<nat>, generation: nat,
                         oldest: Option<nat>)

  /** May this freed page be handed out again? */
  predicate Reusable(e: FreeEntry, generation: nat, oldest: Option<nat>) {
    e.generation + 2 <= generation + 1 && (oldest.Some? ==> oldest.value >= e.generation)
  }

  /** Page `p` exists and the allocator will not hand it out. */
  ghost predicate InUse(s: State, p: nat) {
    p < s.pageCount && forall e :: e in s.free && e.page == p ==> !Reusable(e, s.generation, s.oldest)
  }

  ghost predicate Freed(s: State, p: nat) {
    exists e :: e in s.free && e.page == p
  }

  /** Any of these pages that was freed was freed after generation `g`. */
  ghost predicate Stamped(free: seq<FreeEntry>, pages: set<nat>, g: nat) {
    forall e :: e in free && e.page in pages ==> e.generation > g
  }

  ghost predicate StateOK(s: State) {
    && s.pageCount >= FIRST_DATA_PAGE
    && |s.free| <= MAX_FREE_ENTRIES
    && Distinct(s.free)
    && (forall e :: e in s.free ==> e.generation <= s.generation + 1 && FIRST_DATA_PAGE <= e.page < s.pageCount)
    && (forall p :: p in s.dirty ==> InUse(s, p) && p >= FIRST_DATA_PAGE)
    && Stamped(s.free, s.dirty, s.generation)
  }

  /** From `s` to `t` only pages of `scope` that were already dirty, and pages
      nobody was using, were written; only pages of `scope`, or newly taken ones, were freed. */
  ghost predicate Grown(s: State, t: State, scope: set<nat>) {
    && StateOK(t)
    && t.generation == s.generation && t.oldest == s.oldest
    && s.dirty <= t.dirty
    && (forall p :: p in t.dirty && p !in s.dirty ==> !InUse(s, p))
    && (forall p :: InUse(s, p) ==> InUse(t, p))
    && (forall p :: p in s.mem && (p !in t.dirty || (p in s.dirty && p !in scope)) ==>
           p in t.mem && t.mem[p] == s.mem[p])
    && (forall e :: e in t.free ==>
           e in s.free || (e.generation == s.generation + 1 && (e.page in scope || e.page in t.dirty - s.dirty)))
  }

  lemma GrownRefl(s: State, scope: set<nat>)
    requires StateOK(s)
    ensures Grown(s, s, scope)
  {
  }

  lemma GrownTrans(s: State, t: State, u: State, a: set<nat>, b: set<nat>, c: set<nat>)
    requires Grown(s, t, a) && Grown(t, u, b)
    requires a <= c && forall p :: p in b ==> p in c || p in t.dirty - s.dirty
    ensures Grown(s, u, c)
  {
    forall p | p in u.dirty && p !in s.dirty ensures !InUse(s, p) {
      if p !in t.dirty { assert !InUse(t, p); }
    }
  }

  /** Pages the tree was using and that are not dirty within `scope` read the same. */
  lemma GrownAgree(s: State, t: State, scope: set<nat>, keep: set<nat>)
    requires Grown(s, t, scope)
    requires forall p :: p in keep ==> p in s.mem && InUse(s, p) && !(p in s.dirty && p in scope)
    ensures Agree(s.mem, t.mem, keep)
  {
  }

  /** A page freed after a generation that recovery may still name, or that a reader
      is pinned at, is not handed out. */
  lemma StampedInUse(s: State, pages: set<nat>, g: nat, p: nat)
    requires Stamped(s.free, pages, g) && p in pages && p < s.pageCount
    requires g + 1 >= s.generation || (s.oldest.Some? && s.oldest.value <= g)
    ensures InUse(s, p)
  {
  }

  lemma StampedGrown(s: State, t: State, scope: set<nat>, pages: set<nat>, g: nat)
    requires Grown(s, t, scope) && Stamped(s.free, pages, g) && g <= s.generation
    ensures Stamped(t.free, pages, g)
  {
  }

  /** `base` is the committed tree's page set: untouched in this generation, and
      closed under child pointers. */
  ghost predicate Base(s: State, base: set<nat>) {
    && (forall p :: p in base ==> p in s.mem && p !in s.dirty && InUse(s, p))
    && (forall p, i :: p in base && s.mem[p].Branch? && 0 <= i < |s.mem[p].kids| ==> s.mem[p].kids[i] in base)
  }

  lemma BaseGrown(s: State, t: State, scope: set<nat>, base: set<nat>)
    requires Base(s, base) && Grown(s, t, scope)
    ensures Base(t, base)
  {
  }

  /** A set of pages the working tree may stand on: in use, not freed, and each
      either copied in this generation or still the committed one. */
  ghost predicate Owned(s: State, pages: set<nat>, base: set<nat>) {
    forall p :: p in pages ==> InUse(s, p) && !Freed(s, p) && (p in s.dirty || p in base)
  }

  /** `ks` and `ss` stand in for the subtree `id` had: built from its pages and from
      newly allocated ones, rooted at copied pages, owned, and hardly heavier. */
  ghost predicate Grafted(s: State, t: State, id: nat, h: nat, ks: seq<nat>, ss: seq<Bytes>, base: set<nat>) {
    && Grown(s, t, Reach(s.mem, id, h))
    && Linked(t.mem, ks, ss, h)
    && Owned(t, ReachKids(t.mem, ks, h), base)
    && (forall p :: p in ReachKids(t.mem, ks, h) ==> p in Reach(s.mem, id, h) || p in t.dirty - s.dirty)
    && (forall p :: p in ks ==> p in t.dirty)
    && Light(s.mem, id, h, t.mem, ks, |ss|)
  }

  /** Readers coming and going change which freed pages are reusable, never whether a
      copied page or an unfreed one is in use. */
  lemma ReadersMove(s: State, oldest: Option<nat>)
    requires StateOK(s)
    ensures StateOK(s.(oldest := oldest))
    ensures forall pages, base :: Owned(s, pages, base) ==> Owned(s.(oldest := oldest), pages, base)
  {
    var t := s.(oldest := oldest);
    forall p | p in s.dirty ensures InUse(t, p) { assert InUse(s, p); }
    forall pages, base | Owned(s, pages, base) ensures Owned(t, pages, base) {
      forall p | p in pages ensures InUse(t, p) && !Freed(t, p) {
        assert InUse(s, p) && !Freed(s, p);
        forall e | e in t.free ensures e.page != p { assert Freed(s, e.page); }
      }
    }
  }

  // ------------------------------------------------------------------
  // The allocator's steps
  // ------------------------------------------------------------------

  /** Drop element `i`, moving the last one into its place. */
  function SwapRemove(free: seq<FreeEntry>, i: nat): seq<FreeEntry>
    requires i < |free|
  {
    free[i := free[|free| - 1]][..|free| - 1]
  }

  lemma SwapRemoveMembers(free: seq<FreeEntry>, i: nat)
    requires i < |free| && Distinct(free)
    ensures Distinct(SwapRemove(free, i))
    ensures forall e :: e in SwapRemove(free, i) <==> e in free && e != free[i]
  {
    var out := SwapRemove(free, i);
    forall e | e in free && e != free[i] ensures e in out {
      var j :| 0 <= j < |free| && free[j] == e;
      assert if j == |free| - 1 then out[i] == e else out[j] == e;
    }
  }

  /** The page handed out is the first reusable one of the free list, which loses just that
      entry, or a new one at the end of the file when none is reusable. */
  ghost predicate FirstReusable(s: State, t: State, id: nat) {
    if exists i :: 0 <= i < |s.free| && Reusable(s.free[i], s.generation, s.oldest)
    then exists k :: 0 <= k < |s.free| && TakesFirst(s, t, id, k)
    else t.free == s.free && id == s.pageCount && t.pageCount == s.pageCount + 1
  }

  ghost predicate TakesFirst(s: State, t: State, id: nat, k: nat)
    requires k < |s.free|
  {
    && Reusable(s.free[k], s.generation, s.oldest)
    && (forall j :: 0 <= j < k ==> !Reusable(s.free[j], s.generation, s.oldest))
    && t.free == SwapRemove(s.free, k) && id == s.free[k].page && t.pageCount == s.pageCount
  }

  /** Handing out a reusable page. */
  lemma ReuseGrown(s: State, i: nat)
    requires StateOK(s) && i < |s.free| && Reusable(s.free[i], s.generation, s.oldest)
    ensures var id := s.free[i].page; var t := s.(free := SwapRemove(s.free, i), dirty := s.dirty + {id});
      Grown(s, t, {}) && id !in s.dirty && !Freed(t, id)
  {
    var id := s.free[i].page;
    var t := s.(free := SwapRemove(s.free, i), dirty := s.dirty + {id});
    SwapRemoveMembers(s.free, i);
    assert s.free[i] in s.free;
    assert !InUse(s, id);
    forall e | e in t.free ensures e.page != id {
      var j :| 0 <= j < |s.free| && s.free[j] == e;
      if j < i { assert s.free[j].page != s.free[i].page; }
      if i < j { assert s.free[i].page != s.free[j].page; }
    }
  }

  /** Handing out a page past the end of the file. */
  lemma ExtendGrown(s: State)
    requires StateOK(s)
    ensures var t := s.(pageCount := s.pageCount + 1, dirty := s.dirty + {s.pageCount});
      Grown(s, t, {}) && s.pageCount !in s.dirty && !Freed(t, s.pageCount)
  {
  }

  /** Recording a superseded page. */
  lemma ReleaseGrown(s: State, page: nat)
    requires StateOK(s) && |s.free| < MAX_FREE_ENTRIES
    requires InUse(s, page) && !Freed(s, page) && page >= FIRST_DATA_PAGE
    ensures Grown(s, s.(free := s.free + [FreeEntry(s.generation + 1, page)]), {page})
  {
    var t := s.(free := s.free + [FreeEntry(s.generation + 1, page)]);
    forall e | e in s.free ensures e.page != page { assert Freed(s, e.page); }
  }

  /** Writing a page copied in this generation. */
  lemma WriteGrown(s: State, id: nat, page: Page, scope: set<nat>)
    requires StateOK(s) && id in s.dirty && id in scope
    ensures Grown(s, s.(mem := s.mem[id := page]), scope)
  {
  }
}
