/** Leaf, branch and meta pages as bytes: the cells a page is stored as, reading them back, the
    room they take, and the in-place edits an insert or a removal makes. */
module PageBytes {
  import opened Bytes
  import opened Entries
  import opened Pages
  import opened Shape
  import opened LeafEdit
  import opened Splice
  import opened Slotted
  import Graft

  // ---- cells ----

  /** Key length, key, value. The length is cast to sixteen bits. */
  function LeafCell(e: Entry): (cell: Bytes)
    ensures |cell| == LeafCellLen(e)
  {
    U16Bytes(|e.key| % 65536) + e.key + e.value
  }

  function LeafKey(cell: Bytes): Bytes {
    if |cell| < 2 || |cell| < 2 + U16(cell, 0) then [] else cell[2..2 + U16(cell, 0)]
  }

  function LeafValue(cell: Bytes): Bytes {
    if |cell| < 2 || |cell| < 2 + U16(cell, 0) then [] else cell[2 + U16(cell, 0)..]
  }

  /** Key length, child, key. */
  function BranchCell(key: Bytes, child: nat): (cell: Bytes)
    requires child < 0x1_0000_0000
    ensures |cell| == BranchCellLen(key)
  {
    U16Bytes(|key| % 65536) + U32Bytes(child) + key
  }

  function BranchKey(cell: Bytes): Bytes {
    if |cell| < 6 || |cell| < 6 + U16(cell, 0) then [] else cell[6..6 + U16(cell, 0)]
  }

  function BranchChild(cell: Bytes): nat {
    if |cell| < 6 then 0 else U32(cell, 2)
  }

  lemma FieldAt(a: Bytes, s: Bytes, c: Bytes)
    ensures |s| == 2 ==> U16(a + s + c, |a|) == U16(s, 0)
    ensures |s| == 4 ==> U32(a + s + c, |a|) == U32(s, 0)
  {
    var t := a + s + c;
    assert forall k :: 0 <= k < |s| ==> t[|a| + k] == s[k];
    if |s| == 2 { assert t[|a| + 0] == s[0] && t[|a| + 1] == s[1]; }
    if |s| == 4 { assert t[|a| + 0] == s[0] && t[|a| + 1] == s[1] && t[|a| + 2] == s[2] && t[|a| + 3] == s[3]; }
  }

  /** A leaf cell gives back its entry exactly when the key length survives the cast. */
  lemma LeafCellBack(e: Entry)
    ensures LeafKey(LeafCell(e)) == e.key && LeafValue(LeafCell(e)) == e.value <==> |e.key| < 65536
  {
    var n := U16Bytes(|e.key| % 65536);
    var cell := LeafCell(e);
    assert cell == [] + n + (e.key + e.value);
    FieldAt([], n, e.key + e.value);
    if |e.key| < 65536 {
      assert cell[2..2 + |e.key|] == e.key && cell[2 + |e.key|..] == e.value;
    } else {
      assert |LeafKey(cell)| <= U16(cell, 0) < 65536;
    }
  }

  lemma BranchCellBack(key: Bytes, child: nat)
    requires child < 0x1_0000_0000
    ensures BranchChild(BranchCell(key, child)) == child
    ensures BranchKey(BranchCell(key, child)) == key <==> |key| < 65536
  {
    var n, c := U16Bytes(|key| % 65536), U32Bytes(child);
    var cell := BranchCell(key, child);
    assert cell == [] + n + (c + key);
    FieldAt([], n, c + key);
    FieldAt(n, c, key);
    if |key| < 65536 {
      assert cell[6..6 + |key|] == key;
    } else {
      assert |BranchKey(cell)| <= U16(cell, 0) < 65536;
    }
  }

  /** Where each field of a cell stands, least significant byte first. */
  lemma CellLayout(e: Entry, child: nat)
    requires |e.key| < 65536 && child < 0x1_0000_0000
    ensures var cell, n := LeafCell(e), |e.key|;
            cell[0] == n % 256 && cell[1] == n / 256 && cell[2..2 + n] == e.key && cell[2 + n..] == e.value
    ensures var cell, n := BranchCell(e.key, child), |e.key|;
            && cell[0] == n % 256 && cell[1] == n / 256 && cell[6..] == e.key
            && cell[2] == child % 256 && cell[3] == child / 256 % 256
            && cell[4] == child / 65536 % 256 && cell[5] == child / 16777216
  {
  }

  // ---- the meta record ----

  const META_MAGIC: Bytes := [0x46, 0x51, 0x42, 0x54]
  const META_FIXED: nat := 30
  const FREE_LEN: nat := 12

  function U64(b: Bytes, at: nat): nat
    requires at + 8 <= |b|
  {
    U32(b, at) + 0x1_0000_0000 * U32(b, at + 4)
  }

  function U64Bytes(n: nat): (s: Bytes)
    requires n < 0x1_0000_0000_0000_0000
    ensures |s| == 8
  {
    U32Bytes(n % 0x1_0000_0000) + U32Bytes(n / 0x1_0000_0000)
  }

  lemma WideAt(a: Bytes, n: nat, c: Bytes)
    requires n < 0x1_0000_0000_0000_0000
    ensures U64(a + U64Bytes(n) + c, |a|) == n
  {
    var low, high := U32Bytes(n % 0x1_0000_0000), U32Bytes(n / 0x1_0000_0000);
    assert a + U64Bytes(n) + c == a + low + (high + c) == (a + low) + high + c;
    FieldAt(a, low, high + c);
    FieldAt(a + low, high, c);
  }

  predicate NarrowFree(free: seq<FreeEntry>) {
    forall i :: 0 <= i < |free| ==> free[i].generation < 0x1_0000_0000_0000_0000 && free[i].page < 0x1_0000_0000
  }

  predicate NarrowMeta(m: Meta) {
    && m.generation < 0x1_0000_0000_0000_0000 && m.entries < 0x1_0000_0000_0000_0000
    && m.root < 0x1_0000_0000 && m.highWater < 0x1_0000_0000 && NarrowFree(m.free)
  }

  function FreeBytes(free: seq<FreeEntry>): (s: Bytes)
    requires NarrowFree(free)
    ensures |s| == FREE_LEN * |free|
  {
    if free == [] then []
    else
      var last := free[|free| - 1];
      FreeBytes(free[..|free| - 1]) + U64Bytes(last.generation) + U32Bytes(last.page)
  }

  /** At most `MAX_FREE_ENTRIES` free pages are written. */
  function Listed(free: seq<FreeEntry>): seq<FreeEntry> {
    if |free| <= MAX_FREE_ENTRIES then free else free[..MAX_FREE_ENTRIES]
  }

  function MetaFixed(m: Meta): (s: Bytes)
    requires NarrowMeta(m)
    ensures |s| == META_FIXED
  {
    META_MAGIC + U64Bytes(m.generation) + U32Bytes(m.root) + U64Bytes(m.entries) + U32Bytes(m.highWater) +
    U16Bytes(|Listed(m.free)|)
  }

  function MetaCell(m: Meta): (s: Bytes)
    requires NarrowMeta(m)
    ensures |s| == META_FIXED + FREE_LEN * |Listed(m.free)|
  {
    MetaFixed(m) + FreeBytes(Listed(m.free))
  }

  function FreeAt(b: Bytes, at: nat): FreeEntry
    requires at + FREE_LEN <= |b|
  {
    FreeEntry(U64(b, at), U32(b, at + 8))
  }

  function ReadMeta(b: Bytes): Option<Meta> {
    if |b| < META_FIXED || b[..4] != META_MAGIC then None
    else
      var count := U16(b, 28);
      if |b| < META_FIXED + count * FREE_LEN then None
      else
        Some(Meta(U64(b, 4), U32(b, 12), U64(b, 16), U32(b, 24),
                  seq(count, i requires 0 <= i < count => FreeAt(b, META_FIXED + i * FREE_LEN))))
  }

  lemma {:induction false} FreeBack(front: Bytes, free: seq<FreeEntry>, back: Bytes, i: nat)
    requires NarrowFree(free) && i < |free|
    ensures FreeAt(front + FreeBytes(free) + back, |front| + FREE_LEN * i) == free[i]
    decreases |free|
  {
    hide U64Bytes, U64;
    var last, init := free[|free| - 1], free[..|free| - 1];
    var g, p := U64Bytes(last.generation), U32Bytes(last.page);
    var a := front + FreeBytes(init);
    var t := front + FreeBytes(free) + back;
    assert t == a + g + (p + back) == (a + g) + p + back;
    if i == |init| {
      WideAt(a, last.generation, p + back);
      FieldAt(a + g, p, back);
    } else {
      assert t == front + FreeBytes(init) + (g + p + back);
      FreeBack(front, init, g + p + back, i);
    }
  }

  lemma FixedBack(m: Meta, back: Bytes)
    requires NarrowMeta(m)
    ensures var b := MetaFixed(m) + back;
            && b[..4] == META_MAGIC && U64(b, 4) == m.generation && U32(b, 12) == m.root && U64(b, 16) == m.entries
            && U32(b, 24) == m.highWater && U16(b, 28) == |Listed(m.free)|
  {
    hide U64Bytes, U64;
    var g, r, e, h, c := U64Bytes(m.generation), U32Bytes(m.root), U64Bytes(m.entries), U32Bytes(m.highWater),
      U16Bytes(|Listed(m.free)|);
    var b := MetaFixed(m) + back;
    assert b == META_MAGIC + g + (r + e + h + c + back);
    WideAt(META_MAGIC, m.generation, r + e + h + c + back);
    assert b == (META_MAGIC + g) + r + (e + h + c + back);
    FieldAt(META_MAGIC + g, r, e + h + c + back);
    assert b == (META_MAGIC + g + r) + e + (h + c + back);
    WideAt(META_MAGIC + g + r, m.entries, h + c + back);
    assert b == (META_MAGIC + g + r + e) + h + (c + back);
    FieldAt(META_MAGIC + g + r + e, h, c + back);
    assert b == (META_MAGIC + g + r + e + h) + c + back;
    FieldAt(META_MAGIC + g + r + e + h, c, back);
  }

  /** A meta record reads back, its free list cut at the most that is written. */
  lemma MetaBack(m: Meta)
    requires NarrowMeta(m)
    ensures ReadMeta(MetaCell(m)) == Some(m.(free := Listed(m.free)))
  {
    hide U64, U32, U16, MetaFixed, FreeAt;
    var free := Listed(m.free);
    var b := MetaCell(m);
    FixedBack(m, FreeBytes(free));
    forall i: nat | i < |free| ensures FreeAt(b, META_FIXED + i * FREE_LEN) == free[i] {
      assert b + [] == b;
      FreeBack(MetaFixed(m), free, [], i);
    }
    assert ReadMeta(b).Some? && ReadMeta(b).value.free == free;
  }

  method EncodeMeta(m: Meta) returns (out: Bytes)
    requires NarrowMeta(m)
    ensures out == MetaCell(m)
  {
    hide U64Bytes;
    var free := Listed(m.free);
    out := META_MAGIC;
    out := out + U64Bytes(m.generation);
    out := out + U32Bytes(m.root);
    out := out + U64Bytes(m.entries);
    out := out + U32Bytes(m.highWater);
    out := out + U16Bytes(|free|);
    for i := 0 to |free|
      invariant out == MetaFixed(m) + FreeBytes(free[..i])
    {
      assert free[..i + 1][..i] == free[..i];
      out := out + U64Bytes(free[i].generation);
      out := out + U32Bytes(free[i].page);
    }
    assert free[..|free|] == free;
  }

  method DecodeMeta(b: Bytes) returns (r: Option<Meta>)
    ensures r == ReadMeta(b)
  {
    hide U64, U32, U16;
    if |b| < META_FIXED || b[0..4] != META_MAGIC { return None; }
    var count := U16(b, 28);
    if |b| < META_FIXED + count * FREE_LEN { return None; }
    var free: seq<FreeEntry> := [];
    for i := 0 to count
      invariant |free| == i && forall j :: 0 <= j < i ==> free[j] == FreeAt(b, META_FIXED + j * FREE_LEN)
    {
      free := free + [FreeAt(b, META_FIXED + i * FREE_LEN)];
    }
    assert free == ReadMeta(b).value.free;
    return Some(Meta(U64(b, 4), U32(b, 12), U64(b, 16), U32(b, 24), free));
  }

  // ---- whole pages ----

  predicate NarrowIds(kids: seq<nat>) { forall i :: 0 <= i < |kids| ==> kids[i] < 0x1_0000_0000 }

  /** What the fields of a page have room for: the widths of its numbers. */
  predicate Narrow(page: Page) {
    match page
    case Leaf(entries) => forall i :: 0 <= i < |entries| ==> |entries[i].key| < 65536
    case Branch(kids, seps) =>
      |kids| == |seps| + 1 && NarrowIds(kids) && forall i :: 0 <= i < |seps| ==> |seps[i]| < 65536
    case MetaPage(m) => NarrowMeta(m) && |m.free| <= MAX_FREE_ENTRIES
  }

  function KindFor(page: Page): PageKind {
    match page
    case Leaf(_) => LeafKind
    case Branch(_, _) => BranchKind
    case MetaPage(_) => MetaKind
  }

  function ExtraFor(page: Page): (n: nat)
    requires Narrow(page)
    ensures n < 0x1_0000_0000
  {
    if page.Branch? then page.kids[0] else 0
  }

  function LeafCells(s: seq<Entry>): seq<Bytes> { seq(|s|, i requires 0 <= i < |s| => LeafCell(s[i])) }

  function BranchCells(kids: seq<nat>, seps: seq<Bytes>): seq<Bytes>
    requires |kids| == |seps| + 1 && NarrowIds(kids)
  {
    seq(|seps|, i requires 0 <= i < |seps| => BranchCell(seps[i], kids[i + 1]))
  }

  function CellsFor(page: Page): seq<Bytes>
    requires Narrow(page)
  {
    match page
    case Leaf(entries) => LeafCells(entries)
    case Branch(kids, seps) => BranchCells(kids, seps)
    case MetaPage(m) => [MetaCell(m)]
  }

  /** The page a kind, an auxiliary word and a list of cells stand for. */
  function Parsed(kind: PageKind, extra: nat, cells: seq<Bytes>): Option<Page> {
    match kind
    case LeafKind =>
      Some(Leaf(seq(|cells|, i requires 0 <= i < |cells| => Entry(LeafKey(cells[i]), LeafValue(cells[i])))))
    case BranchKind =>
      Some(Branch([extra] + seq(|cells|, i requires 0 <= i < |cells| => BranchChild(cells[i])),
                  seq(|cells|, i requires 0 <= i < |cells| => BranchKey(cells[i]))))
    case MetaKind =>
      if cells == [] then None
      else (match ReadMeta(cells[0]) case Some(m) => Some(MetaPage(m)) case None => None)
    case _ => None
  }

  lemma ParsedBack(page: Page)
    requires Narrow(page)
    ensures Parsed(KindFor(page), ExtraFor(page), CellsFor(page)) == Some(page)
  {
    hide LeafKey, LeafValue, BranchKey, BranchChild, ReadMeta, MetaCell;
    match page
    case Leaf(entries) =>
      forall i: nat | i < |entries|
        ensures Entry(LeafKey(LeafCell(entries[i])), LeafValue(LeafCell(entries[i]))) == entries[i]
      {
        LeafCellBack(entries[i]);
      }
      assert Parsed(LeafKind, 0, LeafCells(entries)).value.entries == entries;
    case Branch(kids, seps) =>
      forall i: nat | i < |seps|
        ensures BranchKey(BranchCell(seps[i], kids[i + 1])) == seps[i]
        ensures BranchChild(BranchCell(seps[i], kids[i + 1])) == kids[i + 1]
      {
        BranchCellBack(seps[i], kids[i + 1]);
      }
      var r := Parsed(BranchKind, kids[0], BranchCells(kids, seps)).value;
      assert r.kids == kids && r.seps == seps;
    case MetaPage(m) =>
      MetaBack(m);
  }

  // ---- the room a page takes ----

  function Joined(cells: seq<Bytes>): Bytes {
    if cells == [] then [] else Joined(cells[..|cells| - 1]) + cells[|cells| - 1]
  }

  lemma {:induction false} JoinedLen(cells: seq<Bytes>)
    ensures |Joined(cells)| + |cells| * SLOT_LEN == Used(Sizes(cells))
  {
    if cells != [] {
      var init := cells[..|cells| - 1];
      JoinedLen(init);
      assert Sizes(cells)[..|cells| - 1] == Sizes(init);
    }
  }

  lemma SizesFor(page: Page)
    requires Narrow(page)
    ensures page.Leaf? ==> Sizes(CellsFor(page)) == LeafLens(page.entries)
    ensures page.Branch? ==> Sizes(CellsFor(page)) == BranchLens(page.seps)
    ensures page.MetaPage? ==> Fits(Sizes(CellsFor(page)))
  {
    hide LeafCell, BranchCell, MetaCell, Used;
    if page.MetaPage? {
      assert Sizes(CellsFor(page)) == [|MetaCell(page.meta)|];
      UsedOne(|MetaCell(page.meta)|);
    }
  }

  /** The budget the tree keeps for a page. */
  predicate Budgeted(page: Page) {
    (page.Leaf? ==> Fits(LeafLens(page.entries))) && (page.Branch? ==> Fits(BranchLens(page.seps)))
  }

  /** The tree's budget, counted in encoded bytes: cells and slots fill no more than a body
      less its header. */
  lemma StoredSize(page: Page)
    requires Narrow(page)
    ensures var cells := CellsFor(page);
            Budgeted(page) <==> |Joined(cells)| + |cells| * SLOT_LEN <= PAGE_BODY_LEN - PAGE_HEADER_LEN
    ensures Budgeted(page) <==> Fits(Sizes(CellsFor(page)))
  {
    hide Used, CellsFor, Joined, LeafLens, BranchLens;
    SizesFor(page);
    JoinedLen(CellsFor(page));
  }

  /** What a stored body is read back as. */
  function Loaded(bytes: Bytes): Option<Page> {
    if Acceptable(bytes) then Parsed(KindOf(bytes[OFF_KIND]).value, U32(bytes, OFF_EXTRA), Cells(bytes)) else None
  }

  /** Build and seal the body of a page: it works exactly within the tree's budget, and the body
      reads back as the page. */
  method StorePage(page: Page) returns (bytes: Option<Bytes>)
    requires Narrow(page)
    ensures bytes.Some? <==> Budgeted(page)
    ensures bytes.Some? ==> |bytes.value| == PAGE_BODY_LEN && Loaded(bytes.value) == Some(page)
  {
    hide Fits, Budgeted, Sound, Marked, CellsFor, Parsed, Checksum, StoredCrc, Framed;
    StoredSize(page);
    ParsedBack(page);
    var cells := CellsFor(page);
    var raw := BuildPage(KindFor(page), ExtraFor(page), cells);
    if raw == null { return None; }
    var b := raw.Encode();
    return Some(b);
  }

  method LoadPage(bytes: Bytes) returns (page: Option<Page>)
    ensures page == Loaded(bytes)
  {
    hide Checksum, StoredCrc, Framed, Parsed;
    var ok := Check(bytes);
    if !ok { return None; }
    var cells := PageCells(bytes);
    page := Parsed(KindOf(bytes[OFF_KIND]).value, U32(bytes, OFF_EXTRA), cells);
  }

  // ---- every page of a tree ----

  /** Every page of a well-formed tree is within its budget, whole numbers and all. */
  lemma {:induction false} TreeStores(P: Store, id: nat, h: nat, p: nat)
    requires WF(P, id, h) && p in Reach(P, id, h)
    requires forall q :: q in Reach(P, id, h) ==> q < 0x1_0000_0000
    ensures p in P && Narrow(P[p]) && Budgeted(P[p])
    decreases h
  {
    hide Fits, LeafLens, BranchLens, InRange, Flat, Narrow, SortedSeps;
    if h == 0 {
      LeafNarrow(P[id].entries);
    } else {
      var kids, seps := P[id].kids, P[id].seps;
      forall i: nat | i < |kids| ensures Reach(P, kids[i], h - 1) <= Reach(P, id, h) && kids[i] in Reach(P, id, h) {
        ReachKid(P, kids, h - 1, i);
      }
      BranchNarrow(kids, seps);
      if p != id {
        var i :| 0 <= i < |kids| && p in Reach(P, kids[i], h - 1);
        TreeStores(P, kids[i], h - 1, p);
      }
    }
  }

  lemma LeafNarrow(s: seq<Entry>)
    requires LeafOK(s)
    ensures Narrow(Leaf(s))
  {
    hide Sorted, Fits;
    forall i: nat | i < |s| ensures |s[i].key| < 65536 { assert s[i] in s; }
  }

  lemma BranchNarrow(kids: seq<nat>, seps: seq<Bytes>)
    requires |kids| == |seps| + 1 && (forall i :: 0 <= i < |kids| ==> kids[i] < 0x1_0000_0000)
    requires forall i :: 0 <= i < |seps| ==> |seps[i]| <= MAX_KEY_LEN
    ensures Narrow(Branch(kids, seps))
  {
  }

  // ---- edits in place ----

  /** The bytes in memory are this page. */
  ghost predicate Shows(raw: RawPage, page: Page)
    reads raw
  {
    && raw.Valid() && Narrow(page) && raw.Kind() == KindFor(page) && raw.Extra() == ExtraFor(page)
    && raw.View() == CellsFor(page)
  }

  /** Put an entry into a leaf without splitting: done exactly when the new entry list still fits,
      and the page is left as it was when it does not. */
  method PutInPlace(raw: RawPage, ghost list: seq<Entry>, index: nat, found: bool, key: Bytes, value: Bytes)
    returns (ok: bool)
    requires Shows(raw, Leaf(list)) && index <= |list| && (found ==> index < |list|) && |key| <= MAX_KEY_LEN
    modifies raw
    ensures ok <==> Fits(LeafLens(PutAt(list, index, found, Entry(key, value))))
    ensures Shows(raw, Leaf(if ok then PutAt(list, index, found, Entry(key, value)) else list))
  {
    hide Used, LeafCell, Sound, Marked, LeafLens;
    ghost var e := Entry(key, value);
    PutAtUsed(list, index, found, e);
    SizesFor(Leaf(list));
    PutCells(list, index, found, e);
    var cell := LeafCell(Entry(key, value));
    var space := ReclaimableSpace(raw.body);
    if found {
      var was := raw.Cell(index);
      if space + |was.value| >= |cell| {
        ok := raw.ReplaceCell(index, cell);
        return;
      }
    } else if space >= |cell| + SLOT_LEN {
      ok := raw.InsertCell(index, cell);
      return;
    }
    return false;
  }

  lemma PutCells(list: seq<Entry>, index: nat, found: bool, e: Entry)
    requires index <= |list| && (found ==> index < |list|) && |e.key| < 65536 && Narrow(Leaf(list))
    ensures Narrow(Leaf(PutAt(list, index, found, e)))
    ensures LeafCells(PutAt(list, index, found, e)) ==
            if found then LeafCells(list)[index := LeafCell(e)]
            else LeafCells(list)[..index] + [LeafCell(e)] + LeafCells(list)[index..]
  {
    hide LeafCell;
  }

  method RemoveInPlace(raw: RawPage, ghost list: seq<Entry>, index: nat)
    requires Shows(raw, Leaf(list)) && index < |list|
    modifies raw
    ensures Shows(raw, Leaf(RemoveAt(list, index)))
  {
    hide LeafCell, Sound, Marked;
    assert LeafCells(RemoveAt(list, index)) == LeafCells(list)[..index] + LeafCells(list)[index + 1..];
    raw.RemoveCell(index);
  }

  /** Point a branch at another child; the cell keeps its length, so there is always room. */
  method SetBranchChild(raw: RawPage, ghost kids: seq<nat>, ghost seps: seq<Bytes>, slot: nat, child: nat)
    requires Shows(raw, Branch(kids, seps)) && slot < |kids| && child < 0x1_0000_0000
    modifies raw
    ensures Shows(raw, Branch(kids[slot := child], seps))
  {
    hide BranchCell, Sound, Marked, Used, BranchKey;
    if slot == 0 {
      assert BranchCells(kids[0 := child], seps) == BranchCells(kids, seps);
      raw.SetExtra(child);
      return;
    }
    var cell := raw.Cell(slot - 1);
    BranchCellBack(seps[slot - 1], kids[slot]);
    var updated := BranchCell(BranchKey(cell.value), child);
    assert BranchCells(kids[slot := child], seps) == BranchCells(kids, seps)[slot - 1 := updated];
    RawFits(raw);
    var ok := raw.ReplaceCell(slot - 1, updated);
  }

  lemma RawFits(raw: RawPage)
    requires raw.Valid()
    ensures Fits(Sizes(raw.View()))
  {
    hide Used;
    Slotted.Bounded(raw.body);
    UsedBound(raw.body);
    SizesOf(raw.body);
  }

  /** Add a separator and the child right of it: done exactly when the branch still fits. */
  method InsertBranchCell(raw: RawPage, ghost kids: seq<nat>, ghost seps: seq<Bytes>, slot: nat, sep: Bytes, right: nat)
    returns (ok: bool)
    requires Shows(raw, Branch(kids, seps)) && slot < |kids| && right < 0x1_0000_0000 && |sep| <= MAX_KEY_LEN
    modifies raw
    ensures ok <==> Fits(BranchLens(SpliceSeps(seps, slot, [sep])))
    ensures !ok ==> Shows(raw, Branch(kids, seps))
    ensures ok ==> Shows(raw, Branch(SpliceKids(kids, slot, [kids[slot], right]), SpliceSeps(seps, slot, [sep])))
  {
    hide Used, BranchCell, Sound, Marked, BranchLens;
    Graft.SpliceUsed(seps, slot, sep);
    SizesFor(Branch(kids, seps));
    SplicedCells(kids, seps, slot, sep, right);
    var cell := BranchCell(sep, right);
    var space := ReclaimableSpace(raw.body);
    if space >= |cell| + SLOT_LEN {
      ok := raw.InsertCell(slot, cell);
    } else {
      ok := false;
    }
  }

  lemma SplicedCells(kids: seq<nat>, seps: seq<Bytes>, slot: nat, sep: Bytes, right: nat)
    requires Narrow(Branch(kids, seps)) && slot < |kids| && right < 0x1_0000_0000 && |sep| < 65536
    ensures var ks, ss := SpliceKids(kids, slot, [kids[slot], right]), SpliceSeps(seps, slot, [sep]);
            && Narrow(Branch(ks, ss)) && ks[0] == kids[0]
            && BranchCells(ks, ss) ==
               BranchCells(kids, seps)[..slot] + [BranchCell(sep, right)] + BranchCells(kids, seps)[slot..]
  {
    hide BranchCell;
  }

  /** Drop an emptied child: the leftmost one promotes its neighbour. */
  method DropChild(raw: RawPage, ghost kids: seq<nat>, ghost seps: seq<Bytes>, slot: nat)
    requires Shows(raw, Branch(kids, seps)) && slot < |kids| && 0 < |seps|
    modifies raw
    ensures Shows(raw, Branch(DropKids(kids, slot), DropSeps(seps, slot)))
  {
    hide BranchCell, Sound, Marked, BranchChild;
    DroppedCells(kids, seps, slot);
    if slot == 0 {
      var first := raw.Cell(0);
      BranchCellBack(seps[0], kids[1]);
      var promoted := BranchChild(first.value);
      raw.SetExtra(promoted);
      raw.RemoveCell(0);
    } else {
      raw.RemoveCell(slot - 1);
    }
  }

  lemma DroppedCells(kids: seq<nat>, seps: seq<Bytes>, slot: nat)
    requires Narrow(Branch(kids, seps)) && slot < |kids| && 0 < |seps|
    ensures var ks, ss, at := DropKids(kids, slot), DropSeps(seps, slot), if slot == 0 then 0 else slot - 1;
            && Narrow(Branch(ks, ss)) && ks[0] == (if slot == 0 then kids[1] else kids[0])
            && BranchCells(ks, ss) == BranchCells(kids, seps)[..at] + BranchCells(kids, seps)[at + 1..]
  {
    hide BranchCell;
  }
}
