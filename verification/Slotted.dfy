/** The slotted page every index file is made of, byte for byte, and the edits made to one in place. */
module Slotted {
  import opened Bytes
  import opened Entries
  import opened Pages
  import Crc
  import Framing

  const PAGE_MAGIC: Bytes := [0x46, 0x51, 0x50, 0x47]
  const PAGE_FORMAT_VERSION: Byte := 1
  const OFF_KIND: nat := 4
  const OFF_VERSION: nat := 5
  const OFF_SLOT_COUNT: nat := 6
  const OFF_FREE_END: nat := 8
  const OFF_EXTRA: nat := 12
  const OFF_CRC: nat := 16

  datatype PageKind = MetaKind | LeafKind | BranchKind | HeapKind | OverflowKind

  function KindByte(k: PageKind): Byte {
    match k
    case MetaKind => 1
    case LeafKind => 2
    case BranchKind => 3
    case HeapKind => 4
    case OverflowKind => 5
  }

  function KindOf(b: Byte): (k: Option<PageKind>)
    ensures forall kind :: k == Some(kind) <==> KindByte(kind) == b
  {
    match b
    case 1 => Some(MetaKind)
    case 2 => Some(LeafKind)
    case 3 => Some(BranchKind)
    case 4 => Some(HeapKind)
    case 5 => Some(OverflowKind)
    case _ => None
  }

  // ---- little-endian fields and overwrites ----

  function U16(b: Bytes, at: nat): nat
    requires at + 2 <= |b|
  {
    b[at] as nat + 256 * (b[at + 1] as nat)
  }

  function U16Bytes(n: nat): (s: Bytes)
    requires n < 65536
    ensures |s| == 2 && U16(s, 0) == n
  {
    [n % 256, n / 256]
  }

  function U32(b: Bytes, at: nat): nat
    requires at + 4 <= |b|
  {
    b[at] as nat + 256 * (b[at + 1] as nat) + 65536 * (b[at + 2] as nat) + 16777216 * (b[at + 3] as nat)
  }

  function U32Bytes(n: nat): (s: Bytes)
    requires n < 0x1_0000_0000
    ensures |s| == 4 && U32(s, 0) == n
  {
    Framing.Digits(n);
    [n % 256, n / 256 % 256, n / 65536 % 256, n / 16777216]
  }

  /** The bytes of `b` with `s` written over those at `at`. */
  function Patch(b: Bytes, at: nat, s: Bytes): (r: Bytes)
    requires at + |s| <= |b|
    ensures |r| == |b|
    ensures forall k :: 0 <= k < |b| ==> r[k] == if at <= k < at + |s| then s[k - at] else b[k]
  {
    b[..at] + s + b[at + |s|..]
  }

  // ---- the layout ----

  datatype Slot = Slot(offset: nat, length: nat)

  predicate Full(b: Bytes) { |b| == PAGE_BODY_LEN }

  function Count(b: Bytes): nat
    requires Full(b)
  {
    U16(b, OFF_SLOT_COUNT)
  }

  function FreeEnd(b: Bytes): nat
    requires Full(b)
  {
    U16(b, OFF_FREE_END)
  }

  function DirectoryEnd(b: Bytes): nat
    requires Full(b)
  {
    PAGE_HEADER_LEN + Count(b) * SLOT_LEN
  }

  function SlotAt(b: Bytes, i: nat): Slot
    requires Full(b) && PAGE_HEADER_LEN + (i + 1) * SLOT_LEN <= PAGE_BODY_LEN
  {
    Slot(U16(b, PAGE_HEADER_LEN + i * SLOT_LEN), U16(b, PAGE_HEADER_LEN + i * SLOT_LEN + 2))
  }

  function Directory(b: Bytes): (slots: seq<Slot>)
    requires Full(b) && DirectoryEnd(b) <= PAGE_BODY_LEN
  {
    seq(Count(b), i requires 0 <= i < Count(b) => SlotAt(b, i))
  }

  function Lengths(slots: seq<Slot>): seq<nat> {
    seq(|slots|, i requires 0 <= i < |slots| => slots[i].length)
  }

  predicate Within(s: Slot, freeEnd: nat) { freeEnd <= s.offset && s.offset + s.length <= PAGE_BODY_LEN }

  /** Every slot points into the cell area: what is checked when a page is read back. */
  predicate Inside(slots: seq<Slot>, freeEnd: nat) {
    && PAGE_HEADER_LEN + |slots| * SLOT_LEN <= freeEnd <= PAGE_BODY_LEN
    && forall i :: 0 <= i < |slots| ==> Within(slots[i], freeEnd)
  }

  predicate Clear(a: Slot, b: Slot) {
    a.offset + a.length <= b.offset || b.offset + b.length <= a.offset
  }

  /** No two cells share a byte. */
  predicate Apart(slots: seq<Slot>) {
    forall i, j :: 0 <= i < j < |slots| ==> Clear(slots[i], slots[j])
  }

  /** The cells and their slots fit between the header and the end, holes aside. */
  predicate Placed(slots: seq<Slot>, freeEnd: nat) {
    && Inside(slots, freeEnd) && Apart(slots)
    && freeEnd + Used(Lengths(slots)) <= PAGE_BODY_LEN + |slots| * SLOT_LEN
  }

  predicate Sound(b: Bytes) {
    Full(b) && DirectoryEnd(b) <= PAGE_BODY_LEN && Placed(Directory(b), FreeEnd(b))
  }

  function Content(b: Bytes, s: Slot): Bytes
    requires Full(b) && s.offset + s.length <= PAGE_BODY_LEN
  {
    b[s.offset..s.offset + s.length]
  }

  function Contents(b: Bytes, slots: seq<Slot>): (cells: seq<Bytes>)
    requires Full(b) && forall i :: 0 <= i < |slots| ==> slots[i].offset + slots[i].length <= PAGE_BODY_LEN
  {
    seq(|slots|, i requires 0 <= i < |slots| => Content(b, slots[i]))
  }

  /** A body whose slots can be followed. */
  predicate Framed(b: Bytes) {
    Full(b) && DirectoryEnd(b) <= PAGE_BODY_LEN && Inside(Directory(b), FreeEnd(b))
  }

  function Cells(b: Bytes): seq<Bytes>
    requires Framed(b)
  {
    Contents(b, Directory(b))
  }

  function Sizes(cells: seq<Bytes>): seq<nat> {
    seq(|cells|, i requires 0 <= i < |cells| => |cells[i]|)
  }

  /** The magic, a known kind, and the format version. */
  predicate Marked(b: Bytes)
    requires Full(b)
  {
    b[..4] == PAGE_MAGIC && b[OFF_VERSION] == PAGE_FORMAT_VERSION && KindOf(b[OFF_KIND]).Some?
  }

  /** Nothing in the header but the slot count and the start of the cell area. */
  predicate SameHeader(a: Bytes, b: Bytes)
    requires Full(a) && Full(b)
  {
    && a[..OFF_SLOT_COUNT] == b[..OFF_SLOT_COUNT]
    && a[OFF_FREE_END + 2..PAGE_HEADER_LEN] == b[OFF_FREE_END + 2..PAGE_HEADER_LEN]
  }

  lemma SizesOf(b: Bytes)
    requires Framed(b)
    ensures Sizes(Cells(b)) == Lengths(Directory(b))
  {
  }

  lemma Bounded(b: Bytes)
    requires Sound(b)
    ensures Full(b) && DirectoryEnd(b) <= FreeEnd(b) <= PAGE_BODY_LEN && Framed(b) && |Directory(b)| == Count(b)
  {
  }

  // ---- inserting ----

  function SetSlot(b: Bytes, i: nat, s: Slot): (r: Bytes)
    requires Full(b) && PAGE_HEADER_LEN + (i + 1) * SLOT_LEN <= PAGE_BODY_LEN && s.offset < 65536 && s.length < 65536
    ensures Full(r) && SlotAt(r, i) == s
    ensures forall k :: 0 <= k < PAGE_BODY_LEN && !(0 <= k - PAGE_HEADER_LEN - i * SLOT_LEN < SLOT_LEN) ==> r[k] == b[k]
  {
    var at := PAGE_HEADER_LEN + i * SLOT_LEN;
    Patch(Patch(b, at, U16Bytes(s.offset)), at + 2, U16Bytes(s.length))
  }

  function SetFreeEnd(b: Bytes, n: nat): (r: Bytes)
    requires Full(b) && n < 65536
    ensures Full(r) && FreeEnd(r) == n
    ensures forall k :: 0 <= k < PAGE_BODY_LEN && !(0 <= k - OFF_FREE_END < 2) ==> r[k] == b[k]
  {
    Patch(b, OFF_FREE_END, U16Bytes(n))
  }

  function SetCount(b: Bytes, n: nat): (r: Bytes)
    requires Full(b) && n < 65536
    ensures Full(r) && Count(r) == n
    ensures forall k :: 0 <= k < PAGE_BODY_LEN && !(0 <= k - OFF_SLOT_COUNT < 2) ==> r[k] == b[k]
  {
    Patch(b, OFF_SLOT_COUNT, U16Bytes(n))
  }

  /** The directory with the slots from `index` on moved up by one. */
  function OpenSlot(b: Bytes, index: nat): (r: Bytes)
    requires Full(b) && index <= Count(b) && DirectoryEnd(b) + SLOT_LEN <= PAGE_BODY_LEN
  {
    var from := PAGE_HEADER_LEN + index * SLOT_LEN;
    Patch(b, from + SLOT_LEN, b[from..DirectoryEnd(b)])
  }

  predicate Room(b: Bytes, data: Bytes) {
    Sound(b) && DirectoryEnd(b) + SLOT_LEN + |data| <= FreeEnd(b)
  }

  function Inserted(b: Bytes, index: nat, data: Bytes): (r: Bytes)
    requires Room(b, data) && index <= Count(b)
    ensures Full(r)
  {
    var freeEnd := FreeEnd(b) - |data|;
    var moved := Patch(OpenSlot(b, index), freeEnd, data);
    SetSlot(SetCount(SetFreeEnd(moved, freeEnd), Count(b) + 1), index, Slot(freeEnd, |data|))
  }

  function WithSlot(slots: seq<Slot>, index: nat, s: Slot): seq<Slot>
    requires index <= |slots|
  {
    slots[..index] + [s] + slots[index..]
  }

  /** Byte by byte, what an insertion leaves. */
  lemma InsertedByte(b: Bytes, index: nat, data: Bytes, k: nat)
    requires Room(b, data) && index <= Count(b) && k < PAGE_BODY_LEN
    ensures var r, freeEnd, at := Inserted(b, index, data), FreeEnd(b) - |data|, PAGE_HEADER_LEN + index * SLOT_LEN;
            && (k < OFF_SLOT_COUNT || OFF_FREE_END + 2 <= k < at ==> r[k] == b[k])
            && (at + SLOT_LEN <= k < DirectoryEnd(b) + SLOT_LEN ==> r[k] == b[k - SLOT_LEN])
            && (freeEnd <= k < FreeEnd(b) ==> r[k] == data[k - freeEnd])
            && (FreeEnd(b) <= k ==> r[k] == b[k])
  {
    hide Placed, Directory, SlotAt, Patch, SetSlot, SetCount, SetFreeEnd;
    Bounded(b);
    var freeEnd := FreeEnd(b) - |data|;
    var gap := OpenSlot(b, index);
    var moved := Patch(gap, freeEnd, data);
    var short := SetFreeEnd(moved, freeEnd);
    var more := SetCount(short, Count(b) + 1);
    assert Inserted(b, index, data) == SetSlot(more, index, Slot(freeEnd, |data|));
  }

  lemma InsertedFields(b: Bytes, index: nat, data: Bytes)
    requires Room(b, data) && index <= Count(b)
    ensures var r, freeEnd := Inserted(b, index, data), FreeEnd(b) - |data|;
            Count(r) == Count(b) + 1 && FreeEnd(r) == freeEnd && SlotAt(r, index) == Slot(freeEnd, |data|)
  {
    hide Placed, Directory, SlotAt, Patch, SetSlot, SetCount, SetFreeEnd;
    Bounded(b);
  }

  lemma InsertedHeader(b: Bytes, index: nat, data: Bytes)
    requires Room(b, data) && index <= Count(b)
    ensures SameHeader(Inserted(b, index, data), b)
  {
    hide Placed, Inserted, FreeEnd, Count, Directory;
    var r := Inserted(b, index, data);
    forall k: nat | k < OFF_SLOT_COUNT || OFF_FREE_END + 2 <= k < PAGE_HEADER_LEN ensures r[k] == b[k] {
      InsertedByte(b, index, data, k);
    }
  }

  lemma InsertedSlot(b: Bytes, index: nat, data: Bytes, j: nat)
    requires Room(b, data) && index <= Count(b) && j <= Count(b)
    ensures var r, s := Inserted(b, index, data), Slot(FreeEnd(b) - |data|, |data|);
            SlotAt(r, j) == WithSlot(Directory(b), index, s)[j]
  {
    hide Placed, Inserted;
    Bounded(b);
    InsertedFields(b, index, data);
    var r := Inserted(b, index, data);
    var at := PAGE_HEADER_LEN + j * SLOT_LEN;
    InsertedByte(b, index, data, at);
    InsertedByte(b, index, data, at + 1);
    InsertedByte(b, index, data, at + 2);
    InsertedByte(b, index, data, at + 3);
  }

  lemma InsertedDirectory(b: Bytes, index: nat, data: Bytes)
    requires Room(b, data) && index <= Count(b)
    ensures var r := Inserted(b, index, data);
            && FreeEnd(r) == FreeEnd(b) - |data| && DirectoryEnd(r) <= PAGE_BODY_LEN
            && Directory(r) == WithSlot(Directory(b), index, Slot(FreeEnd(b) - |data|, |data|))
  {
    hide Placed, Inserted, SlotAt, FreeEnd;
    Bounded(b);
    InsertedFields(b, index, data);
    var r, slots := Inserted(b, index, data), WithSlot(Directory(b), index, Slot(FreeEnd(b) - |data|, |data|));
    forall j: nat | j < Count(r) ensures SlotAt(r, j) == slots[j] { InsertedSlot(b, index, data, j); }
  }

  /** Slots stay placed with one more cell taken from the free space. */
  lemma PlacedWith(slots: seq<Slot>, freeEnd: nat, index: nat, length: nat)
    requires Placed(slots, freeEnd) && index <= |slots|
    requires PAGE_HEADER_LEN + (|slots| + 1) * SLOT_LEN + length <= freeEnd
    ensures Placed(WithSlot(slots, index, Slot(freeEnd - length, length)), freeEnd - length)
  {
    hide Used;
    var s := Slot(freeEnd - length, length);
    UsedWith(slots, index, s);
    var more := WithSlot(slots, index, s);
    assert forall j :: 0 <= j < |more| ==>
      more[j] == if j < index then slots[j] else if j == index then s else slots[j - 1];
  }

  lemma UsedWith(slots: seq<Slot>, index: nat, s: Slot)
    requires index <= |slots|
    ensures Used(Lengths(WithSlot(slots, index, s))) == Used(Lengths(slots)) + s.length + SLOT_LEN
  {
    hide Used;
    var lens := Lengths(slots);
    assert Lengths(WithSlot(slots, index, s)) == lens[..index] + [s.length] + lens[index..];
    UsedConcat(lens[..index] + [s.length], lens[index..]);
    UsedConcat(lens[..index], [s.length]);
    UsedOne(s.length);
    UsedCut(lens, index);
  }

  lemma InsertedCells(b: Bytes, index: nat, data: Bytes)
    requires Room(b, data) && index <= Count(b)
    ensures var r := Inserted(b, index, data);
            Sound(r) && Cells(r) == Cells(b)[..index] + [data] + Cells(b)[index..]
  {
    hide Inserted, SlotAt, FreeEnd, Count, Used, Apart, Directory, Placed;
    Bounded(b);
    InsertedDirectory(b, index, data);
    var r, freeEnd := Inserted(b, index, data), FreeEnd(b) - |data|;
    PlacedWith(Directory(b), FreeEnd(b), index, |data|);
    forall k: nat | freeEnd <= k < PAGE_BODY_LEN
      ensures r[k] == if k < FreeEnd(b) then data[k - freeEnd] else b[k]
    {
      InsertedByte(b, index, data, k);
    }
    var slots, made := Directory(b), Slot(freeEnd, |data|);
    assert Content(r, made) == data;
    forall j: nat | j < |slots| ensures Content(r, slots[j]) == Content(b, slots[j]) { }
    WithContents(b, r, slots, index, made);
  }

  /** One cell more, the others where they were. */
  lemma WithContents(b: Bytes, r: Bytes, slots: seq<Slot>, index: nat, made: Slot)
    requires Full(b) && Full(r) && index <= |slots| && made.offset + made.length <= PAGE_BODY_LEN
    requires forall i :: 0 <= i < |slots| ==> slots[i].offset + slots[i].length <= PAGE_BODY_LEN
    requires forall j :: 0 <= j < |slots| ==> Content(r, slots[j]) == Content(b, slots[j])
    ensures var more := WithSlot(slots, index, made);
            && (forall i :: 0 <= i < |more| ==> more[i].offset + more[i].length <= PAGE_BODY_LEN)
            && Contents(r, more) == Contents(b, slots)[..index] + [Content(r, made)] + Contents(b, slots)[index..]
  {
    hide Content;
    var more := WithSlot(slots, index, made);
    assert forall j :: 0 <= j < |more| ==>
      more[j] == if j < index then slots[j] else if j == index then made else slots[j - 1];
  }

  // ---- removing ----

  function Removed(b: Bytes, index: nat): (r: Bytes)
    requires Sound(b) && index < Count(b)
    ensures Full(r)
  {
    var at := PAGE_HEADER_LEN + index * SLOT_LEN;
    SetCount(Patch(b, at, b[at + SLOT_LEN..DirectoryEnd(b)]), Count(b) - 1)
  }

  lemma RemovedByte(b: Bytes, index: nat, k: nat)
    requires Sound(b) && index < Count(b) && k < PAGE_BODY_LEN
    ensures var r, at := Removed(b, index), PAGE_HEADER_LEN + index * SLOT_LEN;
            && (k < OFF_SLOT_COUNT || OFF_FREE_END <= k < at || DirectoryEnd(b) <= k ==> r[k] == b[k])
            && (at <= k < DirectoryEnd(b) - SLOT_LEN ==> r[k] == b[k + SLOT_LEN])
            && Count(r) == Count(b) - 1
  {
    hide Placed, Directory, SlotAt, Patch, SetCount;
    Bounded(b);
    var at := PAGE_HEADER_LEN + index * SLOT_LEN;
    var moved := Patch(b, at, b[at + SLOT_LEN..DirectoryEnd(b)]);
    assert Removed(b, index) == SetCount(moved, Count(b) - 1);
  }

  function WithoutSlot(slots: seq<Slot>, index: nat): seq<Slot>
    requires index < |slots|
  {
    slots[..index] + slots[index + 1..]
  }

  lemma RemovedSlot(b: Bytes, index: nat, j: nat)
    requires Sound(b) && index < Count(b) && j + 1 < Count(b)
    ensures SlotAt(Removed(b, index), j) == WithoutSlot(Directory(b), index)[j]
  {
    hide Placed, Removed;
    Bounded(b);
    var at := PAGE_HEADER_LEN + j * SLOT_LEN;
    RemovedByte(b, index, at);
    RemovedByte(b, index, at + 1);
    RemovedByte(b, index, at + 2);
    RemovedByte(b, index, at + 3);
  }

  lemma RemovedDirectory(b: Bytes, index: nat)
    requires Sound(b) && index < Count(b)
    ensures var r := Removed(b, index);
            && FreeEnd(r) == FreeEnd(b) && DirectoryEnd(r) <= PAGE_BODY_LEN
            && Directory(r) == WithoutSlot(Directory(b), index)
  {
    hide Placed, Removed, SlotAt;
    Bounded(b);
    RemovedByte(b, index, OFF_FREE_END);
    RemovedByte(b, index, OFF_FREE_END + 1);
    var r, slots := Removed(b, index), WithoutSlot(Directory(b), index);
    forall j: nat | j < Count(r) ensures SlotAt(r, j) == slots[j] { RemovedSlot(b, index, j); }
  }

  lemma PlacedWithout(slots: seq<Slot>, freeEnd: nat, index: nat)
    requires Placed(slots, freeEnd) && index < |slots|
    ensures Placed(WithoutSlot(slots, index), freeEnd)
    ensures Used(Lengths(WithoutSlot(slots, index))) == Used(Lengths(slots)) - slots[index].length - SLOT_LEN
  {
    hide Used;
    var less := WithoutSlot(slots, index);
    assert WithSlot(less, index, slots[index]) == slots;
    UsedWith(less, index, slots[index]);
    assert forall j :: 0 <= j < |less| ==> less[j] == if j < index then slots[j] else slots[j + 1];
  }

  lemma RemovedCells(b: Bytes, index: nat)
    requires Sound(b) && index < Count(b)
    ensures var r := Removed(b, index);
            Sound(r) && SameHeader(r, b) && Cells(r) == Cells(b)[..index] + Cells(b)[index + 1..]
  {
    hide Removed, SlotAt, FreeEnd, Used, Apart, Directory, Placed;
    Bounded(b);
    RemovedDirectory(b, index);
    PlacedWithout(Directory(b), FreeEnd(b), index);
    var r := Removed(b, index);
    forall k: nat | k < OFF_SLOT_COUNT || OFF_FREE_END <= k < PAGE_HEADER_LEN || FreeEnd(b) <= k < PAGE_BODY_LEN
      ensures r[k] == b[k]
    {
      RemovedByte(b, index, k);
    }
    var slots := Directory(b);
    forall j: nat | j + 1 < |slots| ensures Cells(r)[j] == (Cells(b)[..index] + Cells(b)[index + 1..])[j] {
      var s := if j < index then slots[j] else slots[j + 1];
      assert Content(r, s) == Content(b, s);
    }
  }

  // ---- overwriting ----

  /** A cell of the same length is written where the old one stands. */
  lemma OverwrittenCells(b: Bytes, index: nat, data: Bytes)
    requires Sound(b) && index < Count(b) && |data| == SlotAt(b, index).length
    ensures SlotAt(b, index).offset + |data| <= PAGE_BODY_LEN
    ensures var r := Patch(b, SlotAt(b, index).offset, data);
            Sound(r) && SameHeader(r, b) && Cells(r) == Cells(b)[index := data]
  {
    hide Used, Patch;
    Bounded(b);
    var slots := Directory(b);
    var s := slots[index];
    var r := Patch(b, s.offset, data);
    forall j: nat | j < Count(b) ensures SlotAt(r, j) == SlotAt(b, j) { }
    assert Directory(r) == slots;
    forall j: nat | j < |slots| ensures Content(r, slots[j]) == if j == index then data else Content(b, slots[j]) {
      assert j != index ==> Clear(slots[j], s);
    }
  }

  // ---- compacting ----

  /** Where the first `n` cells reach down to when they are stacked from the end of the page. */
  ghost function Top(lens: seq<nat>, n: nat): int
    requires n <= |lens|
  {
    PAGE_BODY_LEN + n * SLOT_LEN - Used(lens[..n])
  }

  lemma TopStep(lens: seq<nat>, n: nat)
    requires n < |lens|
    ensures Top(lens, n + 1) == Top(lens, n) - lens[n]
  {
    UsedStep(lens, n);
  }

  lemma {:induction false} TopFalls(lens: seq<nat>, j: nat, n: nat)
    requires j <= n <= |lens|
    ensures Top(lens, n) <= Top(lens, j) <= PAGE_BODY_LEN
    decreases n
  {
    hide Top;
    if j < n {
      TopStep(lens, n - 1);
      TopFalls(lens, j, n - 1);
    } else if n > 0 {
      TopFalls(lens, n - 1, n - 1);
      TopStep(lens, n - 1);
    } else {
      TopStart(lens);
    }
  }

  lemma TopStart(lens: seq<nat>)
    ensures Top(lens, 0) == PAGE_BODY_LEN
  {
  }

  lemma TopAbove(b: Bytes, n: nat)
    requires Sound(b) && n <= Count(b)
    ensures Top(Lengths(Directory(b)), n) >= FreeEnd(b)
  {
    hide Top, Directory;
    var lens := Lengths(Directory(b));
    Bounded(b);
    TopFalls(lens, n, |lens|);
    TopAll(lens);
  }

  lemma TopAll(lens: seq<nat>)
    ensures Top(lens, |lens|) == PAGE_BODY_LEN + |lens| * SLOT_LEN - Used(lens)
  {
    assert lens[..|lens|] == lens;
  }

  /** Slot `j` and the bytes it points at, once cell `j` has been stacked. */
  ghost predicate StackedAt(r: Bytes, cells: seq<Bytes>, j: nat)
    requires Full(r) && j < |cells| && PAGE_HEADER_LEN + |cells| * SLOT_LEN <= PAGE_BODY_LEN
  {
    var lens := Sizes(cells);
    && 0 <= Top(lens, j + 1) && Top(lens, j + 1) + |cells[j]| <= PAGE_BODY_LEN
    && SlotAt(r, j) == Slot(Top(lens, j + 1), |cells[j]|)
    && r[Top(lens, j + 1)..Top(lens, j + 1) + |cells[j]|] == cells[j]
  }

  ghost predicate Stacked(b: Bytes, r: Bytes, cells: seq<Bytes>, n: nat) {
    && Sound(b) && Full(r) && SameHeader(r, b)
    && n <= |cells| == Count(b) && Count(r) == Count(b)
    && forall j :: 0 <= j < n ==> StackedAt(r, cells, j)
  }

  lemma StackStep(b: Bytes, r: Bytes, cells: seq<Bytes>, n: nat, freeEnd: nat)
    requires Stacked(b, r, cells, n) && n < |cells| && cells == Cells(b) && freeEnd == Top(Sizes(cells), n + 1)
    ensures freeEnd + |cells[n]| <= PAGE_BODY_LEN && PAGE_HEADER_LEN + (n + 1) * SLOT_LEN <= freeEnd
    ensures Stacked(b, SetSlot(Patch(r, freeEnd, cells[n]), n, Slot(freeEnd, |cells[n]|)), cells, n + 1)
  {
    hide Top, Patch, SetSlot, Placed, Used, Cells;
    var lens := Sizes(cells);
    Bounded(b);
    SizesOf(b);
    TopStep(lens, n);
    TopFalls(lens, n, n);
    TopAbove(b, n + 1);
    var moved := Patch(r, freeEnd, cells[n]);
    var q := SetSlot(moved, n, Slot(freeEnd, |cells[n]|));
    assert StackedAt(q, cells, n) by {
      assert q[freeEnd..freeEnd + |cells[n]|] == cells[n];
    }
    forall j: nat | j < n ensures StackedAt(q, cells, j) {
      StackKept(r, q, cells, j, n, freeEnd);
    }
  }

  /** A cell that is already stacked stays as it is. */
  lemma StackKept(r: Bytes, q: Bytes, cells: seq<Bytes>, j: nat, n: nat, freeEnd: nat)
    requires Full(r) && Full(q) && j < n < |cells| && freeEnd == Top(Sizes(cells), n + 1)
    requires PAGE_HEADER_LEN + |cells| * SLOT_LEN <= freeEnd && freeEnd + |cells[n]| <= PAGE_BODY_LEN
    requires q == SetSlot(Patch(r, freeEnd, cells[n]), n, Slot(freeEnd, |cells[n]|))
    requires StackedAt(r, cells, j)
    ensures StackedAt(q, cells, j)
  {
    hide Top, Patch, SetSlot, Used;
    var lens := Sizes(cells);
    TopFalls(lens, j + 1, n);
    TopStep(lens, n);
    assert Top(lens, j + 1) >= freeEnd + |cells[n]|;
    var lo := Top(lens, j + 1);
    assert forall k :: lo <= k < lo + |cells[j]| ==> q[k] == r[k];
  }

  lemma StackPlaced(b: Bytes, r: Bytes, cells: seq<Bytes>, freeEnd: nat)
    requires Stacked(b, r, cells, |cells|) && cells == Cells(b) && freeEnd == Top(Sizes(cells), |cells|)
    ensures freeEnd < 65536
    ensures var q := SetFreeEnd(r, freeEnd);
            && Sound(q) && SameHeader(q, b) && Cells(q) == cells
            && FreeEnd(q) + Used(Sizes(cells)) == PAGE_BODY_LEN + |cells| * SLOT_LEN
  {
    hide Top, SetFreeEnd, Used, Cells, Placed, FreeEnd, StackedAt;
    Bounded(b);
    SizesOf(b);
    TopAbove(b, |cells|);
    TopAll(Sizes(cells));
    TopFalls(Sizes(cells), |cells|, |cells|);
    var q := SetFreeEnd(r, freeEnd);
    forall j: nat | j < |cells| ensures StackedAt(q, cells, j) {
      TopFalls(Sizes(cells), j + 1, |cells|);
      StackCarries(r, q, cells, j);
    }
    StackSound(q, cells, freeEnd);
  }

  lemma StackCarries(r: Bytes, q: Bytes, cells: seq<Bytes>, j: nat)
    requires Full(r) && Full(q) && j < |cells| && PAGE_HEADER_LEN + |cells| * SLOT_LEN <= PAGE_BODY_LEN
    requires StackedAt(r, cells, j) && Top(Sizes(cells), j + 1) >= PAGE_HEADER_LEN
    requires forall k :: PAGE_HEADER_LEN <= k < PAGE_BODY_LEN ==> q[k] == r[k]
    ensures StackedAt(q, cells, j)
  {
    hide Top;
  }

  lemma StackSound(q: Bytes, cells: seq<Bytes>, freeEnd: nat)
    requires Full(q) && Count(q) == |cells| && FreeEnd(q) == freeEnd == Top(Sizes(cells), |cells|)
    requires PAGE_HEADER_LEN + |cells| * SLOT_LEN <= freeEnd <= PAGE_BODY_LEN
    requires forall j :: 0 <= j < |cells| ==> StackedAt(q, cells, j)
    ensures Sound(q) && Cells(q) == cells
  {
    hide Top, Used;
    var lens, slots := Sizes(cells), Directory(q);
    forall j: nat | j < |slots|
      ensures freeEnd <= slots[j].offset && slots[j].offset + slots[j].length <= PAGE_BODY_LEN
      ensures slots[j].length == lens[j]
    {
      assert StackedAt(q, cells, j);
      TopFalls(lens, j + 1, |lens|);
    }
    forall i: nat, j: nat | i < j < |slots| ensures Clear(slots[i], slots[j]) {
      assert StackedAt(q, cells, i) && StackedAt(q, cells, j);
      TopFalls(lens, i + 1, j);
      TopStep(lens, j);
    }
    assert Lengths(slots) == lens;
    TopAll(lens);
    forall j: nat | j < |slots| ensures Cells(q)[j] == cells[j] { assert StackedAt(q, cells, j); }
  }

  /** The cells out of the page, in slot order. */
  method PageCells(b: Bytes) returns (cells: seq<Bytes>)
    requires Framed(b)
    ensures cells == Cells(b)
  {
    cells := [];
    for index := 0 to Count(b)
      invariant cells == Cells(b)[..index]
    {
      assert Directory(b)[index] == SlotAt(b, index);
      cells := cells + [Content(b, SlotAt(b, index))];
    }
  }

  /** Rewrite the cell area with no holes; slots keep their numbers. */
  method Repacked(b: Bytes) returns (r: Bytes)
    requires Sound(b)
    ensures Sound(r) && SameHeader(r, b) && Cells(r) == Cells(b)
    ensures FreeEnd(r) + Used(Sizes(Cells(b))) == PAGE_BODY_LEN + Count(b) * SLOT_LEN
  {
    hide Top, Placed, Used, StackedAt, FreeEnd, Cells;
    Bounded(b);
    SizesOf(b);
    var cells := PageCells(b);
    var freeEnd: nat := PAGE_BODY_LEN;
    r := b;
    TopStart(Sizes(cells));
    for index := 0 to |cells|
      invariant Stacked(b, r, cells, index)
      invariant freeEnd == Top(Sizes(cells), index)
    {
      TopStep(Sizes(cells), index);
      TopAbove(b, index + 1);
      StackStep(b, r, cells, index, freeEnd - |cells[index]|);
      freeEnd := freeEnd - |cells[index]|;
      r := Patch(r, freeEnd, cells[index]);
      r := SetSlot(r, index, Slot(freeEnd, |cells[index]|));
    }
    StackPlaced(b, r, cells, freeEnd);
    r := SetFreeEnd(r, freeEnd);
  }

  // ---- the checksum ----

  function Octets(b: Bytes): Crc.Octets { seq(|b|, i requires 0 <= i < |b| => Framing.ToByte(b[i])) }

  function CrcField(x: bv32): (s: Bytes)
    ensures |s| == 4 && Octets(s) == Framing.CrcBytes(x)
  {
    var c := Framing.CrcBytes(x);
    Framing.ByteForth(c[0]);
    Framing.ByteForth(c[1]);
    Framing.ByteForth(c[2]);
    Framing.ByteForth(c[3]);
    [Framing.FromByte(c[0]), Framing.FromByte(c[1]), Framing.FromByte(c[2]), Framing.FromByte(c[3])]
  }

  /** Everything but the checksum field. */
  function Covered(b: Bytes): Bytes
    requires Full(b)
  {
    b[..OFF_CRC] + b[OFF_CRC + 4..]
  }

  function Checksum(b: Bytes): bv32
    requires Full(b)
  {
    Crc.Crc32(Octets(Covered(b)))
  }

  function StoredCrc(b: Bytes): bv32
    requires Full(b)
  {
    Framing.ReadCrc(Octets(b[OFF_CRC..OFF_CRC + 4]))
  }

  method ComputeCrc(b: Bytes) returns (crc: bv32)
    requires Full(b)
    ensures crc == Checksum(b)
  {
    hide Crc.Crc32;
    var head, tail := Octets(b[..OFF_CRC]), Octets(b[OFF_CRC + 4..]);
    crc := Crc.Crc32Parts([head, tail]);
    TwoParts(head, tail);
    assert head + tail == Octets(Covered(b));
  }

  lemma TwoParts(a: Crc.Octets, b: Crc.Octets)
    ensures Crc.Joined([a, b]) == a + b
  {
    assert [a, b][..1] == [a];
    Framing.OnePart(a);
  }

  /** A body the decoder lets through. */
  predicate Acceptable(b: Bytes) {
    Full(b) && Marked(b) && StoredCrc(b) == Checksum(b) && Framed(b)
  }

  /** Check a body read back from disk, field by field and slot by slot. */
  method Check(bytes: Bytes) returns (ok: bool)
    ensures ok <==> Acceptable(bytes)
  {
    hide Checksum, StoredCrc, Marked;
    if |bytes| != PAGE_BODY_LEN { return false; }
    var marked := CheckMarks(bytes);
    if !marked { return false; }
    var crc := ComputeCrc(bytes);
    if StoredCrc(bytes) != crc { return false; }
    var count, freeEnd := Count(bytes), FreeEnd(bytes);
    if PAGE_HEADER_LEN + count * SLOT_LEN > freeEnd || freeEnd > PAGE_BODY_LEN { return false; }
    for index := 0 to count
      invariant forall i :: 0 <= i < index ==> Within(Directory(bytes)[i], freeEnd)
    {
      var slot := SlotAt(bytes, index);
      assert Directory(bytes)[index] == slot;
      if slot.offset < freeEnd || slot.offset + slot.length > PAGE_BODY_LEN { return false; }
    }
    return true;
  }

  method CheckMarks(bytes: Bytes) returns (ok: bool)
    requires Full(bytes)
    ensures ok <==> Marked(bytes)
  {
    if bytes[..4] != PAGE_MAGIC { return false; }
    if bytes[OFF_VERSION] != PAGE_FORMAT_VERSION { return false; }
    return KindOf(bytes[OFF_KIND]).Some?;
  }

  /** Writing the checksum changes nothing else, and makes the body acceptable. */
  lemma SealedAcceptable(b: Bytes)
    requires Sound(b) && Marked(b)
    ensures var r := Patch(b, OFF_CRC, CrcField(Checksum(b)));
            && Acceptable(r) && Sound(r) && Cells(r) == Cells(b)
            && r[OFF_KIND] == b[OFF_KIND] && U32(r, OFF_EXTRA) == U32(b, OFF_EXTRA)
  {
    hide Crc.Crc32, Used, Patch, Framing.CrcBytes;
    Bounded(b);
    var crc := Checksum(b);
    var r := Patch(b, OFF_CRC, CrcField(crc));
    assert Covered(r) == Covered(b);
    assert r[OFF_CRC..OFF_CRC + 4] == CrcField(crc);
    Framing.CrcBack(crc);
    FieldEdit(b, r, OFF_CRC, OFF_CRC + 4);
  }

  /** A header field past the slot count and the free end says nothing about the cells. */
  lemma FieldEdit(b: Bytes, r: Bytes, lo: nat, hi: nat)
    requires Sound(b) && Full(r) && Marked(b) && OFF_FREE_END + 2 <= lo <= hi <= PAGE_HEADER_LEN
    requires forall k :: 0 <= k < PAGE_BODY_LEN && !(lo <= k < hi) ==> r[k] == b[k]
    ensures Sound(r) && Cells(r) == Cells(b) && Marked(r)
  {
    hide Used;
    Bounded(b);
    assert r[..4] == b[..4];
    forall j: nat | j < Count(b) ensures SlotAt(r, j) == SlotAt(b, j) { }
    assert Directory(r) == Directory(b);
    forall j: nat | j < Count(b) ensures Content(r, Directory(b)[j]) == Content(b, Directory(b)[j]) { }
  }

  ghost predicate OneOff(a: Bytes, b: Bytes, i: nat) {
    |a| == |b| && i < |a| && a[i] != b[i] && forall j :: 0 <= j < |a| && j != i ==> a[j] == b[j]
  }

  lemma DifferentOctets(x: Byte, y: Byte)
    ensures Framing.ToByte(x) == Framing.ToByte(y) ==> x == y
  {
    Framing.ByteBack(x);
    Framing.ByteBack(y);
  }

  /** Any single damaged byte, in the checksum field or out of it, is refused. */
  lemma DamageRefused(b: Bytes, damaged: Bytes, i: nat)
    requires Acceptable(b) && OneOff(b, damaged, i)
    ensures !Acceptable(damaged)
  {
    hide Crc.Crc32, Framed, Marked, Framing.ToByte, Framing.ReadCrc;
    DifferentOctets(b[i], damaged[i]);
    if OFF_CRC <= i < OFF_CRC + 4 {
      assert Covered(b) == Covered(damaged);
      var s, t := Octets(b[OFF_CRC..OFF_CRC + 4]), Octets(damaged[OFF_CRC..OFF_CRC + 4]);
      assert s[i - OFF_CRC] != t[i - OFF_CRC];
      Framing.CrcForth(s);
      Framing.CrcForth(t);
    } else {
      assert b[OFF_CRC..OFF_CRC + 4] == damaged[OFF_CRC..OFF_CRC + 4];
      var k := if i < OFF_CRC then i else i - 4;
      var s, t := Octets(Covered(b)), Octets(Covered(damaged));
      assert s[k] != t[k];
      assert forall j :: 0 <= j < |s| && j != k ==> s[j] == t[j];
      Crc.OneByteShows(s, t, k);
    }
  }

  // ---- room ----

  function FreeSpace(b: Bytes): nat
    requires Full(b)
  {
    if FreeEnd(b) < DirectoryEnd(b) then 0 else FreeEnd(b) - DirectoryEnd(b)
  }

  /** Free bytes counting the holes: what is left of the page's budget. */
  method ReclaimableSpace(b: Bytes) returns (space: nat)
    requires Sound(b)
    ensures space == CAPACITY - Used(Sizes(Cells(b)))
  {
    hide Used, Placed, Cells;
    Bounded(b);
    SizesOf(b);
    var lens := Lengths(Directory(b));
    var used := 0;
    UsedNone(lens);
    for i := 0 to Count(b)
      invariant used == Used(lens[..i]) - i * SLOT_LEN
    {
      UsedStep(lens, i);
      used := used + SlotAt(b, i).length;
    }
    assert lens[..|lens|] == lens;
    UsedBound(b);
    space := PAGE_BODY_LEN - PAGE_HEADER_LEN - Count(b) * SLOT_LEN - used;
  }

  lemma UsedNone(lens: seq<nat>)
    ensures Used(lens[..0]) == 0
  {
  }

  lemma UsedBound(b: Bytes)
    requires Sound(b)
    ensures FreeEnd(b) + Used(Lengths(Directory(b))) <= PAGE_BODY_LEN + Count(b) * SLOT_LEN
  {
  }

  lemma CellLength(b: Bytes, i: nat)
    requires Framed(b) && i < Count(b)
    ensures |Cells(b)| == Count(b) && |Cells(b)[i]| == SlotAt(b, i).length
  {
  }

  lemma HeaderKept(a: Bytes, b: Bytes)
    requires Full(a) && Full(b) && SameHeader(a, b)
    ensures Marked(a) <==> Marked(b)
    ensures a[OFF_KIND] == b[OFF_KIND] && U32(a, OFF_EXTRA) == U32(b, OFF_EXTRA)
  {
    assert a[..4] == a[..OFF_SLOT_COUNT][..4] && b[..4] == b[..OFF_SLOT_COUNT][..4];
    assert forall k :: 0 <= k < OFF_SLOT_COUNT ==> a[k] == a[..OFF_SLOT_COUNT][k] && b[k] == b[..OFF_SLOT_COUNT][k];
    var p, q := a[OFF_FREE_END + 2..PAGE_HEADER_LEN], b[OFF_FREE_END + 2..PAGE_HEADER_LEN];
    assert forall k :: 0 <= k < |p| ==> a[OFF_FREE_END + 2 + k] == p[k] && b[OFF_FREE_END + 2 + k] == q[k];
    assert a[12] == p[2] && a[13] == p[3] && a[14] == p[4] && a[15] == p[5];
    assert b[12] == q[2] && b[13] == q[3] && b[14] == q[4] && b[15] == q[5];
  }

  /** A page being filled or edited in memory. */
  class RawPage {
    var body: Bytes

    ghost predicate Valid()
      reads this
    {
      Sound(body) && Marked(body)
    }

    function Kind(): PageKind
      requires Valid()
      reads this
    {
      KindOf(body[OFF_KIND]).value
    }

    function Extra(): nat
      requires Valid()
      reads this
    {
      U32(body, OFF_EXTRA)
    }

    /** The cells in slot order: what every edit is stated about. */
    ghost function View(): seq<Bytes>
      requires Valid()
      reads this
    {
      Cells(body)
    }

    constructor (kind: PageKind)
      ensures Valid() && Kind() == kind && Extra() == 0 && View() == []
    {
      var b: Bytes := seq(PAGE_BODY_LEN, _ => 0);
      b := Patch(b, 0, PAGE_MAGIC);
      b := Patch(b, OFF_KIND, [KindByte(kind)]);
      b := Patch(b, OFF_VERSION, [PAGE_FORMAT_VERSION]);
      b := SetCount(b, 0);
      b := SetFreeEnd(b, PAGE_BODY_LEN);
      b := Patch(b, OFF_EXTRA, U32Bytes(0));
      assert b[..4] == PAGE_MAGIC;
      assert Count(b) == 0 && FreeEnd(b) == PAGE_BODY_LEN;
      body := b;
    }

    /** A page over bytes read from disk. */
    constructor Over(bytes: Bytes)
      ensures body == bytes
    {
      body := bytes;
    }

    method SetExtra(value: nat)
      requires Valid() && value < 0x1_0000_0000
      modifies this
      ensures Valid() && Kind() == old(Kind()) && Extra() == value && View() == old(View())
    {
      ghost var b := body;
      body := Patch(body, OFF_EXTRA, U32Bytes(value));
      FieldEdit(b, body, OFF_EXTRA, OFF_EXTRA + 4);
    }

    /** Cell `index`, if there is one. */
    method Cell(index: nat) returns (r: Option<Bytes>)
      requires Valid()
      ensures r == if index < |View()| then Some(View()[index]) else None
    {
      hide Placed;
      Bounded(body);
      if index >= Count(body) { return None; }
      assert Directory(body)[index] == SlotAt(body, index);
      return Some(Content(body, SlotAt(body, index)));
    }

    method Compact()
      requires Valid()
      modifies this
      ensures Valid() && SameHeader(body, old(body)) && View() == old(View())
      ensures FreeEnd(body) + Used(Sizes(View())) == PAGE_BODY_LEN + |View()| * SLOT_LEN
    {
      hide Placed, Marked, Used, SameHeader, Cells, FreeEnd;
      ghost var b := body;
      Bounded(b);
      SizesOf(b);
      body := Repacked(body);
      Bounded(body);
      HeaderKept(body, b);
    }

    /** Put `data` in slot `index`, moving later slots up, unless cells and slots together would
        no longer fit. */
    method InsertCell(index: nat, data: Bytes) returns (ok: bool)
      requires Valid()
      modifies this
      ensures Valid() && Kind() == old(Kind()) && Extra() == old(Extra())
      ensures ok <==> index <= |old(View())| && Used(Sizes(old(View()))) + |data| + SLOT_LEN <= CAPACITY
      ensures View() == if ok then old(View())[..index] + [data] + old(View())[index..] else old(View())
    {
      hide Placed, Marked, Used, SameHeader, Cells, Inserted, FreeEnd, Directory;
      ghost var b := body;
      Bounded(b);
      SizesOf(b);
      UsedBound(b);
      var count := Count(body);
      assert |View()| == count;
      if index > count || |data| > MAX_CELL_LEN { return false; }
      var needed := |data| + SLOT_LEN;
      if FreeSpace(body) < needed {
        var space := ReclaimableSpace(body);
        if space < needed { return false; }
        Compact();
        Bounded(body);
        SizesOf(body);
        HeaderKept(body, b);
      }
      ghost var c := body;
      InsertedCells(c, index, data);
      InsertedHeader(c, index, data);
      HeaderKept(Inserted(c, index, data), c);
      Place(index, data);
      return true;
    }

    /** Open the slot, copy the cell below the others, and point the slot at it. */
    method Place(index: nat, data: Bytes)
      requires Room(body, data) && index <= Count(body)
      modifies this
      ensures body == Inserted(old(body), index, data)
    {
      hide Placed, Directory, SlotAt, Patch, SetSlot, SetCount, SetFreeEnd;
      Bounded(body);
      var count, freeEnd := Count(body), FreeEnd(body) - |data|;
      body := OpenSlot(body, index);
      body := Patch(body, freeEnd, data);
      body := SetFreeEnd(body, freeEnd);
      body := SetCount(body, count + 1);
      body := SetSlot(body, index, Slot(freeEnd, |data|));
    }

    method PushCell(data: Bytes) returns (ok: bool)
      requires Valid()
      modifies this
      ensures Valid() && Kind() == old(Kind()) && Extra() == old(Extra())
      ensures ok <==> Used(Sizes(old(View()))) + |data| + SLOT_LEN <= CAPACITY
      ensures View() == if ok then old(View()) + [data] else old(View())
    {
      hide Used, Placed, Marked;
      Bounded(body);
      ghost var cells := View();
      var index := Count(body);
      ok := InsertCell(index, data);
      assert cells[..|cells|] + [data] + cells[|cells|..] == cells + [data];
    }

    /** Drop cell `index`, moving later slots down. */
    method RemoveCell(index: nat)
      requires Valid()
      modifies this
      ensures Valid() && Kind() == old(Kind()) && Extra() == old(Extra())
      ensures View() == if index < |old(View())| then old(View())[..index] + old(View())[index + 1..] else old(View())
    {
      hide Placed, Marked, SameHeader, Cells, Patch, SetCount, FreeEnd, Directory;
      ghost var b := body;
      Bounded(b);
      SizesOf(b);
      var count := Count(body);
      if index >= count { return; }
      RemovedCells(b, index);
      HeaderKept(Removed(b, index), b);
      var at := PAGE_HEADER_LEN + index * SLOT_LEN;
      body := Patch(body, at, body[at + SLOT_LEN..DirectoryEnd(body)]);
      body := SetCount(body, count - 1);
      assert body == Removed(b, index);
    }

    /** Replace cell `index`. It fails only where the new cell does not fit in place of the old
        one, and then the old cell is gone. */
    method ReplaceCell(index: nat, data: Bytes) returns (ok: bool)
      requires Valid()
      modifies this
      ensures Valid() && Kind() == old(Kind()) && Extra() == old(Extra())
      ensures ok <==> index < |old(View())| &&
                      Used(Sizes(old(View()))) - |old(View())[index]| + |data| <= CAPACITY
      ensures ok ==> View() == old(View())[index := data]
      ensures !ok && index >= |old(View())| ==> View() == old(View())
      ensures !ok && index < |old(View())| ==> View() == old(View())[..index] + old(View())[index + 1..]
    {
      hide Sound, Marked, Used, Cells, Directory;
      Bounded(body);
      UsedBound(body);
      SizesOf(body);
      ghost var cells := View();
      if index >= Count(body) { return false; }
      CellLength(body, index);
      if SlotAt(body, index).length == |data| {
        Overwrite(index, data);
        return true;
      }
      RemovedSizes(cells, index);
      RemoveCell(index);
      ok := InsertCell(index, data);
      ghost var less := cells[..index] + cells[index + 1..];
      assert less[..index] + [data] + less[index..] == cells[index := data];
    }

    /** A cell of the same length goes where the old one stands. */
    method Overwrite(index: nat, data: Bytes)
      requires Valid() && index < |View()| && |data| == SlotAt(body, index).length
      modifies this
      ensures Valid() && Kind() == old(Kind()) && Extra() == old(Extra())
      ensures View() == old(View())[index := data]
    {
      hide Placed, Marked, SameHeader, Used, Patch, FreeEnd;
      ghost var b := body;
      Bounded(b);
      OverwrittenCells(b, index, data);
      body := Patch(body, SlotAt(body, index).offset, data);
      HeaderKept(body, b);
    }

    /** The body to write, its checksum brought up to date. */
    method Encode() returns (bytes: Bytes)
      requires Valid()
      modifies this
      ensures Valid() && Kind() == old(Kind()) && Extra() == old(Extra()) && View() == old(View())
      ensures bytes == body && Acceptable(bytes)
    {
      hide Sound, Marked, Patch, Checksum;
      Bounded(body);
      SealedAcceptable(body);
      var crc := ComputeCrc(body);
      body := Patch(body, OFF_CRC, CrcField(crc));
      return body;
    }
  }

  lemma RemovedSizes(cells: seq<Bytes>, index: nat)
    requires index < |cells|
    ensures Used(Sizes(cells[..index] + cells[index + 1..])) == Used(Sizes(cells)) - |cells[index]| - SLOT_LEN
  {
    hide Used;
    var lens, less := Sizes(cells), Sizes(cells[..index] + cells[index + 1..]);
    assert less == lens[..index] + lens[index + 1..];
    UsedConcat(lens[..index], lens[index + 1..]);
    UsedCut(lens, index + 1);
    UsedStep(lens, index);
  }

  /** Fill a new page with cells: it works exactly when cells and slots fit together. */
  method BuildPage(kind: PageKind, extra: nat, cells: seq<Bytes>) returns (page: RawPage?)
    requires extra < 0x1_0000_0000
    ensures page != null <==> Fits(Sizes(cells))
    ensures page != null ==> fresh(page) && page.Valid() && page.Kind() == kind && page.Extra() == extra
    ensures page != null ==> page.View() == cells
  {
    hide Used, Sound, Marked;
    page := new RawPage(kind);
    page.SetExtra(extra);
    UsedNone(Sizes(cells));
    assert Sizes(cells[..0]) == Sizes(cells)[..0];
    for i := 0 to |cells|
      invariant page != null && fresh(page) && page.Valid() && page.Kind() == kind && page.Extra() == extra
      invariant page.View() == cells[..i]
      invariant Fits(Sizes(cells[..i]))
    {
      PrefixFits(cells, i);
      var ok := page.PushCell(cells[i]);
      if !ok { return null; }
    }
    assert cells[..|cells|] == cells;
  }

  lemma PrefixFits(cells: seq<Bytes>, i: nat)
    requires i < |cells|
    ensures Used(Sizes(cells[..i + 1])) == Used(Sizes(cells[..i])) + |cells[i]| + SLOT_LEN <= Used(Sizes(cells))
  {
    hide Used;
    var lens := Sizes(cells);
    assert Sizes(cells[..i]) == lens[..i] && Sizes(cells[..i + 1]) == lens[..i + 1];
    UsedStep(lens, i);
    UsedCut(lens, i + 1);
  }

  /** Take a body read from disk, if it passes every check. */
  method Decode(bytes: Bytes) returns (page: RawPage?)
    ensures page != null <==> Acceptable(bytes)
    ensures page != null ==> fresh(page) && page.body == bytes
  {
    var ok := Check(bytes);
    if !ok { return null; }
    page := new RawPage.Over(bytes);
  }

  /** Where every field of an accepted body stands, least significant byte first. */
  lemma LayoutOf(b: Bytes, i: nat)
    requires Acceptable(b) && i < |Cells(b)|
    ensures |b| == 16356 && b[0] == 0x46 && b[1] == 0x51 && b[2] == 0x50 && b[3] == 0x47 && 1 <= b[4] <= 5 && b[5] == 1
    ensures |Cells(b)| == b[6] as nat + 256 * b[7] as nat
    ensures var at, free := 24 + 4 * i, b[8] as nat + 256 * b[9] as nat;
            && 24 + 4 * |Cells(b)| <= free <= 16356
            && var offset, length := b[at] as nat + 256 * b[at + 1] as nat, b[at + 2] as nat + 256 * b[at + 3] as nat;
               free <= offset && offset + length <= 16356 && Cells(b)[i] == b[offset..offset + length]
  {
    hide Checksum, StoredCrc;
    assert b[0] == b[..4][0] && b[1] == b[..4][1] && b[2] == b[..4][2] && b[3] == b[..4][3];
    assert Directory(b)[i] == SlotAt(b, i);
  }
}
