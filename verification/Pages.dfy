/** The pages an index file is made of, their byte budget, and the searches and
    the split decision made inside one page. */
module Pages {
  import opened Bytes
  import opened Entries

  const PAGE_SIZE: nat := 16 * 1024
  const PAGE_ENVELOPE_LEN: nat := 12 + 16
  const PAGE_BODY_LEN: nat := PAGE_SIZE - PAGE_ENVELOPE_LEN
  const PAGE_HEADER_LEN: nat := 24
  const SLOT_LEN: nat := 4
  const MAX_CELL_LEN: nat := PAGE_BODY_LEN - PAGE_HEADER_LEN - SLOT_LEN
  const MAX_KEY_LEN: nat := 1024
  const MAX_VALUE_LEN: nat := 4096
  const MAX_FREE_ENTRIES: nat := 1024

  /** What the slots and cells of one page may take together. */
  const CAPACITY: nat := MAX_CELL_LEN + SLOT_LEN

  datatype FreeEntry = FreeEntry(generation: nat, page: nat)

  /** No page is listed as free twice. */
  ghost predicate Distinct(free: seq<FreeEntry>) {
    forall i, j :: 0 <= i < j < |free| ==> free[i].page != free[j].page
  }

  datatype Meta = Meta(generation: nat, root: nat, entries: nat, highWater: nat, free: seq<FreeEntry>)

  /** A branch lists its children left to right: `kids[0]` is the page's leftmost
      pointer and `kids[i + 1]` the pointer stored beside separator `seps[i]`. */
  datatype Page =
    | Leaf(entries: seq<Entry>)
    | Branch(kids: seq<nat>, seps: seq<Bytes>)
    | MetaPage(meta: Meta)

  function LeafCellLen(e: Entry): nat { 2 + |e.key| + |e.value| }

  function BranchCellLen(sep: Bytes): nat { 6 + |sep| }

  function LeafLens(s: seq<Entry>): (lens: seq<nat>) {
    seq(|s|, i requires 0 <= i < |s| => LeafCellLen(s[i]))
  }

  function BranchLens(seps: seq<Bytes>): (lens: seq<nat>) {
    seq(|seps|, i requires 0 <= i < |seps| => BranchCellLen(seps[i]))
  }

  /** Bytes a run of cells takes, slots included. */
  function Used(lens: seq<nat>): nat {
    if lens == [] then 0 else Used(lens[..|lens| - 1]) + lens[|lens| - 1] + SLOT_LEN
  }

  predicate Fits(lens: seq<nat>) { Used(lens) <= CAPACITY }

  lemma {:induction false} UsedConcat(a: seq<nat>, b: seq<nat>)
    ensures Used(a + b) == Used(a) + Used(b)
  {
    if b == [] {
      assert a + b == a;
    } else {
      assert (a + b)[..|a + b| - 1] == a + b[..|b| - 1];
      UsedConcat(a, b[..|b| - 1]);
    }
  }

  lemma UsedOne(n: nat)
    ensures Used([n]) == n + SLOT_LEN
  {
    assert [n][..0] == [];
  }

  lemma UsedCut(lens: seq<nat>, c: nat)
    requires c <= |lens|
    ensures Used(lens) == Used(lens[..c]) + Used(lens[c..])
  {
    assert lens == lens[..c] + lens[c..];
    UsedConcat(lens[..c], lens[c..]);
  }

  lemma UsedStep(lens: seq<nat>, i: nat)
    requires i < |lens|
    ensures Used(lens[..i + 1]) == Used(lens[..i]) + lens[i] + SLOT_LEN
  {
    assert lens[..i + 1][..i] == lens[..i];
  }

  /** Both sides of the cut fit in a page, and neither is empty. */
  predicate GoodCut(lens: seq<nat>, c: nat) {
    0 < c < |lens| && Fits(lens[..c]) && Fits(lens[c..])
  }

  /** Where to cut an overfull cell list: the balanced midpoint if it works, else
      the nearest cut that does. It fails only when no cut works. */
  method SplitPoint(lens: seq<nat>) returns (point: Option<nat>)
    ensures point.Some? ==> GoodCut(lens, point.value)
    ensures point.None? ==> forall c :: !GoodCut(lens, c)
    ensures point.Some? && Thirds(lens) && !Fits(lens) ==> point.value + 1 < |lens|
  {
    if |lens| < 2 { return None; }
    var total := Used(lens);
    var midpoint := Midpoint(lens, total);
    var offset := 0;
    while offset < |lens|
      invariant 0 <= offset <= |lens|
      invariant forall c: nat {:trigger GoodCut(lens, c)} :: midpoint - offset < c < midpoint + offset ==>
                    !GoodCut(lens, c)
    {
      if GoodCut(lens, midpoint + offset) {
        NotLast(lens, midpoint, offset);
        return Some(midpoint + offset);
      }
      var low := if offset <= midpoint then midpoint - offset else 0;
      if GoodCut(lens, low) {
        NotLast(lens, midpoint, 0);
        return Some(low);
      }
      offset := offset + 1;
    }
    return None;
  }

  /** A page holds three of each cell, slot included. */
  predicate Thirds(lens: seq<nat>) { forall i :: 0 <= i < |lens| ==> 3 * (lens[i] + SLOT_LEN) <= CAPACITY }

  /** An overfull list of such cells is not cut in front of its last one. */
  lemma NotLast(lens: seq<nat>, midpoint: nat, offset: nat)
    requires 1 <= midpoint < |lens| && midpoint + offset < |lens|
    requires midpoint == 1 || 2 * Used(lens[..midpoint]) < Used(lens)
    requires offset > 0 ==> GoodCut(lens, midpoint + offset) && !GoodCut(lens, midpoint + offset - 1)
    ensures Thirds(lens) && !Fits(lens) ==> midpoint + offset + 1 < |lens|
  {
    hide Used;
    if Thirds(lens) && !Fits(lens) { LastTwo(lens); }
  }

  lemma LastTwo(lens: seq<nat>)
    requires |lens| >= 2 && Thirds(lens) && !Fits(lens)
    ensures |lens| > 3 && 2 * Used(lens[..|lens| - 1]) >= Used(lens)
    ensures GoodCut(lens, |lens| - 1) ==> GoodCut(lens, |lens| - 2)
  {
    hide Used;
    var n := |lens|;
    UsedFew(lens);
    UsedCut(lens, n - 1);
    UsedStep(lens, n - 2);
    UsedOne(lens[n - 1]);
    UsedOne(lens[n - 2]);
    assert lens[n - 1..] == [lens[n - 1]] && lens[n - 2..] == [lens[n - 2]] + [lens[n - 1]];
    UsedConcat([lens[n - 2]], [lens[n - 1]]);
  }

  lemma UsedFew(lens: seq<nat>)
    requires Thirds(lens)
    ensures |lens| <= 3 ==> Fits(lens)
  {
    hide Used;
    UsedNone();
    assert lens[..|lens|] == lens && lens[..0] == [];
    if |lens| > 0 { UsedStep(lens, 0); }
    if |lens| > 1 { UsedStep(lens, 1); }
    if |lens| > 2 { UsedStep(lens, 2); }
  }

  lemma UsedNone()
    ensures Used([]) == 0
  {
  }

  method Midpoint(lens: seq<nat>, total: nat) returns (midpoint: nat)
    requires |lens| >= 2 && total == Used(lens)
    ensures 1 <= midpoint < |lens|
    ensures midpoint == 1 || 2 * Used(lens[..midpoint]) < total <= 2 * Used(lens[..midpoint + 1])
  {
    var running, index := 0, 0;
    while index < |lens|
      invariant 0 <= index <= |lens| && running == Used(lens[..index])
      invariant index > 0 ==> 2 * running < total
    {
      running := running + lens[index] + SLOT_LEN;
      UsedStep(lens, index);
      if running * 2 >= total {
        return if index >= 1 then index else 1;
      }
      index := index + 1;
    }
    assert lens[..|lens|] == lens;
    return 1;
  }

  /** A list that overflows a page by at most one cell can be cut, provided a page
      holds at least three of the largest cells. */
  lemma SplitExists(lens: seq<nat>, largest: nat)
    requires forall i :: 0 <= i < |lens| ==> lens[i] + SLOT_LEN <= largest
    requires 3 * largest <= CAPACITY < Used(lens) <= CAPACITY + largest
    ensures exists c :: GoodCut(lens, c)
  {
    var c := 0;
    assert lens[..|lens|] == lens;
    while Used(lens[..c]) < Used(lens) - CAPACITY
      invariant 0 <= c <= |lens|
      invariant c > 0 ==> Used(lens[..c]) < Used(lens) - CAPACITY + largest
      decreases |lens| - c
    {
      UsedStep(lens, c);
      c := c + 1;
    }
    UsedCut(lens, c);
    assert GoodCut(lens, c);
  }

  /** Binary search of a leaf: where `key` is, or where it would go. */
  method LeafSearch(s: seq<Entry>, key: Bytes) returns (index: nat, found: bool)
    requires Sorted(s)
    ensures index <= |s|
    ensures found ==> index < |s| && s[index].key == key && Above(s[index + 1..], key)
    ensures !found ==> Above(s[index..], key)
    ensures Below(s[..index], key)
  {
    var low, high := 0, |s|;
    OrderLaws();
    while low < high
      invariant 0 <= low <= high <= |s|
      invariant forall i :: 0 <= i < low ==> Lt(s[i].key, key)
      invariant forall i :: high <= i < |s| ==> Lt(key, s[i].key)
    {
      var mid := (low + high) / 2;
      if Lt(s[mid].key, key) {
        low := mid + 1;
      } else if Lt(key, s[mid].key) {
        high := mid;
      } else {
        return mid, true;
      }
    }
    return low, false;
  }

  /** Which child of a branch a key routes to: past every separator at or below it. */
  method Route(seps: seq<Bytes>, key: Bytes) returns (slot: nat)
    ensures slot <= |seps|
    ensures forall i :: 0 <= i < slot ==> !Lt(key, seps[i])
    ensures slot < |seps| ==> Lt(key, seps[slot])
  {
    slot := 0;
    while slot < |seps|
      invariant slot <= |seps|
      invariant forall i :: 0 <= i < slot ==> !Lt(key, seps[i])
    {
      if Lt(key, seps[slot]) { return; }
      slot := slot + 1;
    }
  }
}
