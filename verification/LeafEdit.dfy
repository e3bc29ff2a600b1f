/** Inserting an entry into one leaf's list: the new list, its size, and the cut
    that always exists when it no longer fits. */
module LeafEdit {
  import opened Bytes
  import opened Entries
  import opened Pages
  import opened Shape

  /** The leaf's cells with `e` put where the search said. */
  function PutAt(s: seq<Entry>, index: nat, found: bool, e: Entry): seq<Entry>
    requires index <= |s| && (found ==> index < |s|)
  {
    if found then s[index := e] else s[..index] + [e] + s[index..]
  }

  /** What `LeafSearch` promises. */
  ghost predicate Searched(s: seq<Entry>, key: Bytes, index: nat, found: bool) {
    && index <= |s| && Below(s[..index], key)
    && (found ==> index < |s| && s[index].key == key && Above(s[index + 1..], key))
    && (!found ==> Above(s[index..], key))
  }

  lemma PutAtIsPut(s: seq<Entry>, key: Bytes, value: Bytes, index: nat, found: bool)
    requires Searched(s, key, index, found)
    ensures PutAt(s, index, found, Entry(key, value)) == PutEntry(s, key, value)
  {
    var e := Entry(key, value);
    if found {
      assert s == s[..index] + [s[index]] + s[index + 1..];
      PutMiddle(s[..index], [s[index]], s[index + 1..], key, value);
      assert PutEntry([s[index]], key, value) == [e];
      assert s[index := e] == s[..index] + [e] + s[index + 1..];
    } else {
      assert s == s[..index] + [] + s[index..];
      PutMiddle(s[..index], [], s[index..], key, value);
    }
  }

  lemma LensConcat(a: seq<Entry>, b: seq<Entry>)
    ensures LeafLens(a + b) == LeafLens(a) + LeafLens(b)
    ensures Used(LeafLens(a + b)) == Used(LeafLens(a)) + Used(LeafLens(b))
  {
    assert LeafLens(a + b) == LeafLens(a) + LeafLens(b);
    UsedConcat(LeafLens(a), LeafLens(b));
  }

  lemma LensOne(e: Entry)
    ensures Used(LeafLens([e])) == LeafCellLen(e) + SLOT_LEN
  {
    assert LeafLens([e]) == [LeafCellLen(e)];
    UsedOne(LeafCellLen(e));
  }

  lemma LensMiddle(a: seq<Entry>, c: seq<Entry>, b: seq<Entry>)
    ensures Used(LeafLens(a + c + b)) == Used(LeafLens(a)) + Used(LeafLens(c)) + Used(LeafLens(b))
  {
    LensConcat(a + c, b);
    LensConcat(a, c);
  }

  lemma PutAtUsed(s: seq<Entry>, index: nat, found: bool, e: Entry)
    requires index <= |s| && (found ==> index < |s|)
    ensures found ==>
                Used(LeafLens(PutAt(s, index, found, e))) + LeafCellLen(s[index]) == Used(LeafLens(s)) + LeafCellLen(e)
    ensures !found ==> Used(LeafLens(PutAt(s, index, found, e))) == Used(LeafLens(s)) + LeafCellLen(e) + SLOT_LEN
  {
    LensOne(e);
    if found {
      LensOne(s[index]);
      LensMiddle(s[..index], [s[index]], s[index + 1..]);
      LensMiddle(s[..index], [e], s[index + 1..]);
      assert s == s[..index] + [s[index]] + s[index + 1..];
      assert s[index := e] == s[..index] + [e] + s[index + 1..];
    } else {
      LensConcat(s[..index], s[index..]);
      LensMiddle(s[..index], [e], s[index..]);
      assert s == s[..index] + s[index..];
    }
  }

  ghost predicate Bounded(s: seq<Entry>) {
    forall e :: e in s ==> |e.key| <= MAX_KEY_LEN && |e.value| <= MAX_VALUE_LEN
  }

  /** The list after the insert, whether or not it still fits a page. */
  lemma PutAtFacts(s: seq<Entry>, key: Bytes, value: Bytes, index: nat, found: bool)
    requires LeafOK(s) && Searched(s, key, index, found)
    requires |key| <= MAX_KEY_LEN && |value| <= MAX_VALUE_LEN
    ensures var t := PutAt(s, index, found, Entry(key, value));
      t == PutEntry(s, key, value) && t != [] && |t| <= |s| + 1 && Sorted(t) && Bounded(t)
  {
    PutAtIsPut(s, key, value, index, found);
    PutSorted(s, key, value);
    PutMembers(s, key, value);
  }

  /** A leaf that overflows by one entry can always be cut in two. */
  lemma OverfullCuts(s: seq<Entry>, t: seq<Entry>, extra: nat)
    requires LeafOK(s) && Bounded(t) && !Fits(LeafLens(t))
    requires Used(LeafLens(t)) <= Used(LeafLens(s)) + extra && extra <= 2 + MAX_KEY_LEN + MAX_VALUE_LEN + SLOT_LEN
    ensures exists c :: GoodCut(LeafLens(t), c)
  {
    var lens := LeafLens(t);
    forall i | 0 <= i < |lens| ensures lens[i] + SLOT_LEN <= 2 + MAX_KEY_LEN + MAX_VALUE_LEN + SLOT_LEN {
      assert t[i] in t;
    }
    SplitExists(lens, 2 + MAX_KEY_LEN + MAX_VALUE_LEN + SLOT_LEN);
  }

  lemma CutHalves(t: seq<Entry>, c: nat)
    requires Sorted(t) && Bounded(t) && GoodCut(LeafLens(t), c)
    ensures 0 < c < |t| && LeafOK(t[..c]) && LeafOK(t[c..])
  {
    assert LeafLens(t)[..c] == LeafLens(t[..c]);
    assert LeafLens(t)[c..] == LeafLens(t[c..]);
  }

  // ------------------------------------------------------------------
  // Removal
  // ------------------------------------------------------------------

  function RemoveAt(s: seq<Entry>, index: nat): seq<Entry>
    requires index < |s|
  {
    s[..index] + s[index + 1..]
  }

  lemma RemoveAtFacts(s: seq<Entry>, key: Bytes, index: nat)
    requires LeafOK(s) && Searched(s, key, index, true)
    ensures RemoveAt(s, index) == DelEntry(s, key) && LeafOK(RemoveAt(s, index))
    ensures !Absent(s, key)
  {
    hide Used, Sorted;
    var a, c, b := s[..index], [s[index]], s[index + 1..];
    assert s == a + c + b;
    BelowAbsent(a, key);
    BelowAbsent(b, key);
    DelMiddle(a, c, b, key);
    assert DelEntry(c, key) == [];
    assert a + [] + b == a + b;
    assert s[index] in s;
    DelSorted(s, key);
    DelMembers(s, key);
    RemoveAtFits(s, index);
  }

  lemma RemoveAtFits(s: seq<Entry>, index: nat)
    requires index < |s| && Fits(LeafLens(s))
    ensures Fits(LeafLens(RemoveAt(s, index)))
  {
    var a, c, b := s[..index], [s[index]], s[index + 1..];
    assert s == a + c + b;
    LensMiddle(a, c, b);
    LensConcat(a, b);
  }

  lemma SearchedAbsent(s: seq<Entry>, key: Bytes, index: nat)
    requires Searched(s, key, index, false)
    ensures Absent(s, key)
  {
    assert s == s[..index] + s[index..];
    BelowAbsent(s[..index], key);
    BelowAbsent(s[index..], key);
  }
}
