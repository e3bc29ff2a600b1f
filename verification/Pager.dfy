/** The pager: pages by id, written through a buffer pool that may put any of them
    on disk early. Ghost state records what is published and pinned, and every
    moment the file has been through since it was opened. */
module PagerModel {
  import opened Bytes
  import opened Entries
  import opened Pages
  import opened Shape
  import opened Crash

  /** A view somebody reads through, and the moment it was pinned. */
  datatype Pin = Pin(view: View, since: nat)

  datatype Moment = Moment(disk: Disk, prev: Option<Published>, now: Published, next: Option<Published>)

  ghost predicate MomentOK(m: Moment) {
    DiskOK(m.disk) && Recoverable(m.disk, m.prev, m.now, m.next)
  }

  /** What is published changes only when a meta page that was being written is flushed. */
  ghost predicate StepOK(a: Moment, b: Moment) {
    || (a.next.None? && b.now == a.now && b.prev == a.prev)
    || (a.next.Some? && b.next.None? && b.now == a.next.value && b.prev == Some(a.now))
  }

  ghost predicate Chain(history: seq<Moment>) {
    && (forall i :: 0 <= i < |history| ==> MomentOK(history[i]))
    && (forall i :: 0 < i < |history| ==> StepOK(history[i - 1], history[i]))
  }

  /** Between two moments of one generation, nothing was published. */
  lemma {:induction false} NowSteady(history: seq<Moment>, i: nat, j: nat)
    requires Chain(history) && i <= j < |history|
    ensures history[i].now.meta.generation <= history[j].now.meta.generation
    ensures history[i].now.meta.generation == history[j].now.meta.generation ==>
      forall k :: i <= k <= j ==> history[k].now == history[i].now && (k < j ==> history[k].next == None)
    decreases j - i
  {
    if i < j {
      assert StepOK(history[j - 1], history[j]) && MomentOK(history[j - 1]);
      NowSteady(history, i, j - 1);
    }
  }

  /** Not one page of the pinned view has changed at any moment since. */
  ghost predicate Pinned(history: seq<Moment>, pin: Pin) {
    && pin.since < |history| && Holds(history[pin.since].disk.mem, pin.view)
    && forall i :: pin.since <= i < |history| ==>
           Agree(history[pin.since].disk.mem, history[i].disk.mem, pin.view.pages)
  }

  lemma PinnedStep(history: seq<Moment>, pin: Pin, m: Moment)
    requires Pinned(history, pin) && Agree(history[|history| - 1].disk.mem, m.disk.mem, pin.view.pages)
    ensures Pinned(history + [m], pin)
  {
    hide Holds;
    assert Agree(history[pin.since].disk.mem, history[|history| - 1].disk.mem, pin.view.pages);
  }

  /** So the view has been readable throughout. */
  lemma PinnedHolds(history: seq<Moment>, pin: Pin, i: nat)
    requires Pinned(history, pin) && pin.since <= i < |history|
    ensures Holds(history[i].disk.mem, pin.view)
  {
    HoldsFrame(history[pin.since].disk.mem, history[i].disk.mem, pin.view);
  }

  lemma PinPages(history: seq<Moment>, pin: Pin)
    requires Pinned(history, pin)
    ensures forall p :: p in pin.view.pages ==> p in history[|history| - 1].disk.mem && p >= FIRST_DATA_PAGE
  {
    ReachClosed(history[pin.since].disk.mem, pin.view.root, pin.view.height);
    assert Agree(history[pin.since].disk.mem, history[|history| - 1].disk.mem, pin.view.pages);
  }

  class Pager {
    var pages: Store
    var pageCount: nat
    ghost var disk: Disk
    ghost var prev: Option<Published>
    ghost var now: Published
    ghost var next: Option<Published>
    ghost var pins: map<nat, Pin>
    ghost var history: seq<Moment>

    ghost function Here(): Moment
      reads this
    {
      Moment(disk, prev, now, next)
    }

    ghost predicate Valid()
      reads this
    {
      && pages == disk.mem
      && |history| > 0 && history[|history| - 1] == Here()
      && Chain(history)
      && (forall t :: t in pins ==> Pinned(history, pins[t]))
    }

    /** Pages that must stay as they are: those of the published trees and of every pin. */
    ghost predicate Guarded(p: nat)
      reads this
    {
      || p in now.view.pages
      || (prev.Some? && p in prev.value.view.pages)
      || exists t :: t in pins && p in pins[t].view.pages
    }

    lemma NowHolds()
      requires Valid()
      ensures Holds(pages, now.view) && now.view.generation == now.meta.generation
    {
      assert MomentOK(history[|history| - 1]);
    }

    /** The state of the file as a crash left it, with `meta` the one `open` chose. */
    constructor Reopen(img: Store, meta: Meta, ghost view: View, ghost before: Option<Published>)
      requires Settled(img, meta) && Holds(img, view) && PublishedOK(Published(meta, view))
      requires before.Some? ==> Fallback(img, before.value, Published(meta, view))
      ensures Valid()
      ensures pages == img && pageCount == meta.highWater && disk == Disk(img, img, map[])
      ensures prev == before && now == Published(meta, view) && next == None && pins == map[]
    {
      pages, pageCount := img, meta.highWater;
      disk := Disk(img, img, map[]);
      prev, now, next := before, Published(meta, view), None;
      pins := map[];
      new;
      history := [Here()];
      ReopenRecoverable(img, before, Published(meta, view));
    }

    method Allocate() returns (id: nat)
      modifies this`pageCount
      ensures id == old(pageCount) && pageCount == old(pageCount) + 1
    {
      id := pageCount;
      pageCount := pageCount + 1;
    }

    /** Write a data page; it may reach the disk at any time from here on. */
    method Write(id: nat, page: Page)
      requires Valid() && next == None
      requires FIRST_DATA_PAGE <= id < pageCount && !Guarded(id)
      modifies this`pages, this`disk, this`history
      ensures Valid() && old(history) <= history
      ensures pages == old(pages)[id := page]
    {
      hide Recoverable, DiskOK, Pinned, Holds;
      WriteKeeps(disk, prev, now, id, page);
      forall t | t in pins
        ensures Agree(disk.mem, disk.mem[id := page], pins[t].view.pages)
      {
        PinPages(history, pins[t]);
      }
      pages := pages[id := page];
      disk := Written(disk, id, page);
      Advance();
    }

    /** Everything written is on stable storage; a meta page among it is published. */
    method Flush()
      requires Valid()
      modifies this`disk, this`prev, this`now, this`next, this`history
      ensures Valid() && next == None && disk.versions == map[]
      ensures old(history) <= history && |history| == |old(history)| + 1
      ensures old(next).None? ==> prev == old(prev) && now == old(now)
      ensures old(next).Some? ==> prev == Some(old(now)) && now == old(next).value
    {
      hide Recoverable, DiskOK, Pinned, Holds;
      forall t | t in pins ensures Agree(disk.mem, disk.mem, pins[t].view.pages) {
        PinPages(history, pins[t]);
      }
      if next.None? {
        FlushKeeps(disk, prev, now);
      } else {
        PublishKeeps(disk, prev, now, next.value);
        prev, now, next := Some(now), next.value, None;
      }
      disk := Flushed(disk);
      Advance();
    }

    /** Write the meta page of the next generation over the older slot. */
    method WriteMeta(meta: Meta, ghost view: View)
      requires Valid() && next == None && disk.versions == map[]
      requires Follows(now, Published(meta, view)) && Holds(pages, view) && PublishedOK(Published(meta, view))
      modifies this`pages, this`disk, this`next, this`history
      ensures Valid() && next == Some(Published(meta, view))
      ensures old(history) <= history && |history| == |old(history)| + 1
      ensures pages == old(pages)[Slot(meta.generation) := MetaPage(meta)]
    {
      hide Recoverable, DiskOK, Pinned, Holds;
      MetaKeeps(disk, prev, now, Published(meta, view));
      var slot := Slot(meta.generation);
      forall t | t in pins
        ensures Agree(disk.mem, disk.mem[slot := MetaPage(meta)], pins[t].view.pages)
      {
        PinPages(history, pins[t]);
      }
      pages := pages[slot := MetaPage(meta)];
      disk := Written(disk, slot, MetaPage(meta));
      next := Some(Published(meta, view));
      Advance();
    }

    /** Start holding a view of the tree as it is now. */
    ghost method AddPin(t: nat, view: View)
      requires Valid() && t !in pins && Holds(pages, view)
      modifies this`pins
      ensures Valid() && pins == old(pins)[t := Pin(view, |history| - 1)]
    {
      hide Recoverable, DiskOK, Holds, Pinned;
      HoldsPages(pages, view);
      PinNow(history, view);
      pins := pins[t := Pin(view, |history| - 1)];
    }

    ghost method DropPin(t: nat)
      requires Valid()
      modifies this`pins
      ensures Valid() && pins == old(pins) - {t}
    {
      hide Recoverable, DiskOK, Pinned, Holds;
      pins := pins - {t};
    }

    /** Record the moment just reached. */
    ghost method Advance()
      requires pages == disk.mem && MomentOK(Here()) && |history| > 0
      requires Chain(history) && StepOK(history[|history| - 1], Here())
      requires forall t :: t in pins ==> Pinned(history, pins[t])
      requires forall t :: t in pins ==> Agree(history[|history| - 1].disk.mem, pages, pins[t].view.pages)
      modifies this`history
      ensures Valid() && history == old(history) + [Here()]
    {
      hide MomentOK, StepOK, Pinned, Holds;
      forall t | t in pins ensures Pinned(history + [Here()], pins[t]) {
        PinnedStep(history, pins[t], Here());
      }
      history := history + [Here()];
    }
  }

  lemma HoldsPages(P: Store, view: View)
    requires Holds(P, view)
    ensures forall p :: p in view.pages ==> p in P
  {
    ReachClosed(P, view.root, view.height);
  }

  lemma PinNow(history: seq<Moment>, view: View)
    requires |history| > 0 && Holds(history[|history| - 1].disk.mem, view)
    ensures Pinned(history, Pin(view, |history| - 1))
  {
    HoldsPages(history[|history| - 1].disk.mem, view);
  }

  lemma ReopenRecoverable(img: Store, prev: Option<Published>, now: Published)
    requires Settled(img, now.meta) && Holds(img, now.view) && PublishedOK(now)
    requires prev.Some? ==> Fallback(img, prev.value, now)
    ensures MomentOK(Moment(Disk(img, img, map[]), prev, now, None))
  {
    SlotsDiffer(now.meta.generation);
  }
}
