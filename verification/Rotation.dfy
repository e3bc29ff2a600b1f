/** Rotating the front of the log away, and what a scan of the rest can still vouch for. */
module Rotation {
  import opened Audiences
  import opened Entries
  import opened Wal
  import opened Frames
  import opened ChangeLog
  import opened Changes

  /** What the log's sequence numbers promise: they start at 1 and ascend. */
  ghost predicate Sequenced(log: seq<LogRecord>) {
    && (forall i :: 0 <= i < |log| ==> log[i].sequence > 0)
    && forall i, j :: 0 <= i < j < |log| ==> log[i].sequence < log[j].sequence
  }

  /** Every scan still served misses nothing that was rotated away. */
  ghost predicate Lossless(dropped: seq<LogRecord>, log: seq<LogRecord>, scanHorizon: nat, who: Viewer) {
    forall after: nat :: after >= Horizon(log, scanHorizon) ==>
      After(Settled(dropped, who) + Settled(log, who), after) == After(Settled(log, who), after)
  }

  ghost predicate AllBelow(dropped: seq<LogRecord>, p: nat) {
    forall i :: 0 <= i < |dropped| ==> dropped[i].position <= p
  }

  /** Exactly when, for one viewer: no dropped change lies past the horizon of what is left. */
  lemma RotationExact(dropped: seq<LogRecord>, log: seq<LogRecord>, scanHorizon: nat, who: Viewer)
    ensures Lossless(dropped, log, scanHorizon, who) <==>
            forall i :: 0 <= i < |Settled(dropped, who)| ==> Settled(dropped, who)[i].at <= Horizon(log, scanHorizon)
  {
    hide Settled, After, Horizon;
    var a, b, p := Settled(dropped, who), Settled(log, who), Horizon(log, scanHorizon);
    forall after: nat ensures After(a + b, after) == After(a, after) + After(b, after) { AfterConcat(a, b, after); }
    if forall i :: 0 <= i < |a| ==> a[i].at <= p {
      forall after: nat | after >= p ensures After(a, after) == [] { AfterNone(a, after); }
    }
    if Lossless(dropped, log, scanHorizon, who) {
      assert After(a, p) == [] by { assert |After(a + b, p)| == |After(b, p)|; }
      forall i | 0 <= i < |a| ensures a[i].at <= p {
        if a[i].at > p { AfterHas(a, p, i); }
      }
    }
  }

  /** Records past a position, whatever they hold. */
  function RecordsPast(log: seq<LogRecord>, after: nat): seq<LogRecord> {
    if log == [] then [] else
      (if log[0].position > after then [log[0]] else []) + RecordsPast(log[1..], after)
  }

  /** And for records: no served scan loses one if and only if every dropped position is at most
      the horizon of the log that is left. Then no viewer loses a change either, and where no
      frame was cut this is the view of the full history. */
  lemma RotationLosesNothing(dropped: seq<LogRecord>, log: seq<LogRecord>, scanHorizon: nat)
    ensures (forall after: nat :: after >= Horizon(log, scanHorizon) ==>
                                    RecordsPast(dropped + log, after) == RecordsPast(log, after))
            <==> AllBelow(dropped, Horizon(log, scanHorizon))
    ensures AllBelow(dropped, Horizon(log, scanHorizon)) ==>
              forall who :: Lossless(dropped, log, scanHorizon, who)
    ensures Cut(dropped + log, |dropped|) ==>
              forall who :: Settled(dropped + log, who) == Settled(dropped, who) + Settled(log, who)
  {
    hide Settled, Lossless, Horizon, RecordsPast, Cut, AllBelow;
    RecordsExact(dropped, log, Horizon(log, scanHorizon));
    forall who ensures AllBelow(dropped, Horizon(log, scanHorizon)) ==> Lossless(dropped, log, scanHorizon, who) {
      BelowIsLossless(dropped, log, scanHorizon, who);
    }
    if Cut(dropped + log, |dropped|) {
      forall who ensures Settled(dropped + log, who) == Settled(dropped, who) + Settled(log, who) {
        SettledSplit(dropped, log, who);
      }
    }
  }

  lemma BelowIsLossless(dropped: seq<LogRecord>, log: seq<LogRecord>, scanHorizon: nat, who: Viewer)
    ensures AllBelow(dropped, Horizon(log, scanHorizon)) ==> Lossless(dropped, log, scanHorizon, who)
  {
    hide Settled, Lossless, Horizon;
    if AllBelow(dropped, Horizon(log, scanHorizon)) {
      SettledBelow(dropped, who, Horizon(log, scanHorizon));
      RotationExact(dropped, log, scanHorizon, who);
    }
  }

  lemma RecordsExact(dropped: seq<LogRecord>, log: seq<LogRecord>, p: nat)
    ensures (forall after: nat :: after >= p ==> RecordsPast(dropped + log, after) == RecordsPast(log, after))
            <==> AllBelow(dropped, p)
  {
    hide RecordsPast;
    if AllBelow(dropped, p) {
      forall after: nat | after >= p ensures RecordsPast(dropped + log, after) == RecordsPast(log, after) {
        RecordsConcat(dropped, log, after);
        RecordsNone(dropped, after);
      }
    } else {
      RecordsConcat(dropped, log, p);
      RecordsNone(dropped, p);
      assert |RecordsPast(dropped + log, p)| > |RecordsPast(log, p)|;
    }
  }

  lemma {:induction false} RecordsConcat(a: seq<LogRecord>, b: seq<LogRecord>, after: nat)
    ensures RecordsPast(a + b, after) == RecordsPast(a, after) + RecordsPast(b, after)
  {
    if a == [] {
      assert a + b == b;
    } else {
      assert (a + b)[1..] == a[1..] + b;
      RecordsConcat(a[1..], b, after);
    }
  }

  lemma {:induction false} RecordsNone(log: seq<LogRecord>, after: nat)
    ensures RecordsPast(log, after) == [] <==> AllBelow(log, after)
  {
    if log != [] {
      RecordsNone(log[1..], after);
      if AllBelow(log[1..], after) && log[0].position <= after {
        forall i | 0 <= i < |log| ensures log[i].position <= after {
          if i > 0 { assert log[1..][i - 1] == log[i]; }
        }
      }
      if AllBelow(log, after) { assert forall i :: 0 <= i < |log| - 1 ==> log[1..][i] == log[i + 1]; }
    }
  }

  // ---- the log over its rotations ----

  /** The records rotated away so far, those left in the file, and the horizon noted for an empty
      file. */
  datatype Kept = Kept(gone: seq<LogRecord>, log: seq<LogRecord>, scanHorizon: nat) {
    function Full(): seq<LogRecord> { gone + log }
  }

  /** Whole frames were rotated away, and none of their records lies past the horizon. */
  ghost predicate Intact(k: Kept) {
    && WellKept(k.Full()) && Cut(k.Full(), |k.gone|)
    && AllBelow(k.gone, Horizon(k.log, k.scanHorizon))
  }

  ghost predicate Tidy(k: Kept) { Intact(k) && Sequenced(k.Full()) }

  /** The noted horizon after dropping some records. */
  function Noted(dropped: seq<LogRecord>, scanHorizon: nat): (p: nat)
    ensures p >= scanHorizon && AllBelow(dropped, p)
  {
    if dropped == [] then scanHorizon else
      var p, last := Noted(dropped[..|dropped| - 1], scanHorizon), dropped[|dropped| - 1];
      assert forall i :: 0 <= i < |dropped| - 1 ==> dropped[i] == dropped[..|dropped| - 1][i];
      if p < last.position then last.position else p
  }

  function RotateAt(k: Kept, n: nat): Kept
    requires n <= |k.log|
  {
    Kept(k.gone + k.log[..n], k.log[n..], Noted(k.log[..n], k.scanHorizon))
  }

  /** A rotation keeps the full history, moves the horizon far enough, and never back. */
  lemma RotateKeeps(k: Kept, n: nat)
    requires Tidy(k) && n <= |k.log| && Cut(k.Full(), |k.gone| + n)
    ensures Tidy(RotateAt(k, n)) && RotateAt(k, n).Full() == k.Full()
    ensures Horizon(RotateAt(k, n).log, RotateAt(k, n).scanHorizon) >= Horizon(k.log, k.scanHorizon)
  {
    hide Cut, Sound, Contiguous, Noted;
    var t := RotateAt(k, n);
    assert t.Full() == k.Full();
    if t.log == [] && k.log != [] { DroppedBelow(k); }
    RotationMeets(t.gone, t.log, [], t.scanHorizon);
    assert t.log + [] == t.log;
    HorizonRises(k, n);
  }

  lemma DroppedBelow(k: Kept)
    requires PositionsAscend(k.Full()) && k.log != []
    ensures AllBelow(k.gone + k.log, Noted(k.log, k.scanHorizon))
  {
    var full, p := k.Full(), Noted(k.log, k.scanHorizon);
    assert full[|k.gone|] == k.log[0];
    forall i | 0 <= i < |full| ensures full[i].position <= p {
      if i >= |k.gone| { assert full[i] == k.log[i - |k.gone|]; }
    }
  }

  lemma HorizonRises(k: Kept, n: nat)
    requires PositionsAscend(k.Full()) && Sequenced(k.Full()) && n <= |k.log|
    ensures Horizon(RotateAt(k, n).log, RotateAt(k, n).scanHorizon) >= Horizon(k.log, k.scanHorizon)
  {
    var t, full := RotateAt(k, n), k.Full();
    if n == 0 {
      assert k.log[0..] == k.log && k.log[..0] == [];
    } else {
      assert full[|k.gone|] == k.log[0];
      assert k.log[..n][0] == k.log[0];
      if n < |k.log| { assert full[|k.gone| + n] == k.log[n] == t.log[0]; }
    }
  }

  /** Appending keeps it: the checkpoint has passed no open frame, and numbers are fresh. */
  lemma AppendKeeps(k: Kept, r: LogRecord)
    requires Tidy(k) && WellKept(k.Full() + [r])
    requires r.sequence > 0 && forall i :: 0 <= i < |k.Full()| ==> k.Full()[i].sequence < r.sequence
    requires r.tx != 0 ==> forall i :: 0 <= i < |k.gone| ==> k.gone[i].tx != r.tx
    ensures Tidy(k.(log := k.log + [r])) && k.(log := k.log + [r]).Full() == k.Full() + [r]
  {
    hide Sound, Contiguous;
    var t, full := k.(log := k.log + [r]), k.Full();
    assert t.Full() == full + [r];
    forall i, j | 0 <= i < |k.gone| <= j < |t.Full()| && t.Full()[i].tx == t.Full()[j].tx ensures t.Full()[i].tx == 0 {
      assert t.Full()[i] == k.gone[i] == full[i];
      if j < |full| { assert t.Full()[j] == full[j]; }
    }
    assert AllBelow(k.gone, Horizon(t.log, t.scanHorizon)) by {
      assert t.Full()[|k.gone|] == t.log[0];
      forall i | 0 <= i < |k.gone| ensures k.gone[i].position <= Horizon(t.log, t.scanHorizon) {
        assert t.Full()[i] == k.gone[i];
      }
    }
  }

  /** A served scan of what is left shows what a scan of the full history would. */
  lemma ServedWhole(k: Kept, after: nat, who: Viewer)
    requires Intact(k) && after >= Horizon(k.log, k.scanHorizon)
    ensures After(Settled(k.log, who), after) == After(Settled(k.Full(), who), after)
  {
    hide Settled, After, Horizon, WellKept, Cut;
    SettledSplit(k.gone, k.log, who);
    BelowIsLossless(k.gone, k.log, k.scanHorizon, who);
  }

  /** The file that is left can always be explained. */
  lemma FileKept(k: Kept)
    requires WellKept(k.Full()) && Cut(k.Full(), |k.gone|)
    ensures WellKept(k.log)
  {
    hide Sound;
    var full, n := k.Full(), |k.gone|;
    assert k.log == full[n..];
    assert AsWalAll(k.log) == AsWalAll(full)[n..];
    SoundPast(AsWalAll(full), n);
    assert forall i :: 0 <= i < |k.log| ==> k.log[i] == full[n + i];
  }

  /** Within one process, whatever the checkpoint: the file that is left starts past everything
      dropped, or is empty and the horizon was moved there first. It keeps doing so while records
      are appended, and over a restart as long as one record was left. */
  lemma RotationMeets(dropped: seq<LogRecord>, log: seq<LogRecord>, more: seq<LogRecord>, scanHorizon: nat)
    requires PositionsAscend(dropped + log) && Sequenced(dropped + log)
    requires log == [] ==> more == [] && AllBelow(dropped, scanHorizon)
    ensures AllBelow(dropped, Horizon(log + more, scanHorizon))
  {
    var full := dropped + log;
    if log == [] {
      assert log + more == [];
    } else {
      assert full[|dropped|] == log[0] == (log + more)[0];
      forall i | 0 <= i < |dropped| ensures dropped[i].position <= Horizon(log + more, scanHorizon) {
        assert full[i] == dropped[i];
      }
    }
  }

  lemma {:induction false} SettledSplit(a: seq<LogRecord>, b: seq<LogRecord>, who: Viewer)
    requires Cut(a + b, |a|)
    ensures Settled(a + b, who) == Settled(a, who) + Settled(b, who)
    decreases |a|
  {
    hide UnitChanges, CommittedUnit, UnitLength, Cut;
    if a == [] {
      assert a + b == b;
      assert [] + Settled(b, who) == Settled(b, who);
    } else {
      var n, all := UnitLength(a), a + b;
      UnitWithin(a, b);
      assert all[..n] == a[..n] && all[n..] == a[n..] + b;
      SettledSplit(a[n..], b, who);
      if CommittedUnit(a[..n]) { Regroup(UnitChanges(a[..n], who), Settled(a[n..], who), Settled(b, who)); }
    }
  }

  lemma UnitWithin(a: seq<LogRecord>, b: seq<LogRecord>)
    requires a != [] && Cut(a + b, |a|)
    ensures UnitLength(a + b) == UnitLength(a) && Cut(a[UnitLength(a)..] + b, |a| - UnitLength(a))
  {
    var n, all, tx := UnitLength(a), a + b, a[0].tx;
    if tx != 0 {
      if n == |a| && b != [] { assert all[0] == a[0] && all[|a|] == b[0]; }
      RunIs(all, tx, n);
    }
    var rest := a[n..] + b;
    assert rest == all[n..];
    forall j, k | 0 <= j < |a| - n <= k < |rest| && rest[j].tx == rest[k].tx ensures rest[j].tx == 0 {
      assert rest[j] == all[n + j] && rest[k] == all[n + k];
    }
  }
}
