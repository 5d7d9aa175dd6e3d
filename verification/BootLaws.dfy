/** What detection finds out: the lists of hooks, the status word they lead to, and the checksum. */
module BootLaws {
  import opened TokenCodec
  import opened CmosStore
  import opened StoreLaws
  import opened LoadingLaws
  import opened Boot

  /** Any bits: the status word, but for the note about the last write. */
  lemma SetBitsStatus(s: State, bits: Status)
    requires s.Valid()
    ensures forall f :: f != AddressIsChecksummed ==> (f in s.SetBits(bits).status <==> f in s.status || f in bits)
  {
    var s1 := s.(status := s.status + bits);
    ReportIsQuiet(s1, bits);
    var s2 := if IsUsable in s1.status then s1.Report(bits) else s1;
    LegacyIsQuiet(s2, bits, true);
    SyncedIsQuiet(s2.Legacy(bits, true));
    forall f | f != AddressIsChecksummed
      ensures f in s2.status <==> f in s1.status
    {
      assert f in s2.status <==> f in s2.status - {AddressIsChecksummed};
    }
  }

  lemma ClearBitsStatus(s: State, bits: Status)
    requires s.Valid()
    ensures forall f :: f in s.ClearBits(bits).status <==> f in s.status && f !in bits
  {
    var s1 := s.(status := s.status - bits);
    LegacyIsQuiet(s1, bits, false);
    SyncedIsQuiet(s1.Legacy(bits, false));
  }

  /** One flag set or cleared, the others kept. */
  ghost predicate OneFlag(s: State, r: State, flag: Flag, present: bool)
  {
    forall f {:trigger f in r.status} :: f != AddressIsChecksummed ==>
      (f in r.status <==> if f == flag then present else f in s.status)
  }

  lemma SetIfFacts(s: State, condition: bool, flag: Flag)
    requires s.Valid()
    ensures CellsKept(s, SetIf(s, condition, flag))
    ensures OneFlag(s, SetIf(s, condition, flag), flag, condition || flag in s.status)
  {
    hide State.SetBits;
    SetBitsStatus(s, {flag});
    SetBitsKeepsCells(s, {flag});
  }

  lemma SetOrClearFacts(s: State, condition: bool, flag: Flag)
    requires s.Valid()
    ensures CellsKept(s, SetOrClear(s, condition, flag))
    ensures OneFlag(s, SetOrClear(s, condition, flag), flag, condition)
  {
    hide State.SetBits, State.ClearBits;
    SetBitsStatus(s, {flag});
    SetBitsKeepsCells(s, {flag});
    ClearBitsStatus(s, {flag});
    ClearBitsKeepsCells(s, {flag});
  }

  // -------------------------------------------------------------------- lists of hooks

  lemma NotAsked(s: State, flag: Flag)
    requires s.Valid()
    ensures SetIf(s, false, flag) == s
  {
  }

  /** A list's later answers add nothing to a yes. */
  lemma SetIfTwice(s: State, once: bool, again: bool, flag: Flag)
    requires s.Valid() && flag in {FirstBootDetected, ColdBootDetected, BspIsExecuting}
    ensures SetIf(SetIf(s, once, flag), again, flag) == SetIf(s, once || again, flag)
  {
    hide State.SetBits;
    if once && again {
      if flag == FirstBootDetected {
        FirstBootTwice(s);
      } else {
        SilentTwice(s, flag);
      }
    }
  }

  lemma SilentTwice(s: State, flag: Flag)
    requires s.Valid() && {flag} !! REPORTED && {flag} !! LEGACY
    ensures s.SetBits({flag}).SetBits({flag}) == s.SetBits({flag})
  {
    hide State.SetBits;
    SetSilently(s, {flag});
    SetSilently(s.SetBits({flag}), {flag});
    assert s.status + {flag} + {flag} == s.status + {flag};
  }

  /** Marking a status token twice is marking it once. */
  lemma MarkTwice(s: State, t: Token)
    requires s.Valid() && s.cfg.StatusToken(t)
    ensures s.Mark(t).Mark(t) == s.Mark(t)
  {
    hide Encode, ClobberBits, Merge, State.NotedIfOn, State.Put, State.View, State.Route, Layout.Valid;
    KnownIsManaged(s.cfg, t);
    var a := Address(t);
    var n, place, b := s.NotedIfOn(a), s.Route(a), Merge(s.View(a), ClobberBits(t), Encode(1, t));
    MergeTwice(s.View(a), ClobberBits(t), Encode(1, t));
    NotedTwice(s, a);
    SameRouteNoted(n, place, a, b, a);
    NotedRoute(s, a);
    NotedCommutes(n, place, a, b, a);
    ViewAfterPut(n, place, a, b, a);
    PutTwice(n, place, a, b);
  }

  lemma NotedRoute(s: State, a: nat)
    requires s.Valid()
    ensures s.NotedIfOn(a).Route(a) == s.Route(a)
    ensures s.cfg.InRegion(a) && a < REGISTER_SPACE ==> s.NotedIfOn(a).Has(s.Route(a), a)
  {
    hide Layout.Valid;
  }

  lemma PutTwice(s: State, place: Place, a: nat, b: bv8)
    requires s.Valid() && s.Has(place, a)
    ensures s.Put(place, a, b).Put(place, a, b) == s.Put(place, a, b)
  {
    hide Layout.Valid;
  }

  lemma NotedCommutes(s: State, place: Place, a: nat, b: bv8, c: nat)
    requires s.Valid() && s.Has(place, a)
    ensures s.Put(place, a, b).NotedIfOn(c) == s.NotedIfOn(c).Put(place, a, b)
  {
    hide Layout.Valid;
  }

  lemma SameRouteNoted(s: State, place: Place, a: nat, b: bv8, c: nat)
    requires s.Valid() && s.Has(place, a)
    ensures s.Put(place, a, b).Route(c) == s.Route(c) && s.NotedIfOn(c).Has(place, a)
    ensures s.cfg.InRegion(c) && c < REGISTER_SPACE ==> s.NotedIfOn(c).Has(s.Route(c), c)
  {
    hide Layout.Valid;
  }

  lemma NotedTwice(s: State, a: nat)
    requires s.Valid()
    ensures s.NotedIfOn(a).NotedIfOn(a) == s.NotedIfOn(a)
  {
    var with, without := s.status + {AddressIsChecksummed}, s.status - {AddressIsChecksummed};
    assert with + {AddressIsChecksummed} == with && without - {AddressIsChecksummed} == without;
  }

  lemma MergeTwice(r: bv8, mask: bv8, v: bv8)
    ensures Merge(Merge(r, mask, v), mask, v) == Merge(r, mask, v)
  {
  }

  lemma FirstBootTwice(s: State)
    requires s.Valid()
    ensures s.SetBits({FirstBootDetected}).SetBits({FirstBootDetected}) == s.SetBits({FirstBootDetected})
  {
    hide State.SetBits, State.Mark;
    FirstBootSet(s);
    var r := s.SetBits({FirstBootDetected});
    FirstBootSet(r);
    var s1 := s.(status := s.status + {FirstBootDetected});
    if IsUsable in s.status {
      MarkStatus(s1, s.cfg.firstBoot);
      assert r.status + {FirstBootDetected} == r.status;
      MarkSynced(s1.Mark(s.cfg.firstBoot), s.cfg.firstBoot);
      MarkTwice(s1, s.cfg.firstBoot);
    } else {
      assert r.status + {FirstBootDetected} == r.status;
    }
  }

  lemma FirstBootSet(s: State)
    requires s.Valid()
    ensures var s1 := s.(status := s.status + {FirstBootDetected});
      s.SetBits({FirstBootDetected}) == (if IsUsable in s.status then s1.Mark(s.cfg.firstBoot) else s1).Synced()
  {
    hide State.Mark, State.Legacy;
    var s1 := s.(status := s.status + {FirstBootDetected});
    LegacyIdle(if IsUsable in s.status then s1.Mark(s.cfg.firstBoot) else s1, {FirstBootDetected}, true);
  }

  lemma MarkStatus(s: State, t: Token)
    requires s.Valid() && s.cfg.StatusToken(t)
    ensures forall f :: f != AddressIsChecksummed ==> (f in s.Mark(t).status <==> f in s.status)
  {
    hide Merge, Encode, ClobberBits;
  }

  /** The block shows the status in the end, whether or not it did in between. */
  lemma MarkSynced(s: State, t: Token)
    requires s.Valid() && s.cfg.StatusToken(t)
    ensures s.Synced().Mark(t).Synced() == s.Mark(t).Synced()
  {
    hide Merge, Encode, ClobberBits, State.NotedIfOn, State.Put, State.Synced;
    var a := Address(t);
    SyncedIsQuiet(s);
    SyncedViews(s, a);
    NotedSynced(s, a);
    var b := Merge(s.View(a), ClobberBits(t), Encode(1, t));
    PutSynced(s.NotedIfOn(a), s.Route(a), a, b);
    PutSynced(s.Synced().NotedIfOn(a), s.Route(a), a, b);
  }

  lemma SyncedViews(s: State, a: nat)
    requires s.Valid() && s.cfg.InRegion(a)
    ensures s.Synced().View(a) == s.View(a) && s.Synced().Route(a) == s.Route(a)
  {
  }

  lemma NotedSynced(s: State, a: nat)
    requires s.Valid()
    ensures s.Synced().NotedIfOn(a).Synced() == s.NotedIfOn(a).Synced()
  {
  }

  lemma PutSynced(s: State, place: Place, a: nat, b: bv8)
    requires s.Valid() && s.Has(place, a)
    ensures s.Put(place, a, b).Synced() == s.Synced().Put(place, a, b)
  {
  }

  /** The usability flag, set to what it is, changes nothing. */
  lemma UsableAsItIs(s: State)
    requires s.Valid() && s.hob.NoHob?
    ensures SetOrClear(s, IsUsable in s.status, IsUsable) == s
  {
    hide State.SetBits, State.ClearBits;
    SetSilently(s, {IsUsable});
    ClearSilently(s, {IsUsable});
    if IsUsable in s.status {
      assert s.status + {IsUsable} == s.status;
    } else {
      assert s.status - {IsUsable} == s.status;
    }
  }

  /** Of two answers on usability the second stands. */
  lemma UsableTwice(s: State, once: bool, again: bool)
    requires s.Valid()
    ensures SetOrClear(SetOrClear(s, once, IsUsable), again, IsUsable) == SetOrClear(s, again, IsUsable)
  {
    hide State.SetBits, State.ClearBits;
    SetSilently(s, {IsUsable});
    ClearSilently(s, {IsUsable});
    var s1 := SetOrClear(s, once, IsUsable);
    SetSilently(s1, {IsUsable});
    ClearSilently(s1, {IsUsable});
    assert s.status + {IsUsable} + {IsUsable} == s.status + {IsUsable};
    assert s.status - {IsUsable} + {IsUsable} == s.status + {IsUsable};
    assert s.status + {IsUsable} - {IsUsable} == s.status - {IsUsable};
    assert s.status - {IsUsable} - {IsUsable} == s.status - {IsUsable};
  }

  /** The status word after the hooks were consulted. */
  ghost predicate PolledFlag(s: State, h: Hooks, f: Flag)
  {
    || (if f == IsUsable then h.usable else f in s.status)
    || (h.firstBoot && f == FirstBootDetected)
    || (h.coldBoot && f == ColdBootDetected)
    || (h.bsp && f == BspIsExecuting)
    || (h.recoverOnlyChecksummed && f == RecoverOnlyChecksummed)
    || (h.recoverInPei && f == RecoverInPei)
  }

  lemma PolledCells(s: State, h: Hooks)
    requires s.Valid()
    ensures CellsKept(s, Polled(s, h))
  {
    hide SetIf, SetOrClear, CellsKept, OneFlag;
    var s1 := SetOrClear(s, h.usable, IsUsable);
    var s2 := SetIf(s1, h.firstBoot, FirstBootDetected);
    var s3 := SetIf(s2, h.coldBoot, ColdBootDetected);
    var s4 := SetIf(s3, h.bsp, BspIsExecuting);
    var s5 := SetIf(s4, h.recoverOnlyChecksummed, RecoverOnlyChecksummed);
    SetOrClearFacts(s, h.usable, IsUsable);
    SetIfFacts(s1, h.firstBoot, FirstBootDetected);
    SetIfFacts(s2, h.coldBoot, ColdBootDetected);
    SetIfFacts(s3, h.bsp, BspIsExecuting);
    SetIfFacts(s4, h.recoverOnlyChecksummed, RecoverOnlyChecksummed);
    SetIfFacts(s5, h.recoverInPei, RecoverInPei);
    CellsKeptTransitive(s, s1, s2);
    CellsKeptTransitive(s, s2, s3);
    CellsKeptTransitive(s, s3, s4);
    CellsKeptTransitive(s, s4, s5);
    CellsKeptTransitive(s, s5, Polled(s, h));
  }

  lemma SetIfFlag(s: State, condition: bool, flag: Flag, f: Flag)
    requires s.Valid() && f != AddressIsChecksummed
    ensures f in SetIf(s, condition, flag).status <==> f in s.status || (condition && f == flag)
  {
    SetIfFacts(s, condition, flag);
  }

  lemma PolledStatusOf(s: State, h: Hooks, f: Flag)
    requires s.Valid() && f != AddressIsChecksummed
    ensures f in Polled(s, h).status <==> PolledFlag(s, h, f)
  {
    hide SetIf, SetOrClear, CellsKept, OneFlag, State.Valid, Layout.Valid;
    var s1 := SetOrClear(s, h.usable, IsUsable);
    var s3 := SetIf(SetIf(s1, h.firstBoot, FirstBootDetected), h.coldBoot, ColdBootDetected);
    UsableFlag(s, h.usable, f);
    TwoFlags(s1, h.firstBoot, FirstBootDetected, h.coldBoot, ColdBootDetected, f);
    var s5 := SetIf(SetIf(s3, h.bsp, BspIsExecuting), h.recoverOnlyChecksummed, RecoverOnlyChecksummed);
    TwoFlags(s3, h.bsp, BspIsExecuting, h.recoverOnlyChecksummed, RecoverOnlyChecksummed, f);
    SetIfFlag(s5, h.recoverInPei, RecoverInPei, f);
  }

  lemma UsableFlag(s: State, usable: bool, f: Flag)
    requires s.Valid() && f != AddressIsChecksummed
    ensures f in SetOrClear(s, usable, IsUsable).status <==> if f == IsUsable then usable else f in s.status
  {
    hide SetOrClear, CellsKept, Layout.Valid;
    SetOrClearFacts(s, usable, IsUsable);
  }

  lemma TwoFlags(s: State, first: bool, flag: Flag, second: bool, flag': Flag, f: Flag)
    requires s.Valid() && f != AddressIsChecksummed
    ensures f in SetIf(SetIf(s, first, flag), second, flag').status <==>
            f in s.status || (first && f == flag) || (second && f == flag')
  {
    hide SetIf, Layout.Valid;
    SetIfFlag(s, first, flag, f);
    SetIfFlag(SetIf(s, first, flag), second, flag', f);
  }

  lemma PolledStatus(s: State, h: Hooks)
    requires s.Valid()
    ensures forall f :: f != AddressIsChecksummed ==> (f in Polled(s, h).status <==> PolledFlag(s, h, f))
  {
    forall f | f != AddressIsChecksummed
      ensures f in Polled(s, h).status <==> PolledFlag(s, h, f)
    {
      PolledStatusOf(s, h, f);
    }
  }

  /**
   After detection the checksum flag tells whether the stored checksum is right,
   the battery flag what the hook said, and the cells are as found.
   */
  lemma DetectedFacts(s: State, h: Hooks)
    requires s.Valid()
    ensures var d := Detected(s, h);
      && CellsKept(s, d)
      && (BadChecksum in d.status <==> !d.Coherent())
      && (BadBattery in d.status <==> !h.batteryGood)
      && forall f :: f !in {AddressIsChecksummed, BadChecksum, BadBattery} ==>
           (f in d.status <==> PolledFlag(s, h, f))
  {
    hide Polled, State.Checked, SetOrClear, CellsKept, State.Coherent;
    var p := Polled(s, h);
    var c := p.Checked();
    PolledCells(s, h);
    PolledStatus(s, h);
    CheckedFacts(p);
    CheckedKeepsCells(p);
    SetOrClearFacts(c, !h.batteryGood, BadBattery);
    BatteryIsQuiet(c, h);
    QuietKeepsCoherence(p, c);
    QuietKeepsCoherence(c, Detected(s, h));
    CellsKeptTransitive(s, p, c);
    CellsKeptTransitive(s, c, Detected(s, h));
    forall f | f !in {AddressIsChecksummed, BadChecksum}
      ensures f in c.status <==> f in p.status
    {
      assert f in c.status <==> f in c.status - {AddressIsChecksummed, BadChecksum};
    }
  }

  lemma BatteryIsQuiet(s: State, h: Hooks)
    requires s.Valid()
    ensures Quiet(s, SetOrClear(s, !h.batteryGood, BadBattery))
  {
    hide State.SetBits, State.ClearBits;
    SetBitsIsQuiet(s, {BadBattery});
    ClearBitsIsQuiet(s, {BadBattery});
  }

  predicate AnyYes(answers: seq<bool>)
  {
    exists i :: 0 <= i < |answers| && answers[i]
  }

  /**
   What the lists of hooks lead to in the status word: the last word on usability,
   which no hook leaves as it was; any yes on the boot's kind and the processor;
   a good battery only by the last word of some hook; the policy as given.
   */
  lemma AnswersDecide(s: State, a: Answers)
    requires s.Valid()
    ensures var d, n, m := Detected(s, a.Combined(s.status)), |a.usable|, |a.batteryGood|;
      && (IsUsable in d.status <==> if n == 0 then IsUsable in s.status else a.usable[n - 1])
      && (BadBattery in d.status <==> m == 0 || !a.batteryGood[m - 1])
      && (FirstBootDetected in d.status <==> FirstBootDetected in s.status || AnyYes(a.firstBoot))
      && (ColdBootDetected in d.status <==> ColdBootDetected in s.status || AnyYes(a.coldBoot))
      && (BspIsExecuting in d.status <==> BspIsExecuting in s.status || AnyYes(a.bsp))
      && (RecoverOnlyChecksummed in d.status <==> RecoverOnlyChecksummed in s.status || a.recoverOnlyChecksummed)
      && (RecoverInPei in d.status <==> RecoverInPei in s.status || a.recoverInPei)
  {
    hide Detected, CellsKept, State.Coherent, State.Valid, Layout.Valid;
    DetectedFacts(s, a.Combined(s.status));
  }

  /** The flags that no hook and no policy speaks of stay. */
  lemma DetectionKeeps(s: State, h: Hooks)
    requires s.Valid()
    ensures forall f :: f in {ValidManager, InterfaceAlreadyInstalled, InstallFailed, ValidInterface, ExecutingInMemory,
                              ErrorLoadingDefaults, ForceNoChecksum, OptimalDefaultsEnabled, DefaultsLoaded} ==>
              (f in Detected(s, h).status <==> f in s.status)
  {
    hide Detected, CellsKept, State.Coherent, State.Valid, Layout.Valid;
    DetectedFacts(s, h);
  }

  /** What detection sums is the sum of what it leaves. */
  lemma DetectedSum(p: State, h: Hooks)
    requires p.Valid()
    ensures SetOrClear(p.Checked(), !h.batteryGood, BadBattery).FullSum() == p.FullSum()
  {
    hide State.Checked, SetOrClear, State.FullSum, State.Coherent, Layout.Valid;
    CheckedFacts(p);
    QuietKeepsCoherence(p, p.Checked());
    BatteryIsQuiet(p.Checked(), h);
    QuietKeepsCoherence(p.Checked(), SetOrClear(p.Checked(), !h.batteryGood, BadBattery));
  }
}
