/** The first boot phase, from any register contents. */
module PeiLaws {
  import opened Bytes
  import opened TokenCodec
  import opened CmosStore
  import opened StoreLaws
  import opened OptimalDefaults
  import opened LoadingLaws
  import opened ApiPointer
  import opened Boot
  import opened BootLaws
  import opened BufferIdle

  /** The register's two cells, in hardware and in the buffer, are kept. */
  ghost predicate Kept(s: State, r: State, a: nat)
    requires s.Valid() && r.Valid() && s.cfg.InRegion(a) && r.cfg == s.cfg
  {
    r.phys[a] == s.phys[a] && r.buf[a - s.cfg.first + 1] == s.buf[a - s.cfg.first + 1]
  }

  lemma CellsKeptAt(s: State, r: State, a: nat)
    requires s.Valid() && r.Valid() && s.cfg.Summed(a) && CellsKept(s, r)
    ensures Kept(s, r, a)
  {
    assert Untouched(s, a);
  }

  lemma PutChecksumKeeps(s: State, sum: nat, a: nat)
    requires s.Valid() && sum < WORD && s.cfg.Summed(a)
    ensures Kept(s, s.PutChecksum(sum), a)
  {
    hide Layout.Valid, Address, Low, High, State.Put, State.Route;
    ChecksumRegisters(s.cfg);
    ChecksumIsNotSummed(s.cfg, a);
    var lo, hi := Address(s.cfg.checksumLow), Address(s.cfg.checksumHigh);
    var s1 := s.(hob := if s.hob.NoHob? then NoHob else s.hob.(checksum := sum));
    PutElsewhereKeeps(s1, lo, Low(sum), a);
    PutElsewhereKeeps(s1.PutRouted(lo, Low(sum)), hi, High(sum), a);
  }

  lemma ChecksumIsNotSummed(l: Layout, a: nat)
    requires l.Valid() && l.Summed(a)
    ensures a != Address(l.checksumLow) && a != Address(l.checksumHigh) && a < REGISTER_SPACE
  {
  }

  lemma PutElsewhereKeeps(s: State, c: nat, b: bv8, a: nat)
    requires s.Valid() && s.cfg.InRegion(c) && s.cfg.InRegion(a) && a != c && a < REGISTER_SPACE
    ensures Kept(s, s.PutRouted(c, b), a)
  {
  }

  // ------------------------------------------------------------------ going buffered

  lemma BufferedOnFacts(s: State)
    requires s.Valid() && OptimalDefaultsEnabled !in s.status
    ensures var r := BufferedOn(s);
      && r.Coherent() && OptimalDefaultsEnabled in r.status && ForceNoChecksum !in r.status && SameAnswers(s, r)
      && forall a: nat {:trigger r.View(a)} :: s.cfg.Summed(a) ==> r.View(a) == s.buf[a - s.cfg.first + 1]
  {
    hide State.SetBits, State.Checked, State.PutChecksum, SameAnswers, CellsKept, State.View, Layout.Valid;
    var o := s.SetBits({OptimalDefaultsEnabled});
    SetBitsStatus(s, {OptimalDefaultsEnabled});
    SetBitsKeepsCells(s, {OptimalDefaultsEnabled});
    ResummedFacts(o);
    var c := o.Checked();
    CheckedKeepsCells(o);
    PutChecksumStores(c, o.FullSum());
    CheckedFacts(o);
    CheckedAnswers(s, o, c, BufferedOn(s));
    forall a: nat | s.cfg.Summed(a)
      ensures BufferedOn(s).View(a) == s.buf[a - s.cfg.first + 1]
    {
      BufferedCell(s, o, c, a);
    }
  }

  lemma BufferedCell(s: State, o: State, c: State, a: nat)
    requires s.Valid() && o.Valid() && c.Valid() && s.cfg.Summed(a) && CellsKept(s, o) && CellsKept(o, c)
    requires OptimalDefaultsEnabled in c.PutChecksum(o.FullSum()).status
    ensures c.PutChecksum(o.FullSum()).View(a) == s.buf[a - s.cfg.first + 1]
  {
    hide State.PutChecksum, State.FullSum, State.View, CellsKept, Layout.Valid;
    SameLayout(s, o, c);
    ChecksumIsNotSummed(s.cfg, a);
    CellsKeptAt(s, o, a);
    CellsKeptAt(o, c, a);
    PutChecksumKeeps(c, o.FullSum(), a);
    ShownInBuffer(c.PutChecksum(o.FullSum()), a);
  }

  lemma SameLayout(s: State, o: State, c: State)
    requires s.Valid() && o.Valid() && c.Valid() && CellsKept(s, o) && CellsKept(o, c)
    ensures o.cfg == s.cfg && c.cfg == s.cfg
  {
  }

  lemma ShownInBuffer(s: State, a: nat)
    requires s.Valid() && s.cfg.Summed(a) && OptimalDefaultsEnabled in s.status
    ensures s.View(a) == s.buf[a - s.cfg.first + 1]
  {
  }

  lemma CheckedAnswers(s: State, o: State, c: State, r: State)
    requires forall f :: f != AddressIsChecksummed && f != OptimalDefaultsEnabled ==> (f in o.status <==> f in s.status)
    requires c.status - {AddressIsChecksummed, BadChecksum} == o.status - {AddressIsChecksummed, BadChecksum}
    requires r.status == c.status - {ForceNoChecksum}
    ensures SameAnswers(s, r)
  {
    forall f | f !in WORKING
      ensures f in r.status <==> f in s.status
    {
      assert f in c.status <==> f in c.status - {AddressIsChecksummed, BadChecksum};
    }
  }

  // --------------------------------------------------------------------- the stages

  /** What every stage keeps true of the PEI manager while accesses go to the hardware. */
  ghost predicate OnTrack(s: State)
  {
    && s.Valid() && !s.dxe
    && OptimalDefaultsEnabled !in s.status && ForceNoChecksum !in s.status && ErrorLoadingDefaults !in s.status
    && (BadChecksum in s.status <==> !s.Coherent())
  }

  /** The flags that the checksum and loading code works with. */
  const WORKING: Status :=
    {AddressIsChecksummed, OptimalDefaultsEnabled, ForceNoChecksum, BadChecksum, DefaultsLoaded}

  /** The hooks' answers, and all that is known of the interface. */
  ghost predicate SameAnswers(s: State, r: State)
  {
    forall f {:trigger f in r.status} :: f !in WORKING ==> (f in r.status <==> f in s.status)
  }

  /** The default of a register, or what it held if the table has none for it. */
  ghost function DefaultOf(s: State, count: nat, a: nat): bv8
    requires s.Valid() && count <= |s.buf| && s.cfg.InRegion(a)
  {
    if 1 + Rank(s.cfg, a) < count then s.buf[1 + Rank(s.cfg, a)] else s.phys[a]
  }

  ghost predicate Reloaded(s: State, r: State, count: nat)
    requires s.Valid() && r.Valid() && r.cfg == s.cfg && count <= |s.buf|
  {
    forall a: nat {:trigger r.phys[a]} :: s.cfg.Summed(a) ==> r.phys[a] == DefaultOf(s, count, a)
  }

  ghost predicate Unchanged(s: State, r: State)
    requires s.Valid() && r.Valid() && r.cfg == s.cfg
  {
    forall a: nat {:trigger r.phys[a]} :: s.cfg.Summed(a) ==> r.phys[a] == s.phys[a]
  }

  lemma DetectedCells(s: State, h: Hooks)
    requires IsNew(s)
    ensures var d := Detected(s, h);
      && d.buf == s.buf && OptimalDefaultsEnabled !in d.status && Unchanged(s, d)
      && (d.Coherent() <==> s.Coherent())
  {
    hide Detected, CellsKept;
    DetectedFacts(s, h);
    DetectedIsIdle(s, h);
    var d := Detected(s, h);
    forall a: nat | s.cfg.Summed(a)
      ensures d.phys[a] == s.phys[a]
    {
      CellsKeptAt(s, d, a);
    }
    HardwareCoherence(s, d);
    assert OnHardware(d) == d by {
      assert d.status - {OptimalDefaultsEnabled} == d.status;
    }
  }

  lemma DetectedStage(s: State, h: Hooks)
    requires IsNew(s)
    ensures var d := Detected(s, h);
      && OnTrack(d)
      && (IsUsable in d.status <==> h.usable) && (BadBattery in d.status <==> !h.batteryGood)
      && (RecoverInPei in d.status <==> h.recoverInPei) && (BspIsExecuting in d.status <==> h.bsp)
      && (FirstBootDetected in d.status <==> h.firstBoot) && (ColdBootDetected in d.status <==> h.coldBoot)
  {
    hide Detected, CellsKept, State.Coherent, State.Valid;
    DetectedFacts(s, h);
  }

  lemma LoadedStage(s: State, count: nat)
    requires OnTrack(s) && count <= |s.buf|
    ensures var r := Loaded(s, count);
      && OnTrack(r) && r.Coherent() && r.buf == s.buf && Reloaded(s, r, count) && SameAnswers(s, r)
  {
    hide Loaded;
    CheckAfterLoad(s, count);
    LoadedIsCoherent(s, count);
    LoadedIsIdle(s, count);
    var r := Loaded(s, count);
    forall f | f !in WORKING
      ensures f in r.status <==> f in s.status
    {
      LoadedStatus(s, count, f);
    }
    assert ErrorLoadingDefaults in r.status <==> ErrorLoadingDefaults in s.status;
    forall a: nat | s.cfg.Summed(a)
      ensures r.phys[a] == DefaultOf(s, count, a)
    {
      assert Untouched(s, a);
      LoadedRegister(s, count, a);
    }
  }

  /** A load changes only the flags it works with. */
  lemma LoadedStatus(s: State, count: nat, f: Flag)
    requires s.Valid() && count <= |s.buf| && f !in WORKING - {OptimalDefaultsEnabled}
    ensures f in Loaded(s, count).status <==> f in s.status
  {
    hide Stocked, Approved, Closed, Layout.Valid;
    var s1 := Stocked(s, count);
    StockedStatus(s, count, f);
    ApprovedStatus(s1, f);
    var s2 := if ErrorLoadingDefaults in s1.status then s1 else Approved(s1);
    ClosedStatus(s2, s.status * {OptimalDefaultsEnabled});
  }

  lemma StockedStatus(s: State, count: nat, f: Flag)
    requires s.Valid() && count <= |s.buf| && f !in WORKING - {OptimalDefaultsEnabled}
    ensures f in Stocked(s, count).status <==> f in s.status && f != OptimalDefaultsEnabled
  {
    hide Stocked, Prepared, CellsKept, Layout.Valid;
    StockedFacts(s, count);
    PreparedFacts(s);
  }

  lemma ApprovedStatus(s: State, f: Flag)
    requires s.Valid() && f !in WORKING - {OptimalDefaultsEnabled}
    ensures f in Approved(s).status <==> f in s.status
  {
    hide Approved, State.Coherent, Layout.Valid;
    ApprovedFacts(s);
  }

  lemma ApiRegistersAreExcluded(l: Layout, a: nat)
    requires l.ApiValid()
    ensures IsApiRegister(l, a) ==> l.Excluded(a)
  {
  }

  lemma SavedStage(s: State, address: nat)
    requires OnTrack(s) && s.cfg.ApiValid()
    ensures var r := Saved(s, address, 4);
      OnTrack(r) && (r.Coherent() <==> s.Coherent()) && r.buf == s.buf && Unchanged(s, r) && SameAnswers(s, r)
  {
    hide Saved;
    SavedFacts(s, address, 4);
    SavedKeepsCoherence(s, address);
    var r := Saved(s, address, 4);
    SameFlags(r.status, s.status);
    forall a: nat | s.cfg.Summed(a)
      ensures r.phys[a] == s.phys[a]
    {
      ApiRegistersAreExcluded(s.cfg, a);
    }
  }

  /** Whether the first stage loads the defaults. */
  predicate LoadsFirst(h: Hooks)
  {
    h.usable && h.bsp && h.firstBoot && h.coldBoot
  }

  lemma FirstBootStage(d: State, h: Hooks, count: nat, address: nat)
    requires OnTrack(d) && d.cfg.ApiValid() && count <= |d.buf|
    requires IsUsable in d.status <==> h.usable
    requires BspIsExecuting in d.status <==> h.bsp
    requires FirstBootDetected in d.status <==> h.firstBoot
    requires ColdBootDetected in d.status <==> h.coldBoot
    ensures var r := FirstBootHandled(d, count, address);
      && OnTrack(r) && r.buf == d.buf && SameAnswers(d, r)
      && (r.Coherent() <==> LoadsFirst(h) || d.Coherent())
      && (if LoadsFirst(h) then Reloaded(d, r, count) else Unchanged(d, r))
  {
    hide Loaded, Saved, State.Coherent;
    if h.usable && h.bsp {
      if LoadsFirst(h) {
        LoadedStage(d, count);
        SavedStage(Loaded(d, count), address);
      } else {
        SavedStage(d, address);
      }
    }
  }

  /** What the entry point decides on what it found. */
  datatype Outcome = AlreadyGood | Reload | UseBuffer

  ghost function Decision(h: Hooks, good: bool): Outcome
  {
    if (LoadsFirst(h) || good) && h.batteryGood then AlreadyGood
    else if h.usable && h.recoverInPei then Reload else UseBuffer
  }

  lemma RecoveredStage(f: State, h: Hooks, count: nat, behind: nat -> bv8)
    requires OnTrack(f) && count <= |f.buf|
    requires IsUsable in f.status <==> h.usable
    requires RecoverInPei in f.status <==> h.recoverInPei
    requires BadBattery in f.status <==> !h.batteryGood
    ensures var r := Recovered(f, count, behind);
      && r.Coherent() && ForceNoChecksum !in r.status && SameAnswers(f, r)
      && (OptimalDefaultsEnabled in r.status <==>
          !(h.usable && h.recoverInPei) && (!h.batteryGood || !f.Coherent()))
      && forall a: nat {:trigger r.View(a)} :: f.cfg.Summed(a) ==>
           r.View(a) == if h.batteryGood && f.Coherent() then f.phys[a]
                        else if h.usable && h.recoverInPei then DefaultOf(f, count, a)
                        else Writable(f, count, behind).buf[a - f.cfg.first + 1]
  {
    hide Loaded, BufferedOn, State.Coherent, DefaultOf, Writable, SameAnswers, Layout.Valid;
    if BadChecksum !in f.status && BadBattery !in f.status {
      SameAsItself(f);
    } else if IsUsable in f.status && RecoverInPei in f.status {
      ReloadedStage(f, count);
    } else {
      BufferedOnFacts(Writable(f, count, behind));
      SameStatusSameAnswers(f, Writable(f, count, behind), Recovered(f, count, behind));
    }
  }

  lemma SameAsItself(s: State)
    ensures SameAnswers(s, s)
  {
  }

  lemma SameStatusSameAnswers(s: State, t: State, r: State)
    requires t.status == s.status && SameAnswers(t, r)
    ensures SameAnswers(s, r)
  {
  }

  /** Recovery on the spot: the load, and the buffer off, which it was. */
  lemma ReloadedStage(f: State, count: nat)
    requires OnTrack(f) && count <= |f.buf|
    ensures var r := Loaded(f, count).ClearBits({OptimalDefaultsEnabled});
      && r.Coherent() && ForceNoChecksum !in r.status && OptimalDefaultsEnabled !in r.status && SameAnswers(f, r)
      && forall a: nat {:trigger r.View(a)} :: f.cfg.Summed(a) ==> r.View(a) == DefaultOf(f, count, a)
  {
    hide Loaded, State.Coherent, DefaultOf, Layout.Valid;
    LoadedStage(f, count);
    var l := Loaded(f, count);
    ClearSilently(l, {OptimalDefaultsEnabled});
    assert l.status - {OptimalDefaultsEnabled} == l.status;
    SyncedIsQuiet(l);
    QuietKeepsCoherence(l, l.Synced());
  }

  lemma InstalledIsQuiet(s: State, installs: bool)
    requires s.Valid()
    ensures Quiet(s, Installed(s, installs))
    ensures forall f :: f !in {AddressIsChecksummed, ValidManager, InstallFailed} ==>
              (f in Installed(s, installs).status <==> f in s.status)
    ensures ValidManager in Installed(s, installs).status <==> installs
    ensures InstallFailed in Installed(s, installs).status <==> !installs || InstallFailed in s.status
  {
    hide State.SetBits, State.ClearBits;
    SetBitsIsQuiet(s, {ValidManager});
    SetBitsStatus(s, {ValidManager});
    SetBitsIsQuiet(s, {InstallFailed});
    SetBitsStatus(s, {InstallFailed});
    var s1 := s.SetBits({InstallFailed});
    ClearBitsIsQuiet(s1, {ValidManager});
    ClearBitsStatus(s1, {ValidManager});
    QuietTransitive(s, s1, s1.ClearBits({ValidManager}));
  }

  /** What a checksummed register shows when the first phase is over. */
  ghost function ShownAfterPei(s: State, h: Hooks, count: nat, behind: nat -> bv8, a: nat): bv8
    requires s.Valid() && count <= |s.buf| && s.cfg.InRegion(a)
  {
    match Decision(h, s.Coherent())
    case AlreadyGood => if LoadsFirst(h) then DefaultOf(s, count, a) else s.phys[a]
    case Reload => DefaultOf(s, count, a)
    case UseBuffer =>
      if ExecutingInMemory in s.status then s.buf[a - s.cfg.first + 1]
      else CopiedTable(s.buf, count, behind)[a - s.cfg.first + 1]
  }

  /** The first two stages together. */
  ghost function BeforeRecovery(s: State, h: Hooks, count: nat, address: nat): (f: State)
    requires s.Valid() && s.cfg.ApiValid() && count <= |s.buf|
    ensures f.Valid() && f.cfg == s.cfg && f.dxe == s.dxe
  {
    FirstBootHandled(Detected(s, h), count, address)
  }

  lemma BeforeRecoveryFacts(s: State, h: Hooks, count: nat, address: nat)
    requires IsNew(s) && s.cfg.ApiValid() && count <= |s.buf|
    ensures var f := BeforeRecovery(s, h, count, address);
      && OnTrack(f) && f.buf == s.buf && (f.Coherent() <==> LoadsFirst(h) || s.Coherent())
      && (if LoadsFirst(h) then Reloaded(s, f, count) else Unchanged(s, f))
      && FoundFlags(s, h, f)
  {
    hide Detected, FirstBootHandled, State.Coherent, Layout.Valid, Reloaded, Unchanged, SameAnswers, FoundFlags;
    var d := Detected(s, h);
    DetectedCells(s, h);
    DetectedStage(s, h);
    FirstBootStage(d, h, count, address);
    var f := FirstBootHandled(d, count, address);
    SameSource(s, d, f, count);
    DetectedFlags(s, h);
    AnswersKeepFlags(s, h, d, f);
  }

  /** What the hooks said, where the manager runs, and that nothing is marked. */
  ghost predicate FoundFlags(s: State, h: Hooks, f: State)
  {
    && (IsUsable in f.status <==> h.usable) && (RecoverInPei in f.status <==> h.recoverInPei)
    && (BadBattery in f.status <==> !h.batteryGood)
    && (FirstBootDetected in f.status <==> h.firstBoot) && (ColdBootDetected in f.status <==> h.coldBoot)
    && (BspIsExecuting in f.status <==> h.bsp)
    && (RecoverOnlyChecksummed in f.status <==> h.recoverOnlyChecksummed)
    && (ExecutingInMemory in f.status <==> ExecutingInMemory in s.status)
    && ValidInterface in f.status && InterfaceAlreadyInstalled !in f.status && InstallFailed !in f.status
  }

  lemma DetectedFlags(s: State, h: Hooks)
    requires IsNew(s)
    ensures FoundFlags(s, h, Detected(s, h))
  {
    hide Detected, CellsKept, State.Coherent, Layout.Valid;
    DetectedFacts(s, h);
  }

  lemma AnswersKeepFlags(s: State, h: Hooks, d: State, f: State)
    requires FoundFlags(s, h, d) && SameAnswers(d, f)
    ensures FoundFlags(s, h, f)
  {
  }

  /** What was loaded or left by way of an unchanged state is so from the start. */
  lemma SameSource(s: State, d: State, f: State, count: nat)
    requires s.Valid() && d.Valid() && f.Valid() && d.cfg == s.cfg && f.cfg == s.cfg && count <= |s.buf|
    requires d.buf == s.buf && Unchanged(s, d)
    ensures Reloaded(d, f, count) ==> Reloaded(s, f, count)
    ensures Unchanged(d, f) ==> Unchanged(s, f)
  {
    hide DefaultOf, Layout.Valid;
    forall a: nat | s.cfg.Summed(a)
      ensures a < REGISTER_SPACE && d.phys[a] == s.phys[a] && DefaultOf(d, count, a) == DefaultOf(s, count, a)
    {
      InSpace(s.cfg, a);
      assert d.phys[a] == s.phys[a];
      SameDefault(s, d, count, a);
    }
  }

  lemma SameDefault(s: State, d: State, count: nat, a: nat)
    requires s.Valid() && d.Valid() && d.cfg == s.cfg && d.buf == s.buf && count <= |s.buf| && s.cfg.InRegion(a)
    requires a < REGISTER_SPACE && d.phys[a] == s.phys[a]
    ensures DefaultOf(d, count, a) == DefaultOf(s, count, a)
  {
  }

  /**
   From any register contents, and whatever the hooks answer, the first entry
   ends with the right checksum for what it shows; goes over to the buffer
   exactly in the cases listed; and shows in each checksummed register the
   default, the buffered value or what was there.
   */
  lemma PeiEntryEstablishes(s: State, h: Hooks, count: nat, address: nat, behind: nat -> bv8)
    requires IsNew(s) && s.cfg.ApiValid() && count <= |s.buf|
    ensures var r := PeiEntered(s, h, count, address, behind);
      && r.Coherent() && ForceNoChecksum !in r.status
      && (OptimalDefaultsEnabled in r.status <==> Decision(h, s.Coherent()) == UseBuffer)
      && forall a: nat {:trigger r.View(a)} :: s.cfg.Summed(a) ==> r.View(a) == ShownAfterPei(s, h, count, behind, a)
  {
    hide BeforeRecovery, Recovered, Installed, State.Coherent, Layout.Valid, DefaultOf, PeiEntered, SameAnswers,
      Quiet, Detected, FirstBootHandled;
    var f := BeforeRecovery(s, h, count, address);
    BeforeRecoveryFacts(s, h, count, address);
    RecoveredStage(f, h, count, behind);
    var v := Recovered(f, count, behind);
    EntryUnfolds(s, h, count, address, behind);
    var r := Installed(v, h.installs);
    InstalledIsQuiet(v, h.installs);
    QuietKeepsCoherence(v, r);
    forall a: nat | s.cfg.Summed(a)
      ensures r.View(a) == ShownAfterPei(s, h, count, behind, a)
    {
      InSpace(s.cfg, a);
      assert r.View(a) == v.View(a);
      assert f.phys[a] == if LoadsFirst(h) then DefaultOf(s, count, a) else s.phys[a];
      ReloadTwice(s, f, h, count, a);
    }
  }

  lemma EntryUnfolds(s: State, h: Hooks, count: nat, address: nat, behind: nat -> bv8)
    requires s.Valid() && s.cfg.ApiValid() && count <= |s.buf|
    ensures PeiEntered(s, h, count, address, behind) ==
            Installed(Recovered(BeforeRecovery(s, h, count, address), count, behind), h.installs)
  {
  }

  /** Loading the defaults again changes nothing. */
  lemma ReloadTwice(s: State, f: State, h: Hooks, count: nat, a: nat)
    requires s.Valid() && f.Valid() && f.cfg == s.cfg && f.buf == s.buf && count <= |s.buf| && s.cfg.InRegion(a)
    requires a < REGISTER_SPACE
    requires f.phys[a] == if LoadsFirst(h) then DefaultOf(s, count, a) else s.phys[a]
    ensures DefaultOf(f, count, a) == DefaultOf(s, count, a)
  {
  }

  /**
   The status word after the first entry: the hooks' answers, whether the
   installation worked, and the interface as at the start; nothing is marked.
   */
  lemma PeiEntryFlags(s: State, h: Hooks, count: nat, address: nat, behind: nat -> bv8)
    requires IsNew(s) && s.cfg.ApiValid() && count <= |s.buf|
    ensures var r := PeiEntered(s, h, count, address, behind);
      && ValidInterface in r.status && InterfaceAlreadyInstalled !in r.status && ErrorLoadingDefaults !in r.status
      && (ExecutingInMemory in r.status <==> ExecutingInMemory in s.status)
      && (IsUsable in r.status <==> h.usable) && (BadBattery in r.status <==> !h.batteryGood)
      && (FirstBootDetected in r.status <==> h.firstBoot) && (ColdBootDetected in r.status <==> h.coldBoot)
      && (BspIsExecuting in r.status <==> h.bsp) && (RecoverInPei in r.status <==> h.recoverInPei)
      && (RecoverOnlyChecksummed in r.status <==> h.recoverOnlyChecksummed)
      && (ValidManager in r.status <==> h.installs) && (InstallFailed in r.status <==> !h.installs)
  {
    hide BeforeRecovery, Recovered, Installed, State.Coherent, State.Valid, Layout.Valid, PeiEntered, Quiet,
      State.View, Detected, FirstBootHandled, DefaultOf, Reloaded, Unchanged, SameAnswers, FoundFlags;
    var f := BeforeRecovery(s, h, count, address);
    BeforeRecoveryFacts(s, h, count, address);
    FoundAnswers(s, h, f);
    RecoveredStage(f, h, count, behind);
    EntryUnfolds(s, h, count, address, behind);
    var v := Recovered(f, count, behind);
    AnswersKeepFlags(s, h, f, v);
    NothingFailed(f, v);
    FlagsOnceInstalled(s, h, v);
  }

  lemma FoundAnswers(s: State, h: Hooks, f: State)
    requires FoundFlags(s, h, f)
    ensures (IsUsable in f.status <==> h.usable) && (RecoverInPei in f.status <==> h.recoverInPei)
    ensures BadBattery in f.status <==> !h.batteryGood
  {
  }

  lemma NothingFailed(f: State, v: State)
    requires OnTrack(f) && SameAnswers(f, v)
    ensures ErrorLoadingDefaults !in v.status
  {
  }

  lemma FlagsOnceInstalled(s: State, h: Hooks, v: State)
    requires v.Valid() && FoundFlags(s, h, v) && ErrorLoadingDefaults !in v.status
    ensures var r := Installed(v, h.installs);
      && ValidInterface in r.status && InterfaceAlreadyInstalled !in r.status && ErrorLoadingDefaults !in r.status
      && (ExecutingInMemory in r.status <==> ExecutingInMemory in s.status)
      && (IsUsable in r.status <==> h.usable) && (BadBattery in r.status <==> !h.batteryGood)
      && (FirstBootDetected in r.status <==> h.firstBoot) && (ColdBootDetected in r.status <==> h.coldBoot)
      && (BspIsExecuting in r.status <==> h.bsp) && (RecoverInPei in r.status <==> h.recoverInPei)
      && (RecoverOnlyChecksummed in r.status <==> h.recoverOnlyChecksummed)
      && (ValidManager in r.status <==> h.installs) && (InstallFailed in r.status <==> !h.installs)
  {
    hide Installed, Quiet, State.Valid, Layout.Valid;
    InstalledIsQuiet(v, h.installs);
  }

  // --------------------------------------------------------- which way the entry went

  lemma FirstBootLoads(d: State, count: nat, address: nat)
    requires OnTrack(d) && d.cfg.ApiValid() && count <= |d.buf|
    ensures DefaultsLoaded in FirstBootHandled(d, count, address).status <==>
            DefaultsLoaded in d.status || {IsUsable, BspIsExecuting, FirstBootDetected, ColdBootDetected} <= d.status
  {
    hide Loaded, Saved, State.Coherent, Layout.Valid;
    LoadedIsCoherent(d, count);
    SavedFacts(d, address, 4);
    SameFlags(Saved(d, address, 4).status, d.status);
    var l := Loaded(d, count);
    SavedFacts(l, address, 4);
    SameFlags(Saved(l, address, 4).status, l.status);
  }

  lemma RecoveryLoads(f: State, count: nat, behind: nat -> bv8)
    requires OnTrack(f) && count <= |f.buf|
    ensures DefaultsLoaded in Recovered(f, count, behind).status <==>
            DefaultsLoaded in f.status
            || ((BadChecksum in f.status || BadBattery in f.status) && {IsUsable, RecoverInPei} <= f.status)
  {
    hide Loaded, BufferedOn, State.ClearBits, State.Coherent, Layout.Valid;
    if BadChecksum in f.status || BadBattery in f.status {
      if {IsUsable, RecoverInPei} <= f.status {
        LoadedIsCoherent(f, count);
        ClearBitsStatus(Loaded(f, count), {OptimalDefaultsEnabled});
      } else {
        BufferingLoadsNothing(Writable(f, count, behind));
      }
    }
  }

  lemma BufferingLoadsNothing(w: State)
    requires w.Valid() && OptimalDefaultsEnabled !in w.status
    ensures DefaultsLoaded in BufferedOn(w).status <==> DefaultsLoaded in w.status
  {
    hide Resummed, State.SetBits, State.Coherent, State.Valid, Layout.Valid, AgreeOff;
    SetBitsStatus(w, {OptimalDefaultsEnabled});
    var o := w.SetBits({OptimalDefaultsEnabled});
    ResummedFacts(o);
    KeptThroughSum(o, Resummed(o), DefaultsLoaded);
  }

  lemma KeptThroughSum(o: State, r: State, f: Flag)
    requires f !in {ForceNoChecksum, AddressIsChecksummed, BadChecksum}
    requires r.status - {AddressIsChecksummed, BadChecksum} ==
             o.status - {ForceNoChecksum, AddressIsChecksummed, BadChecksum}
    ensures f in r.status <==> f in o.status
  {
    assert f in r.status <==> f in r.status - {AddressIsChecksummed, BadChecksum};
  }

  /**
   The two ways out of a bad state, on what the hooks say and what is found: the
   defaults are loaded on the boot processor's first cold boot, or by recovery in
   PEI; the buffer is used where recovery in PEI is not possible or not wanted.
   */
  lemma PeiEntryModes(s: State, h: Hooks, count: nat, address: nat, behind: nat -> bv8)
    requires IsNew(s) && s.cfg.ApiValid() && count <= |s.buf|
    ensures var r := PeiEntered(s, h, count, address, behind);
      var first := h.usable && h.bsp && h.firstBoot && h.coldBoot;
      var bad := !h.batteryGood || !(first || s.Coherent());
      && (DefaultsLoaded in r.status <==> first || (bad && h.usable && h.recoverInPei))
      && (OptimalDefaultsEnabled in r.status <==> bad && !(h.usable && h.recoverInPei))
  {
    hide BeforeRecovery, Recovered, Installed, State.Coherent, Layout.Valid, PeiEntered, Quiet, State.View, Detected,
      FirstBootHandled, DefaultOf, Reloaded, Unchanged, SameAnswers, ShownAfterPei;
    var d, f := Detected(s, h), BeforeRecovery(s, h, count, address);
    DetectedStage(s, h);
    DetectionKeeps(s, h);
    StagesMeet(s, h, count, address);
    FirstBootLoads(d, count, address);
    BeforeRecoveryFacts(s, h, count, address);
    RecoveryLoads(f, count, behind);
    RecoveredStage(f, h, count, behind);
    EntryUnfolds(s, h, count, address, behind);
    InstalledIsQuiet(Recovered(f, count, behind), h.installs);
  }

  lemma StagesMeet(s: State, h: Hooks, count: nat, address: nat)
    requires s.Valid() && s.cfg.ApiValid() && count <= |s.buf| && |Detected(s, h).buf| == |s.buf|
    ensures BeforeRecovery(s, h, count, address) == FirstBootHandled(Detected(s, h), count, address)
  {
  }
}
