/** The API pointer over the first entry and the migration. */
module PointerLaws {
  import opened TokenCodec
  import opened CmosStore
  import opened StoreLaws
  import opened OptimalDefaults
  import opened LoadingLaws
  import opened ApiPointer
  import opened Boot
  import opened BootLaws
  import opened HandOverLaws
  import opened PeiLaws

  /** No status change writes a register of the API pointer. */
  ghost predicate PointerApart(l: Layout)
  {
    forall a: nat :: IsApiRegister(l, a) ==>
      a != DIAGNOSTIC_STATUS_REGISTER
      && a !in {Address(l.batteryBad), Address(l.checksumBad), Address(l.defaultsLoaded), Address(l.firstBoot)}
  }

  /** A register that the checksum and status code leave alone. */
  ghost predicate Alone(s: State, a: nat)
  {
    a < REGISTER_SPACE && Untouched(s, a) && !s.cfg.IsChecksumRegister(a)
  }

  lemma PointerIsAlone(s: State, k: nat)
    requires s.Valid() && s.cfg.ApiValid() && PointerApart(s.cfg) && k < 4
    ensures Alone(s, s.cfg.apiByte3 + k) && IsApiRegister(s.cfg, s.cfg.apiByte3 + k)
  {
    ApiRegisterFacts(s.cfg, k);
    assert IsApiRegister(s.cfg, s.cfg.apiByte3 + k);
  }

  /** The byte that recovery reloads, or the one there. */
  lemma RecoveredCell(f: State, count: nat, behind: nat -> bv8, a: nat)
    requires f.Valid() && count <= |f.buf| && Alone(f, a)
    ensures var reloads := (BadChecksum in f.status || BadBattery in f.status)
                           && IsUsable in f.status && RecoverInPei in f.status;
      Recovered(f, count, behind).phys[a] ==
      if reloads && Loads(f.cfg, count, SkipsUnchecked(f), a) then f.buf[1 + Rank(f.cfg, a)] else f.phys[a]
  {
    hide Loaded, Resummed, State.SetBits, State.ClearBits, CellsKept, Loads, Rank, Layout.Valid;
    if BadChecksum in f.status || BadBattery in f.status {
      if IsUsable in f.status && RecoverInPei in f.status {
        LoadedRegister(f, count, a);
        var l := Loaded(f, count);
        ClearBitsKeepsCells(l, {OptimalDefaultsEnabled});
        KeptRegister(l, l.ClearBits({OptimalDefaultsEnabled}), a);
      } else {
        var w := Writable(f, count, behind);
        SetBitsKeepsCells(w, {OptimalDefaultsEnabled});
        var o := w.SetBits({OptimalDefaultsEnabled});
        KeptRegister(w, o, a);
        ResummedCell(o, a);
      }
    }
  }

  /** The pointer's byte once the first-boot stage is over, whatever that loaded. */
  lemma FirstBootPointer(d: State, count: nat, address: nat, k: nat)
    requires d.Valid() && d.cfg.ApiValid() && count <= |d.buf| && k < 4
    ensures d.cfg.apiByte3 + k < REGISTER_SPACE
    ensures FirstBootHandled(d, count, address).phys[d.cfg.apiByte3 + k] ==
            if IsUsable in d.status && BspIsExecuting in d.status then PointerByte(address, k)
            else d.phys[d.cfg.apiByte3 + k]
  {
    hide Loaded, Saved, PointerByte, Layout.Valid;
    ApiRegisterFacts(d.cfg, k);
    SavedFacts(d, address, 4);
    SavedFacts(Loaded(d, count), address, 4);
  }

  /** Recovery reloads this register. */
  ghost predicate RecoveryReloads(s: State, h: Hooks, count: nat, a: nat)
    requires s.Valid()
  {
    && h.usable && h.recoverInPei && (!h.batteryGood || !(LoadsFirst(h) || s.Coherent()))
    && Loads(s.cfg, count, !(LoadsFirst(h) || s.Coherent()) && h.recoverOnlyChecksummed && !h.firstBoot, a)
  }

  /** Recovery reloads this one of the pointer's registers. */
  ghost predicate PointerByteReloads(s: State, h: Hooks, count: nat, k: nat)
    requires s.Valid()
  {
    RecoveryReloads(s, h, count, s.cfg.apiByte3 + k)
  }

  /** The pointer's byte, and what recovery will go by, once the first stages are over. */
  lemma PointerBeforeRecovery(s: State, h: Hooks, count: nat, address: nat, k: nat)
    requires IsNew(s) && s.cfg.ApiValid() && PointerApart(s.cfg) && count <= |s.buf| && k < 4
    ensures s.cfg.apiByte3 + k < REGISTER_SPACE
    ensures var f := BeforeRecovery(s, h, count, address); var bad := !(LoadsFirst(h) || s.Coherent());
      && f.buf == s.buf && (BadChecksum in f.status <==> bad) && (BadBattery in f.status <==> !h.batteryGood)
      && (IsUsable in f.status <==> h.usable) && (RecoverInPei in f.status <==> h.recoverInPei)
      && (SkipsUnchecked(f) <==> bad && h.recoverOnlyChecksummed && !h.firstBoot)
      && f.phys[s.cfg.apiByte3 + k] ==
         if h.usable && h.bsp then PointerByte(address, k) else s.phys[s.cfg.apiByte3 + k]
  {
    hide Detected, FirstBootHandled, CellsKept, State.Coherent, PointerByte, Reloaded, Unchanged, Layout.Valid,
      PointerApart, Alone;
    var a := s.cfg.apiByte3 + k;
    PointerIsAlone(s, k);
    AloneFacts(s, a);
    var d := Detected(s, h);
    DetectedFacts(s, h);
    KeptRegister(s, d, a);
    BeforeRecoveryFacts(s, h, count, address);
    DetectedFlags(s, h);
    FirstBootPointer(d, count, address, k);
  }

  lemma AloneFacts(s: State, a: nat)
    requires Alone(s, a)
    ensures a < REGISTER_SPACE && Untouched(s, a)
  {
  }

  /**
   What each register of the pointer holds after the first entry: its default if
   recovery reloads it, else the pointer's byte on the boot processor with usable
   registers, else what was there.
   */
  lemma PointerAfterEntry(s: State, h: Hooks, count: nat, address: nat, behind: nat -> bv8, k: nat)
    requires IsNew(s) && s.cfg.ApiValid() && PointerApart(s.cfg) && count <= |s.buf| && k < 4
    ensures var a := s.cfg.apiByte3 + k;
      a < REGISTER_SPACE && PeiEntered(s, h, count, address, behind).phys[a] ==
      if PointerByteReloads(s, h, count, k) then s.buf[1 + Rank(s.cfg, a)]
      else if h.usable && h.bsp then PointerByte(address, k) else s.phys[a]
  {
    hide BeforeRecovery, Recovered, Installed, PeiEntered, CellsKept, State.Coherent, PointerByte, SkipsUnchecked,
      Rank, Layout.Valid, Layout.ApiValid, PointerApart, Alone;
    var a := s.cfg.apiByte3 + k;
    var f := BeforeRecovery(s, h, count, address);
    PointerBeforeRecovery(s, h, count, address, k);
    EntryUnfolds(s, h, count, address, behind);
    var r := Recovered(f, count, behind);
    PointerIsAlone(f, k);
    RecoveredCell(f, count, behind, a);
    InstalledKeepsCells(r, h.installs);
    PointerIsAlone(r, k);
    AloneFacts(r, a);
    KeptRegister(r, Installed(r, h.installs), a);
  }

  /** Recovery reloads this one with another byte than the pointer's. */
  ghost predicate ReloadsAway(s: State, h: Hooks, count: nat, address: nat, k: nat)
    requires IsNew(s) && s.cfg.ApiValid() && count <= |s.buf| && k < 4
  {
    PointerByteReloads(s, h, count, k) && s.buf[1 + Rank(s.cfg, s.cfg.apiByte3 + k)] != PointerByte(address, k)
  }

  ghost predicate PointerOverwritten(s: State, h: Hooks, count: nat, address: nat)
    requires IsNew(s) && s.cfg.ApiValid() && count <= |s.buf|
  {
    exists k: nat :: k < 4 && ReloadsAway(s, h, count, address, k)
  }

  /**
   On the boot processor with usable registers the pointer is the interface's
   address after the first entry, unless recovery reloads one of its registers
   with another byte.
   */
  lemma EntrySavesPointer(s: State, h: Hooks, count: nat, address: nat, behind: nat -> bv8)
    requires IsNew(s) && s.cfg.ApiValid() && PointerApart(s.cfg) && count <= |s.buf|
    requires h.usable && h.bsp && address < POINTER_SPACE
    ensures Assembled(PeiEntered(s, h, count, address, behind), 4) == address <==>
            !PointerOverwritten(s, h, count, address)
  {
    hide PeiEntered, Assembled, PointerByte, PointerByteReloads, Rank, Layout.Valid, Layout.ApiValid, PointerApart;
    var r := PeiEntered(s, h, count, address, behind);
    AssembledExactly(r, address);
    forall k: nat | k < 4
      ensures HoldsByte(r, address, k) <==> !ReloadsAway(s, h, count, address, k)
    {
      PointerAfterEntry(s, h, count, address, behind, k);
    }
    assert HoldsByte(r, address, 0) <==> !ReloadsAway(s, h, count, address, 0);
    assert HoldsByte(r, address, 1) <==> !ReloadsAway(s, h, count, address, 1);
    assert HoldsByte(r, address, 2) <==> !ReloadsAway(s, h, count, address, 2);
    assert HoldsByte(r, address, 3) <==> !ReloadsAway(s, h, count, address, 3);
  }

  /** Recovery reloads one of the pointer's registers. */
  ghost predicate PointerReloaded(s: State, h: Hooks, count: nat)
    requires s.Valid()
  {
    exists k: nat :: k < 4 && PointerByteReloads(s, h, count, k)
  }

  /** Elsewhere, and where nothing is reloaded, the pointer stays what it was. */
  lemma EntryKeepsPointer(s: State, h: Hooks, count: nat, address: nat, behind: nat -> bv8)
    requires IsNew(s) && s.cfg.ApiValid() && PointerApart(s.cfg) && count <= |s.buf|
    requires !(h.usable && h.bsp) && !PointerReloaded(s, h, count)
    ensures Assembled(PeiEntered(s, h, count, address, behind), 4) == Assembled(s, 4)
  {
    hide PeiEntered, Assembled, PointerByte, PointerByteReloads, Rank, Layout.Valid, Layout.ApiValid, PointerApart;
    var r := PeiEntered(s, h, count, address, behind);
    AssembledExactly(r, Assembled(s, 4));
    AssembledExactly(s, Assembled(s, 4));
    forall k: nat | k < 4
      ensures HoldsByte(r, Assembled(s, 4), k) <==> HoldsByte(s, Assembled(s, 4), k)
    {
      assert !PointerByteReloads(s, h, count, k);
      PointerAfterEntry(s, h, count, address, behind, k);
    }
  }

  ghost predicate SavedWithEveryTable(s: State, h: Hooks, count: nat, address: nat, behind: nat -> bv8)
    requires IsNew(s) && s.cfg.ApiValid() && count <= |s.buf|
  {
    forall table: seq<bv8> {:trigger s.(buf := table)} :: |table| == |s.buf| ==>
      Assembled(PeiEntered(s.(buf := table), h, count, address, behind), 4) == address
  }

  /** Which registers recovery reloads does not depend on the table's bytes. */
  lemma ReloadsWithAnyTable(s: State, h: Hooks, count: nat, table: seq<bv8>, k: nat)
    requires IsNew(s) && |table| == |s.buf|
    ensures IsNew(s.(buf := table))
    ensures PointerByteReloads(s.(buf := table), h, count, k) <==> PointerByteReloads(s, h, count, k)
  {
    hide Loads, State.Coherent;
    CoherentFollowsViews(s, s.(buf := table));
  }

  /**
   The address is saved whatever bytes the table of defaults holds exactly when
   recovery reloads none of the pointer's registers.
   */
  lemma SavedWithEveryTableExactly(s: State, h: Hooks, count: nat, address: nat, behind: nat -> bv8)
    requires IsNew(s) && s.cfg.ApiValid() && PointerApart(s.cfg) && count <= |s.buf|
    requires h.usable && h.bsp && address < POINTER_SPACE
    ensures SavedWithEveryTable(s, h, count, address, behind) <==> !PointerReloaded(s, h, count)
  {
    hide PeiEntered, Assembled, PointerByte, PointerByteReloads, Rank, Layout.Valid, Layout.ApiValid, PointerApart;
    if PointerReloaded(s, h, count) {
      var k: nat :| k < 4 && PointerByteReloads(s, h, count, k);
      var table := OtherTable(s, h, count, address, k);
      EntrySavesPointer(s.(buf := table), h, count, address, behind);
    } else {
      forall table: seq<bv8> | |table| == |s.buf|
        ensures IsNew(s.(buf := table))
        ensures Assembled(PeiEntered(s.(buf := table), h, count, address, behind), 4) == address
      {
        ReloadsWithAnyTable(s, h, count, table, 0);
        forall k: nat | k < 4
          ensures !ReloadsAway(s.(buf := table), h, count, address, k)
        {
          assert !PointerByteReloads(s, h, count, k);
          ReloadsWithAnyTable(s, h, count, table, k);
        }
        EntrySavesPointer(s.(buf := table), h, count, address, behind);
      }
    }
  }

  /** A table whose byte for a reloaded register is not the pointer's. */
  lemma OtherTable(s: State, h: Hooks, count: nat, address: nat, k: nat) returns (table: seq<bv8>)
    requires IsNew(s) && s.cfg.ApiValid() && count <= |s.buf| && k < 4
    requires PointerByteReloads(s, h, count, k)
    ensures |table| == |s.buf| && IsNew(s.(buf := table)) && ReloadsAway(s.(buf := table), h, count, address, k)
  {
    hide Rank, PointerByte, State.Coherent, Layout.Valid, Layout.ApiValid;
    var a, b := s.cfg.apiByte3 + k, PointerByte(address, k);
    table := s.buf[1 + Rank(s.cfg, a) := !b];
    assert !b != b;
    ReloadsWithAnyTable(s, h, count, table, k);
  }

  // ------------------------------------------------------------------- the migration

  /** The migration points to the new interface, or leaves every register as it was. */
  lemma MigrationSavesPointer(p: State, count: nat, checksum: nat, address: nat, room: nat -> bv8)
    requires p.Valid() && p.cfg.ApiValid() && count <= |p.buf| && address < POINTER_SPACE
    ensures var q := HandedOff(p, count, checksum, address, room);
      if IsUsable in p.status then Assembled(q, 4) == address else q.phys == p.phys
  {
    hide Saved, State.SetBits, PointerByte, Layout.Valid;
    var s1 := if IsUsable in p.status then Saved(p, address, 4) else p;
    SetSilently(s1, {ExecutingInMemory});
    if IsUsable in p.status {
      SavedPointerIsRead(p, address);
      SameWord(s1, HandedOff(p, count, checksum, address, room));
    }
  }

  lemma SameWord(s: State, r: State)
    requires s.Valid() && r.Valid() && r.cfg == s.cfg && s.cfg.ApiValid() && r.phys == s.phys
    ensures Assembled(r, 4) == Assembled(s, 4)
  {
    hide ShiftedIn, Layout.Valid;
    AssembledUnfolds(s);
    AssembledUnfolds(r);
  }
}
