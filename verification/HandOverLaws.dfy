/** From the buffer of the first phase to the physical registers in the second. */
module HandOverLaws {
  import opened TokenCodec
  import opened CmosStore
  import opened StoreLaws
  import opened StatusLaws
  import opened StatusCommutes
  import opened OptimalDefaults
  import opened LoadingLaws
  import opened ApiPointer
  import opened Boot
  import opened BootLaws
  import opened PeiLaws

  /** A manager at work on the buffer. */
  ghost predicate Buffering(p: State)
  {
    && p.Valid() && ValidInterface in p.status && OptimalDefaultsEnabled in p.status
    && ForceNoChecksum !in p.status && ErrorLoadingDefaults !in p.status
  }

  /** The same with a hand-off block in step: what PEI may leave, whatever it did since the migration. */
  ghost predicate AtHandOver(q: State)
  {
    Buffering(q) && q.hob.HobRecord? && HobFollows(q)
  }

  // ------------------------------------------------------------------- the migration

  /** The pointer's registers, the memory flag and the scratch flag apart, nothing changes. */
  lemma RememberedFacts(p: State, address: nat)
    requires p.Valid() && p.cfg.ApiValid()
    ensures var s := Remembered(p, address);
      && s.buf == p.buf
      && (forall a: nat {:trigger s.phys[a]} :: a < REGISTER_SPACE && !IsApiRegister(p.cfg, a) ==> s.phys[a] == p.phys[a])
      && (forall f :: f !in {AddressIsChecksummed, ExecutingInMemory} ==> (f in s.status <==> f in p.status))
      && ExecutingInMemory in s.status
  {
    hide Saved, State.SetBits, Layout.Valid;
    SavedFacts(p, address, 4);
    var s1 := if IsUsable in p.status then Saved(p, address, 4) else p;
    SetSilently(s1, {ExecutingInMemory});
    SameFlags(s1.status, p.status);
  }

  /**
   The migration leaves a manager at work on the buffer, and the table's entries
   as they were. It raises the memory flag, in the block as well, and hands over
   the checksum it is given.
   */
  lemma HandedOffFacts(p: State, count: nat, checksum: nat, address: nat, room: nat -> bv8)
    requires p.Valid() && p.cfg.ApiValid() && count <= |p.buf|
    ensures var q := HandedOff(p, count, checksum, address, room);
      && (forall f :: f !in {AddressIsChecksummed, ExecutingInMemory} ==> (f in q.status <==> f in p.status))
      && ExecutingInMemory in q.status
      && q.hob.HobRecord? && HobFollows(q) && q.hob.checksum == checksum && (Buffering(p) ==> AtHandOver(q))
      && q.buf == CopiedTable(p.buf, count, room)
      && (forall a: nat {:trigger q.phys[a]} :: a < REGISTER_SPACE && !IsApiRegister(p.cfg, a) ==> q.phys[a] == p.phys[a])
  {
    hide Remembered, Layout.Valid;
    RememberedFacts(p, address);
  }

  /** After the migration, going over to the buffer takes no copy: the table stays the block's. */
  lemma NoCopyAfterMigration(p: State, count: nat, checksum: nat, address: nat, room: nat -> bv8, n: nat, behind: nat -> bv8)
    requires p.Valid() && p.cfg.ApiValid() && count <= |p.buf| && n <= |p.buf|
    ensures var q := HandedOff(p, count, checksum, address, room);
      |q.buf| == |p.buf| && ExecutingInMemory in q.hob.status && Writable(q, n, behind) == q
  {
    hide HandedOff, Layout.Valid;
    HandedOffFacts(p, count, checksum, address, room);
  }

  // --------------------------------------------------------------------------- DXE

  /** What DXE leaves, started from what PEI left. */
  ghost function Delivered(q: State, h: Hooks, count: nat): (r: State)
    requires q.Valid() && q.hob.HobRecord? && count <= |q.buf|
    ensures r.Valid() && r.cfg == q.cfg
  {
    DxeEntered(TakenOver(q), h, count)
  }

  lemma DetectedInDxe(q: State, h: Hooks)
    requires AtHandOver(q)
    ensures var d := Detected(TakenOver(q), h);
      && OptimalDefaultsEnabled in d.status && ErrorLoadingDefaults !in d.status && ForceNoChecksum !in d.status
      && ValidInterface in d.status && (IsUsable in d.status <==> h.usable)
      && (InterfaceAlreadyInstalled in d.status <==> InterfaceAlreadyInstalled in q.status)
      && (FirstBootDetected in d.status <==> FirstBootDetected in q.status || h.firstBoot)
      && (RecoverOnlyChecksummed in d.status <==> RecoverOnlyChecksummed in q.status || h.recoverOnlyChecksummed)
      && (BadChecksum in d.status <==> !d.Coherent())
      && CellsKept(TakenOver(q), d)
  {
    hide Detected, CellsKept, State.Coherent, Layout.Valid;
    DetectedFacts(TakenOver(q), h);
  }

  /** Flushing leaves the registers coherent and the buffer out of use. */
  lemma FlushedFacts(d: State, count: nat)
    requires d.Valid() && count <= |d.buf| && OptimalDefaultsEnabled in d.status && ErrorLoadingDefaults !in d.status
    ensures var r := Flushed(d, count);
      && r.Coherent() && r.phys == Loaded(d, count).phys
      && OptimalDefaultsEnabled !in r.status && ForceNoChecksum !in r.status && BadChecksum !in r.status
  {
    hide Loaded, State.Coherent;
    LoadedIsCoherent(d, count);
    var l := Loaded(d, count);
    ClearSilently(l, {OptimalDefaultsEnabled});
    SyncedIsQuiet(OnHardware(l));
    QuietKeepsCoherence(OnHardware(l), Flushed(d, count));
  }

  /**
   With usable registers DXE flushes the buffer, ends coherent on the hardware
   and stops using the buffer, if and only if the manager taken over was not
   marked as a duplicate.
   */
  lemma FlushesUnlessDuplicate(q: State, h: Hooks, count: nat)
    requires AtHandOver(q) && h.usable && count <= |q.buf|
    ensures var r := Delivered(q, h, count);
      && (OptimalDefaultsEnabled in r.status <==> InterfaceAlreadyInstalled in q.status)
      && (InterfaceAlreadyInstalled !in q.status ==>
            r.Coherent() && ForceNoChecksum !in r.status && BadChecksum !in r.status)
  {
    hide Detected, TakenOver, Flushed, Installed, State.Coherent, Layout.Valid, CellsKept;
    DetectedInDxe(q, h);
    var d := Detected(TakenOver(q), h);
    if InterfaceAlreadyInstalled !in q.status {
      FlushedFacts(d, count);
      var f := Flushed(d, count);
      InstalledIsQuiet(f, h.installs);
      QuietKeepsCoherence(f, Installed(f, h.installs));
    }
  }

  lemma FlushedFlags(d: State, count: nat)
    requires d.Valid() && count <= |d.buf|
    ensures OptimalDefaultsEnabled !in Flushed(d, count).status
    ensures InstallFailed in Flushed(d, count).status <==> InstallFailed in d.status
  {
    hide Loaded, State.ClearBits;
    LoadedStatus(d, count, InstallFailed);
    ClearBitsStatus(Loaded(d, count), {OptimalDefaultsEnabled});
  }

  /**
   Which of its ways DXE took shows in the status word, whatever it started from:
   without a valid interface or as a duplicate it neither installs nor flushes,
   else it does both as far as it can.
   */
  lemma DxeFlags(s: State, h: Hooks, count: nat)
    requires s.Valid() && count <= |s.buf|
    ensures var r := DxeEntered(s, h, count);
      var goesOn := ValidInterface in s.status && InterfaceAlreadyInstalled !in s.status;
      && (ValidManager in r.status <==> if goesOn then h.installs else ValidManager in s.status)
      && (InstallFailed in r.status <==> InstallFailed in s.status || (goesOn && !h.installs))
      && (OptimalDefaultsEnabled in r.status <==> OptimalDefaultsEnabled in s.status && !(goesOn && h.usable))
  {
    hide Detected, Flushed, Installed, State.Coherent, Layout.Valid, CellsKept, Quiet;
    var d := Detected(s, h);
    DetectionKeeps(s, h);
    DetectedFacts(s, h);
    FlushedFlags(d, count);
    InstalledIsQuiet(d, h.installs);
    InstalledIsQuiet(Flushed(d, count), h.installs);
  }

  /** What PEI left, with the routing that DXE's hooks and policy choose. */
  ghost function Rerouted(q: State, h: Hooks): (w: State)
    requires q.Valid()
    ensures w.Valid() && w.cfg == q.cfg && w.phys == q.phys && w.buf == q.buf
  {
    q.(status := q.status - {IsUsable} + (if h.usable then {IsUsable} else {})
                 + (if h.recoverOnlyChecksummed then {RecoverOnlyChecksummed} else {}))
  }

  /** Detection sees, and judges, what PEI left under DXE's routing. */
  lemma DetectedSees(q: State, h: Hooks)
    requires AtHandOver(q)
    ensures var d := Detected(TakenOver(q), h);
      && Quiet(Rerouted(q, h), d)
      && (d.Coherent() <==> Rerouted(q, h).Coherent())
  {
    hide Detected, CellsKept, State.Coherent, Layout.Valid;
    DetectedInDxe(q, h);
    var d, w := Detected(TakenOver(q), h), Rerouted(q, h);
    CellsKeptFrom(TakenOver(q), w, d);
    CellsAreViews(w, d);
    QuietKeepsCoherence(w, d);
  }

  /** Which cells are kept is a matter of cells: from another state with the same ones they are kept too. */
  lemma CellsKeptFrom(s: State, w: State, d: State)
    requires s.Valid() && w.Valid() && d.Valid() && CellsKept(s, d)
    requires w.cfg == s.cfg && w.phys == s.phys && w.buf == s.buf
    ensures SameCellsKept(w, d)
  {
  }

  /** The cells are kept, whatever the phase. */
  ghost predicate SameCellsKept(s: State, t: State)
    requires s.Valid() && t.Valid()
  {
    && t.cfg == s.cfg
    && (forall a: nat {:trigger t.phys[a]} | a < REGISTER_SPACE :: Untouched(s, a) ==> t.phys[a] == s.phys[a])
    && (forall i: nat {:trigger t.buf[i]} | 1 <= i < |s.buf| ::
          Untouched(s, s.cfg.first + i - 1) ==> t.buf[i] == s.buf[i])
  }

  lemma CellsAreViews(s: State, t: State)
    requires s.Valid() && t.Valid() && SameRouting(s, t) && SameCellsKept(s, t)
    ensures Quiet(s, t)
  {
    forall a: nat | s.cfg.InRegion(a) && a !in StatusRegisters(s)
      ensures t.View(a) == s.View(a)
    {
      assert Untouched(s, a);
    }
  }

  /**
   With unusable registers, or for a marked manager, DXE flushes nothing. It goes
   on showing the buffer in every checksummed register and writes none of them;
   the checksum is right if and only if it is under DXE's routing.
   */
  lemma UnflushedKeepsBuffer(q: State, h: Hooks, count: nat)
    requires AtHandOver(q) && count <= |q.buf| && (!h.usable || InterfaceAlreadyInstalled in q.status)
    ensures var r := Delivered(q, h, count);
      && OptimalDefaultsEnabled in r.status && ForceNoChecksum !in r.status
      && (r.Coherent() <==> Rerouted(q, h).Coherent())
      && forall a: nat {:trigger r.View(a)} :: q.cfg.Summed(a) ==> r.View(a) == q.View(a) == q.buf[a - q.cfg.first + 1]
  {
    hide Detected, Installed, Flushed, Rerouted, State.Coherent, State.View, CellsKept, Quiet, Layout.Valid;
    DetectedInDxe(q, h);
    DetectedSees(q, h);
    var d := Detected(TakenOver(q), h);
    InstalledIsQuiet(d, h.installs);
    QuietKeepsCoherence(d, Installed(d, h.installs));
    QuietKeepsCoherence(Rerouted(q, h), d);
    forall a: nat | q.cfg.Summed(a)
      ensures Rerouted(q, h).View(a) == q.View(a) == q.buf[a - q.cfg.first + 1]
    {
      ShownOnEitherRouting(q, h, a);
    }
  }

  lemma ShownOnEitherRouting(q: State, h: Hooks, a: nat)
    requires q.Valid() && q.cfg.Summed(a) && OptimalDefaultsEnabled in q.status
    ensures Rerouted(q, h).View(a) == q.View(a) == q.buf[a - q.cfg.first + 1]
  {
  }

  /** None of the checksummed registers is written. */
  lemma UnflushedWritesNothing(q: State, h: Hooks, count: nat, a: nat)
    requires AtHandOver(q) && count <= |q.buf| && (!h.usable || InterfaceAlreadyInstalled in q.status)
    requires q.cfg.Summed(a)
    ensures a < REGISTER_SPACE && Delivered(q, h, count).phys[a] == q.phys[a]
  {
    hide Detected, Installed, Flushed, CellsKept, Layout.Valid;
    ChecksumIsNotSummed(q.cfg, a);
    DetectedInDxe(q, h);
    var d := Detected(TakenOver(q), h);
    CellsKeptAt(TakenOver(q), d, a);
    InstalledKeepsCells(d, h.installs);
    CellsKeptAt(d, Installed(d, h.installs), a);
  }

  lemma InstalledKeepsCells(s: State, installs: bool)
    requires s.Valid()
    ensures CellsKept(s, Installed(s, installs))
  {
    hide State.SetBits, State.ClearBits, CellsKept, Layout.Valid;
    SetBitsKeepsCells(s, {ValidManager});
    var s1 := s.SetBits({InstallFailed});
    SetBitsKeepsCells(s, {InstallFailed});
    ClearBitsKeepsCells(s1, {ValidManager});
    CellsKeptTransitive(s, s1, s1.ClearBits({ValidManager}));
  }

  /** Unusable registers leave all of the region in the buffer, whatever the policy. */
  lemma UnusableRouting(q: State, h: Hooks)
    requires q.Valid() && OptimalDefaultsEnabled in q.status && !h.usable
    ensures Rerouted(q, h).Coherent() <==> q.(status := q.status - {IsUsable}).Coherent()
  {
    hide State.Coherent;
    var u := q.(status := q.status - {IsUsable});
    forall a: nat | q.cfg.InRegion(a)
      ensures Rerouted(q, h).View(a) == u.View(a)
    {
    }
    CoherentFollowsViews(u, Rerouted(q, h));
  }

  /** With both checksum registers in the buffer, losing the registers does not touch the checksum. */
  lemma BufferedChecksumStays(q: State, h: Hooks)
    requires q.Valid() && OptimalDefaultsEnabled in q.status && !h.usable
    requires q.Route(Address(q.cfg.checksumHigh)) == Buffer && q.Route(Address(q.cfg.checksumLow)) == Buffer
    ensures Rerouted(q, h).Coherent() <==> q.Coherent()
  {
    hide State.Coherent;
    ChecksumRegisters(q.cfg);
    forall a: nat | q.cfg.Summed(a)
      ensures Rerouted(q, h).View(a) == q.View(a)
    {
      ShownOnEitherRouting(q, h, a);
    }
    CoherentFollowsViews(q, Rerouted(q, h));
  }

  /** The register whose place in the buffer the flush reads for this one. */
  function FlushedFrom(l: Layout, a: nat): nat
    requires l.first <= a
  {
    l.first + Rank(l, a)
  }

  /** The manager is flushed on DXE entry. */
  ghost predicate ToBeFlushed(q: State, h: Hooks, count: nat)
  {
    AtHandOver(q) && h.usable && InterfaceAlreadyInstalled !in q.status && count <= |q.buf|
  }

  /** What the flush leaves in a register: what detection left at its rank, or what it held. */
  lemma DeliveredValue(q: State, h: Hooks, count: nat, a: nat)
    requires ToBeFlushed(q, h, count)
    requires q.cfg.InRegion(a) && Untouched(q, a) && !q.cfg.IsChecksumRegister(a)
    ensures a < REGISTER_SPACE
    ensures var d := Detected(TakenOver(q), h);
      Delivered(q, h, count).View(a) ==
      if Loads(q.cfg, count, SkipsUnchecked(d), a) then d.buf[1 + Rank(q.cfg, a)] else q.phys[a]
  {
    hide Detected, Loaded, Installed, Rank, State.Coherent, CellsKept, Layout.Valid;
    InSpace(q.cfg, a);
    var s := TakenOver(q);
    DetectedInDxe(q, h);
    var d := Detected(s, h);
    LoadedRegister(d, count, a);
    HeldRegister(s, d, a);
    FlushedFacts(d, count);
    var f := Flushed(d, count);
    InstalledIsQuiet(f, h.installs);
    assert Installed(f, h.installs).View(a) == f.View(a) == f.phys[a];
  }

  lemma HeldRegister(s: State, d: State, a: nat)
    requires s.Valid() && d.Valid() && CellsKept(s, d) && Untouched(s, a) && a < REGISTER_SPACE
    ensures d.phys[a] == s.phys[a] && Untouched(d, a)
  {
  }

  lemma HeldCell(s: State, d: State, i: nat)
    requires s.Valid() && d.Valid() && CellsKept(s, d) && 1 <= i < |s.buf| && Untouched(s, s.cfg.first + i - 1)
    ensures d.buf[i] == s.buf[i]
  {
  }

  /** Every checksummed register with a default ends with the buffer's byte at its rank. */
  lemma DeliveredRegister(q: State, h: Hooks, count: nat, a: nat)
    requires ToBeFlushed(q, h, count)
    requires q.cfg.Summed(a) && 1 + Rank(q.cfg, a) < count && Untouched(q, FlushedFrom(q.cfg, a))
    ensures Delivered(q, h, count).View(a) == q.buf[1 + Rank(q.cfg, a)]
  {
    hide Detected, Delivered, CellsKept, Rank;
    DetectedInDxe(q, h);
    DeliveredValue(q, h, count, a);
    HeldCell(TakenOver(q), Detected(TakenOver(q), h), 1 + Rank(q.cfg, a));
  }

  ghost predicate NoUnmanagedBelow(l: Layout, a: nat)
  {
    forall b: nat :: l.first <= b < a ==> b !in l.unmanaged
  }

  /** A register's rank is its position exactly when no unmanaged register comes before it. */
  lemma {:induction false} RankIsPosition(l: Layout, a: nat)
    requires l.first <= a
    ensures Rank(l, a) == a - l.first <==> NoUnmanagedBelow(l, a)
    decreases a
  {
    if a > l.first {
      RankIsPosition(l, a - 1);
      assert NoUnmanagedBelow(l, a) <==> NoUnmanagedBelow(l, a - 1) && a - 1 !in l.unmanaged;
    }
  }

  ghost predicate SurvivesHandOver(q: State, h: Hooks, count: nat, a: nat)
    requires q.Valid() && q.hob.HobRecord? && count <= |q.buf| && q.cfg.InRegion(a)
  {
    Delivered(q, h, count).View(a) == q.View(a)
  }

  /** The same manager with another byte in one cell. */
  ghost function Holding(q: State, place: Place, a: nat, b: bv8): (r: State)
    requires q.Valid() && q.Has(place, a)
    ensures r.Valid() && r.cfg == q.cfg && r.status == q.status && r.hob == q.hob && |r.buf| == |q.buf|
  {
    q.Put(place, a, b)
  }

  /** With no unmanaged register before it, a checksummed register keeps its value across the phases. */
  lemma AlignedRegisterSurvives(q: State, h: Hooks, count: nat, a: nat)
    requires ToBeFlushed(q, h, count)
    requires q.cfg.Summed(a) && 1 + Rank(q.cfg, a) < count && NoUnmanagedBelow(q.cfg, a)
    ensures SurvivesHandOver(q, h, count, a)
  {
    hide Delivered, Rank;
    RankIsPosition(q.cfg, a);
    assert Untouched(q, a);
    DeliveredRegister(q, h, count, a);
  }

  /** Detection leaves one of two bytes in another cell, whatever this one holds. */
  lemma OneOfTwoBytes(q: State, h: Hooks, place: Place, a: nat, b: bv8, i: nat)
    requires AtHandOver(q) && q.Has(place, a) && Untouched(q, a)
    requires i < |q.buf| && (place == Buffer ==> i != a - q.cfg.first + 1)
    ensures var s := TakenOver(q);
      Detected(TakenOver(Holding(q, place, a, b)), h).buf[i] in
      {DetectedAs(s, h, true).buf[i], DetectedAs(s, h, false).buf[i]}
  {
    hide Detected, DetectedAs, Polled, Layout.Valid;
    var s := TakenOver(q);
    assert TakenOver(Holding(q, place, a, b)) == s.Put(place, a, b);
    DetectedIsOneOfTwo(s.Put(place, a, b), h);
    DetectedAsCommutes(s, place, a, b, h, true);
    DetectedAsCommutes(s, place, a, b, h, false);
  }

  /** There are more than two bytes. */
  lemma ThirdByte(x: bv8, y: bv8) returns (b: bv8)
    ensures b != x && b != y
  {
    b := if x != 0 && y != 0 then 0 else if x != 1 && y != 1 then 1 else 2;
  }

  lemma HoldingIsToBeFlushed(q: State, h: Hooks, count: nat, place: Place, a: nat, b: bv8)
    requires ToBeFlushed(q, h, count) && q.Has(place, a)
    ensures ToBeFlushed(Holding(q, place, a, b), h, count)
  {
  }

  /** With an unmanaged register before it, some byte buffered for the register is lost. */
  lemma ShiftedRegisterIsLost(q: State, h: Hooks, count: nat, a: nat) returns (b: bv8)
    requires ToBeFlushed(q, h, count)
    requires q.cfg.Summed(a) && 1 + Rank(q.cfg, a) < count && !NoUnmanagedBelow(q.cfg, a)
    ensures !SurvivesHandOver(Holding(q, Buffer, a, b), h, count, a)
  {
    hide Delivered, Detected, DetectedAs, Rank, ToBeFlushed, AtHandOver;
    FlushFacts(q, h, count);
    RankIsPosition(q.cfg, a);
    var i, s := 1 + Rank(q.cfg, a), TakenOver(q);
    b := ThirdByte(DetectedAs(s, h, true).buf[i], DetectedAs(s, h, false).buf[i]);
    OneOfTwoBytes(q, h, Buffer, a, b, i);
    HoldingIsToBeFlushed(q, h, count, Buffer, a, b);
    ShownWhenBuffering(q, a, b);
    DeliveredValue(Holding(q, Buffer, a, b), h, count, a);
  }

  lemma FlushFacts(q: State, h: Hooks, count: nat)
    requires ToBeFlushed(q, h, count)
    ensures q.Valid() && q.hob.HobRecord? && AtHandOver(q) && count <= |q.buf| && OptimalDefaultsEnabled in q.status
  {
  }

  lemma ShownWhenBuffering(q: State, a: nat, b: bv8)
    requires AtHandOver(q) && q.cfg.Summed(a)
    ensures Holding(q, Buffer, a, b).View(a) == b
    ensures Untouched(q, a) && !q.cfg.IsChecksumRegister(a)
  {
  }

  /** Past the defaults, a byte that the register itself does not hold is lost. */
  lemma UnlistedRegisterIsLost(q: State, h: Hooks, count: nat, a: nat)
    requires ToBeFlushed(q, h, count) && q.cfg.Summed(a) && 1 + Rank(q.cfg, a) >= count
    ensures a < REGISTER_SPACE && !SurvivesHandOver(Holding(q, Buffer, a, !q.phys[a]), h, count, a)
  {
    hide Delivered, Detected, Rank, ToBeFlushed, AtHandOver;
    FlushFacts(q, h, count);
    InSpace(q.cfg, a);
    var b := !q.phys[a];
    HoldingIsToBeFlushed(q, h, count, Buffer, a, b);
    ShownWhenBuffering(q, a, b);
    DeliveredValue(Holding(q, Buffer, a, b), h, count, a);
    ComplementDiffers(q.phys[a]);
  }

  lemma ComplementDiffers(b: bv8)
    ensures !b != b
  {
  }

  /**
   Buffered accesses index by position, the flush by rank among managed registers.
   A checksummed register survives the hand-over whatever byte was buffered for
   it if and only if no unmanaged register comes before it in the region and the
   table has a default for it.
   */
  lemma SurvivesExactlyWhenAligned(q: State, h: Hooks, count: nat, a: nat)
    requires ToBeFlushed(q, h, count) && q.cfg.Summed(a)
    ensures (forall b: bv8 :: SurvivesHandOver(Holding(q, Buffer, a, b), h, count, a))
            <==> NoUnmanagedBelow(q.cfg, a) && 1 + Rank(q.cfg, a) < count
  {
    hide SurvivesHandOver, Rank, NoUnmanagedBelow;
    if 1 + Rank(q.cfg, a) >= count {
      UnlistedRegisterIsLost(q, h, count, a);
    } else if NoUnmanagedBelow(q.cfg, a) {
      forall b: bv8
        ensures SurvivesHandOver(Holding(q, Buffer, a, b), h, count, a)
      {
        HoldingIsToBeFlushed(q, h, count, Buffer, a, b);
        AlignedRegisterSurvives(Holding(q, Buffer, a, b), h, count, a);
      }
    } else {
      var b := ShiftedRegisterIsLost(q, h, count, a);
    }
  }

  // ------------------------------------------------------- registers off the checksum

  /** Recovery limited to checksummed registers, which sends the others to the hardware. */
  ghost predicate Restricted(q: State)
  {
    IsUsable in q.status && RecoverOnlyChecksummed in q.status
  }

  /** A managed register that the checksum leaves out. */
  ghost predicate OffChecksum(q: State, a: nat)
  {
    q.cfg.InRegion(a) && a in q.cfg.noChecksum && a !in q.cfg.unmanaged && !q.cfg.IsChecksumRegister(a) && Untouched(q, a)
  }

  /** What keeps the flush to the checksummed registers: the policy, a wrong checksum, and no first boot. */
  ghost predicate RestrictionHolds(q: State, h: Hooks)
    requires q.Valid()
  {
    && (RecoverOnlyChecksummed in q.status || h.recoverOnlyChecksummed)
    && !Rerouted(q, h).Coherent() && !h.firstBoot && FirstBootDetected !in q.status
  }

  /** Under a restriction from PEI on, the checksum in question is the one PEI left. */
  lemma RestrictionSeenInPei(q: State, h: Hooks)
    requires q.Valid() && Restricted(q) && h.usable
    ensures RestrictionHolds(q, h) <==> !q.Coherent() && !h.firstBoot && FirstBootDetected !in q.status
  {
    hide State.Coherent, Layout.Valid;
    ViewIgnoresOtherBits(q, Rerouted(q, h));
    AgreeingIsQuiet(q, Rerouted(q, h));
    QuietKeepsCoherence(q, Rerouted(q, h));
  }

  lemma AgreeingIsQuiet(s: State, t: State)
    requires s.Valid() && t.Valid() && SameRouting(s, t) && AgreeOff(s, t, {})
    ensures Quiet(s, t)
  {
  }

  /** The flush skips what the restriction says exactly when it holds. */
  lemma SkipsWhenRestrictionHolds(q: State, h: Hooks)
    requires AtHandOver(q) && h.usable
    ensures SkipsUnchecked(Detected(TakenOver(q), h)) <==> RestrictionHolds(q, h)
  {
    hide Detected, CellsKept, State.Coherent, Rerouted, Quiet, Layout.Valid;
    DetectedInDxe(q, h);
    DetectedSees(q, h);
  }

  /** What is left in a register off the checksum, by whether the restriction holds. */
  lemma OffChecksumDelivered(q: State, h: Hooks, count: nat, a: nat)
    requires ToBeFlushed(q, h, count) && OffChecksum(q, a)
    requires 1 + Rank(q.cfg, a) < count && Untouched(q, FlushedFrom(q.cfg, a))
    ensures a < REGISTER_SPACE
    ensures q.View(a) == if Restricted(q) then q.phys[a] else q.buf[a - q.cfg.first + 1]
    ensures Delivered(q, h, count).View(a) == if RestrictionHolds(q, h) then q.phys[a] else q.buf[1 + Rank(q.cfg, a)]
  {
    hide Delivered, Detected, Rank, RestrictionHolds, CellsKept;
    DetectedInDxe(q, h);
    SkipsWhenRestrictionHolds(q, h);
    DeliveredValue(q, h, count, a);
    HeldCell(TakenOver(q), Detected(TakenOver(q), h), 1 + Rank(q.cfg, a));
  }

  /** What the register holds, in either place, has no part in whether the checksum is right. */
  lemma HoldingKeepsRestriction(q: State, h: Hooks, place: Place, a: nat, b: bv8)
    requires q.Valid() && OffChecksum(q, a) && q.Has(place, a)
    ensures RestrictionHolds(Holding(q, place, a, b), h) <==> RestrictionHolds(q, h)
  {
    hide State.Coherent;
    var w := Rerouted(q, h);
    PutAgrees(w, place, a, b);
    ChecksumRegisters(q.cfg);
    CoherentFollowsViews(w, w.Put(place, a, b));
    assert Rerouted(Holding(q, place, a, b), h) == w.Put(place, a, b);
  }

  /** The place that PEI reads the register from. */
  lemma HoldingOffChecksum(q: State, a: nat, b: bv8)
    requires q.Valid() && OffChecksum(q, a) && a < REGISTER_SPACE && OptimalDefaultsEnabled in q.status
    ensures q.Route(a) == if Restricted(q) then Hardware else Buffer
    ensures var r := Holding(q, q.Route(a), a, b);
      && (Restricted(r) <==> Restricted(q)) && OffChecksum(r, a) && r.View(a) == b
      && (Restricted(q) ==> r.phys[a] == b && r.buf == q.buf)
      && (!Restricted(q) ==> r.phys == q.phys && r.buf[a - q.cfg.first + 1] == b)
  {
  }

  /** The restriction holds, or the table has no default for the register: the flush leaves it alone. */
  ghost predicate LeftAlone(q: State, h: Hooks, count: nat, a: nat)
    requires q.Valid() && q.cfg.InRegion(a)
  {
    RestrictionHolds(q, h) || 1 + Rank(q.cfg, a) >= count
  }

  /** What the flush leaves in the register when PEI read another byte from it. */
  lemma OffChecksumHolding(q: State, h: Hooks, count: nat, a: nat, b: bv8)
    requires ToBeFlushed(q, h, count) && OffChecksum(q, a) && a < REGISTER_SPACE
    ensures var r := Holding(q, q.Route(a), a, b);
      && ToBeFlushed(r, h, count) && r.View(a) == b
      && Delivered(r, h, count).View(a) ==
         if LeftAlone(q, h, count, a) then r.phys[a] else Detected(TakenOver(r), h).buf[1 + Rank(q.cfg, a)]
  {
    hide Delivered, Detected, Rank, RestrictionHolds, ToBeFlushed, Restricted;
    FlushFacts(q, h, count);
    HoldingOffChecksum(q, a, b);
    var r := Holding(q, q.Route(a), a, b);
    HoldingIsToBeFlushed(q, h, count, q.Route(a), a, b);
    FlushFacts(r, h, count);
    HoldingKeepsRestriction(q, h, q.Route(a), a, b);
    SkipsWhenRestrictionHolds(r, h);
    DeliveredValue(r, h, count, a);
  }

  /** Some byte is lost when the register is overwritten from another cell than the one PEI read it from. */
  lemma OverwrittenRegisterIsLost(q: State, h: Hooks, count: nat, a: nat) returns (b: bv8)
    requires ToBeFlushed(q, h, count) && OffChecksum(q, a) && a < REGISTER_SPACE && !LeftAlone(q, h, count, a)
    requires Restricted(q) || !NoUnmanagedBelow(q.cfg, a)
    ensures !SurvivesHandOver(Holding(q, q.Route(a), a, b), h, count, a)
  {
    hide Delivered, Detected, DetectedAs, Rank, RestrictionHolds, ToBeFlushed, AtHandOver;
    FlushFacts(q, h, count);
    RankIsPosition(q.cfg, a);
    HoldingOffChecksum(q, a, 0);
    var i, s := 1 + Rank(q.cfg, a), TakenOver(q);
    b := ThirdByte(DetectedAs(s, h, true).buf[i], DetectedAs(s, h, false).buf[i]);
    OneOfTwoBytes(q, h, q.Route(a), a, b, i);
    OffChecksumHolding(q, h, count, a, b);
  }

  /**
   A register off the checksum that PEI read from the hardware survives the flush
   whatever it holds if and only if DXE finds the checksum wrong on no first boot,
   or the table has no default for it. In particular the flush of a buffer whose
   checksum is right overwrites it.
   */
  lemma OffChecksumSurvivesExactly(q: State, h: Hooks, count: nat, a: nat)
    requires ToBeFlushed(q, h, count) && Restricted(q) && OffChecksum(q, a)
    ensures a < REGISTER_SPACE
    ensures (forall b: bv8 :: SurvivesHandOver(Holding(q, Hardware, a, b), h, count, a))
            <==> RestrictionHolds(q, h) || 1 + Rank(q.cfg, a) >= count
  {
    hide Delivered, Detected, Rank, RestrictionHolds, ToBeFlushed, AtHandOver;
    FlushFacts(q, h, count);
    InSpace(q.cfg, a);
    HoldingOffChecksum(q, a, 0);
    if LeftAlone(q, h, count, a) {
      forall b: bv8
        ensures SurvivesHandOver(Holding(q, Hardware, a, b), h, count, a)
      {
        HoldingOffChecksum(q, a, b);
        OffChecksumHolding(q, h, count, a, b);
      }
    } else {
      var b := OverwrittenRegisterIsLost(q, h, count, a);
    }
  }

  /**
   One that PEI read from the buffer survives whatever byte was buffered for it if
   and only if the restriction does not hold, no unmanaged register comes before
   it and the table has a default for it.
   */
  lemma BufferedOffChecksumSurvivesExactly(q: State, h: Hooks, count: nat, a: nat)
    requires ToBeFlushed(q, h, count) && !Restricted(q) && OffChecksum(q, a)
    ensures (forall b: bv8 :: SurvivesHandOver(Holding(q, Buffer, a, b), h, count, a))
            <==> !RestrictionHolds(q, h) && NoUnmanagedBelow(q.cfg, a) && 1 + Rank(q.cfg, a) < count
  {
    hide Delivered, Detected, Rank, RestrictionHolds, ToBeFlushed, AtHandOver, NoUnmanagedBelow;
    FlushFacts(q, h, count);
    InSpace(q.cfg, a);
    HoldingOffChecksum(q, a, 0);
    if LeftAlone(q, h, count, a) {
      var b := !q.phys[a];
      ComplementDiffers(q.phys[a]);
      HoldingOffChecksum(q, a, b);
      OffChecksumHolding(q, h, count, a, b);
    } else if NoUnmanagedBelow(q.cfg, a) {
      forall b: bv8
        ensures SurvivesHandOver(Holding(q, Buffer, a, b), h, count, a)
      {
        OwnCellFlushed(q, h, count, a, b);
      }
    } else {
      var b := OverwrittenRegisterIsLost(q, h, count, a);
    }
  }

  lemma OwnCellFlushed(q: State, h: Hooks, count: nat, a: nat, b: bv8)
    requires ToBeFlushed(q, h, count) && !Restricted(q) && OffChecksum(q, a) && a < REGISTER_SPACE
    requires !LeftAlone(q, h, count, a) && NoUnmanagedBelow(q.cfg, a)
    ensures SurvivesHandOver(Holding(q, Buffer, a, b), h, count, a)
  {
    hide Delivered, Detected, Rank, RestrictionHolds, ToBeFlushed, CellsKept;
    FlushFacts(q, h, count);
    RankIsPosition(q.cfg, a);
    HoldingOffChecksum(q, a, b);
    OffChecksumHolding(q, h, count, a, b);
    var r := Holding(q, Buffer, a, b);
    FlushFacts(r, h, count);
    DetectedInDxe(r, h);
    HeldCell(TakenOver(r), Detected(TakenOver(r), h), a - q.cfg.first + 1);
  }

  // ------------------------------------------------------------------ nothing to flush

  /** Without the buffer, DXE leaves the checksum and every checksummed register as PEI left them. */
  lemma NothingToFlush(q: State, h: Hooks, count: nat)
    requires q.Valid() && q.hob.HobRecord? && HobFollows(q) && count <= |q.buf|
    requires OptimalDefaultsEnabled !in q.status && ForceNoChecksum !in q.status
    ensures var r := Delivered(q, h, count);
      && OptimalDefaultsEnabled !in r.status && ForceNoChecksum !in r.status
      && (r.Coherent() <==> q.Coherent())
      && forall a: nat {:trigger r.View(a)} :: q.cfg.Summed(a) ==> r.View(a) == q.View(a)
  {
    hide Detected, Installed, State.Coherent, State.View, CellsKept, Quiet, Layout.Valid, Flushed;
    var s := TakenOver(q);
    var d := Detected(s, h);
    DetectedFacts(s, h);
    OnHardwareAgrees(q, d);
    InstalledIsQuiet(d, h.installs);
    QuietKeepsCoherence(d, Installed(d, h.installs));
  }

  lemma OnHardwareAgrees(q: State, d: State)
    requires q.Valid() && q.hob.HobRecord? && d.Valid() && CellsKept(TakenOver(q), d)
    requires OptimalDefaultsEnabled !in q.status && OptimalDefaultsEnabled !in d.status
    ensures AgreeOnSummed(q, d) && (d.Coherent() <==> q.Coherent())
  {
    forall a: nat | q.cfg.InRegion(a) && a !in StatusRegisters(q)
      ensures d.View(a) == q.View(a)
    {
      assert Untouched(TakenOver(q), a);
    }
    CoherentFollowsViews(q, d);
  }
}
