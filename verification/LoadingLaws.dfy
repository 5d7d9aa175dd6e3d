/** What loading the optimal defaults leaves in the registers and the status word. */
module LoadingLaws {
  import opened Bytes
  import opened TokenCodec
  import opened CmosStore
  import opened StoreLaws
  import opened Requests
  import opened OptimalDefaults

  /** The manager with every access sent to the hardware. */
  ghost function OnHardware(s: State): (h: State)
    requires s.Valid()
    ensures h.Valid() && h.cfg == s.cfg && h.phys == s.phys
    ensures forall a: nat {:trigger h.View(a)} :: s.cfg.InRegion(a) ==> h.View(a) == s.phys[a]
  {
    s.(status := s.status - {OptimalDefaultsEnabled})
  }

  lemma PreparedFacts(s: State)
    requires s.Valid()
    ensures var p := Prepared(s);
      && p.buf == s.buf && CellsKept(s, p)
      && p.status == s.status - {OptimalDefaultsEnabled} + {ForceNoChecksum}
                     - (if FirstBootDetected in s.status then {BadChecksum} else {})
  {
    hide State.SetBits, State.ClearBits, Layout.Valid;
    ClearSilently(s, {OptimalDefaultsEnabled});
    var s1 := s.ClearBits({OptimalDefaultsEnabled});
    SetSilently(s1, {ForceNoChecksum});
    var s2 := s1.SetBits({ForceNoChecksum});
    ClearBitsIsQuiet(s2, {BadChecksum});
    ClearBitsKeepsCells(s2, {BadChecksum});
  }

  lemma CheckedFacts(s: State)
    requires s.Valid()
    ensures Quiet(s, s.Checked())
    ensures s.Checked().status - {AddressIsChecksummed, BadChecksum} == s.status - {AddressIsChecksummed, BadChecksum}
    ensures s.Coherent() ==> s.Checked().status == s.status - {BadChecksum}
    ensures !s.Coherent() ==> BadChecksum in s.Checked().status
  {
    hide Layout.Valid;
    if s.Coherent() {
      ClearBitsIsQuiet(s, {BadChecksum});
    } else {
      SetBitsIsQuiet(s, {BadChecksum});
      assert BadChecksum in s.Checked().status - {AddressIsChecksummed};
    }
  }

  /** Summing and storing makes any state coherent. */
  lemma ResummedFacts(s: State)
    requires s.Valid()
    ensures var r := Resummed(s);
      && r.Coherent() && SameRouting(s, r)
      && r.status - {AddressIsChecksummed, BadChecksum} ==
         s.status - {ForceNoChecksum, AddressIsChecksummed, BadChecksum}
      && AgreeOff(s, r, StatusRegisters(s) + {Address(s.cfg.checksumHigh), Address(s.cfg.checksumLow)})
  {
    hide State.Checked, State.PutChecksum, State.FullSum, State.Stored;
    var c := s.Checked();
    CheckedFacts(s);
    QuietKeepsCoherence(s, c);
    PutChecksumStores(c, s.FullSum());
    StoredSumIsSettled(c, c.PutChecksum(s.FullSum()));
    var two: Status := {AddressIsChecksummed, BadChecksum};
    assert c.status - {ForceNoChecksum} - two == c.status - two - {ForceNoChecksum};
  }

  /** The sum that is stored is the sum of what is left. */
  lemma ResummedSum(s: State)
    requires s.Valid()
    ensures Resummed(s).FullSum() == s.FullSum() && Resummed(s).Stored() == s.FullSum()
  {
    hide State.Checked, State.PutChecksum, State.FullSum, State.Stored, AgreeOff, Layout.Valid;
    ResummedFacts(s);
    PutChecksumStores(s.Checked(), s.FullSum());
  }

  lemma ApprovedFacts(s: State)
    requires s.Valid()
    ensures var r := Approved(s);
      && r.Coherent() && SameRouting(s, r)
      && (forall f :: f != AddressIsChecksummed ==>
            (f in r.status <==> f in s.status && f != ForceNoChecksum && f != BadChecksum))
      && AgreeOff(s, r, StatusRegisters(s) + {Address(s.cfg.checksumHigh), Address(s.cfg.checksumLow)})
  {
    var c := Resummed(s);
    ResummedFacts(s);
    ClearBitsIsQuiet(c, {BadChecksum});
    QuietKeepsCoherence(c, Approved(s));
    forall f | f != AddressIsChecksummed && f != BadChecksum
      ensures f in c.status <==> f in s.status && f != ForceNoChecksum
    {
      assert f in c.status <==> f in c.status - {AddressIsChecksummed, BadChecksum};
    }
  }

  lemma ClosedStatus(s: State, saved: Status)
    requires s.Valid() && saved <= {OptimalDefaultsEnabled}
    ensures forall f :: f != AddressIsChecksummed ==>
              (f in Closed(s, saved).status <==>
               f == DefaultsLoaded || (f != ForceNoChecksum && (f in s.status || f in saved)))
  {
    hide State.SetBits, State.ClearBits;
    var s1 := s.(status := s.status + saved);
    ClearSilently(s1, {ForceNoChecksum});
    var s2 := s1.ClearBits({ForceNoChecksum});
    SetBitsIsQuiet(s2, {DefaultsLoaded});
    forall f | f != AddressIsChecksummed
      ensures f in Closed(s, saved).status <==> f == DefaultsLoaded || f in s2.status
    {
      assert f in Closed(s, saved).status <==> f in Closed(s, saved).status - {AddressIsChecksummed};
    }
  }

  lemma ClosedCells(s: State, saved: Status)
    requires s.Valid()
    ensures CellsKept(s, Closed(s, saved))
  {
    hide State.SetBits, State.ClearBits;
    var s1 := s.(status := s.status + saved);
    assert CellsKept(s, s1);
    ClearBitsKeepsCells(s1, {ForceNoChecksum});
    var s2 := s1.ClearBits({ForceNoChecksum});
    CellsKeptTransitive(s, s1, s2);
    SetBitsKeepsCells(s2, {DefaultsLoaded});
    CellsKeptTransitive(s, s2, Closed(s, saved));
  }

  /** The registers stay as coherent as they were. */
  lemma HardwareCoherence(s: State, r: State)
    requires s.Valid() && r.Valid() && CellsKept(s, r) && OptimalDefaultsEnabled !in s.status
    ensures OnHardware(r).Coherent() <==> s.Coherent()
  {
    CoherentFollowsViews(s, OnHardware(r));
  }

  /** What a load skips: on recovery of the checksummed registers only, and not on a first boot. */
  predicate SkipsUnchecked(s: State)
  {
    BadChecksum in s.status && RecoverOnlyChecksummed in s.status && FirstBootDetected !in s.status
  }

  lemma StockedFacts(s: State, count: nat)
    requires s.Valid() && count <= |s.buf|
    ensures var r := Stocked(s, count);
      && r.buf == s.buf && OptimalDefaultsEnabled !in r.status
      && r.status == Prepared(s).status && r.dxe == s.dxe
      && forall a: nat {:trigger r.phys[a]} :: a < REGISTER_SPACE && Untouched(s, a) ==>
           r.phys[a] == if Loads(s.cfg, count, SkipsUnchecked(s), a) then s.buf[1 + Rank(s.cfg, a)] else s.phys[a]
  {
    hide Prepared, Loads, Rank;
    PreparedFacts(s);
    LoadsManaged(s.cfg, count, SkipsUnchecked(s));
  }

  lemma LoadsManaged(l: Layout, count: nat, skipping: bool)
    ensures forall a: nat :: Loads(l, count, skipping, a) ==> l.InRegion(a)
  {
  }

  /**
   The whole load. Every managed register with a default gets it, the one at its
   rank; unmanaged ones, ones past the table and skipped ones keep their value.
   */
  lemma LoadedRegister(s: State, count: nat, a: nat)
    requires s.Valid() && count <= |s.buf|
    requires a < REGISTER_SPACE && Untouched(s, a) && !s.cfg.IsChecksumRegister(a)
    ensures Loaded(s, count).phys[a] ==
            if Loads(s.cfg, count, SkipsUnchecked(s), a) then s.buf[1 + Rank(s.cfg, a)] else s.phys[a]
  {
    hide Stocked, Approved, Closed, Loads, Rank, Layout.Valid;
    var s1 := Stocked(s, count);
    StockedFacts(s, count);
    ApprovedCell(s1, a);
    var s2 := if ErrorLoadingDefaults in s1.status then s1 else Approved(s1);
    ClosedCells(s2, s.status * {OptimalDefaultsEnabled});
  }

  /** The same, with nothing taken from the definitions: which registers are loaded, and from where. */
  lemma LoadedByCount(s: State, count: nat, a: nat)
    requires s.Valid() && count <= |s.buf|
    requires a < REGISTER_SPACE && Untouched(s, a) && !s.cfg.IsChecksumRegister(a)
    ensures var place := 1 + |ManagedBelow(s.cfg, a)|;
      Loaded(s, count).phys[a] ==
      if s.cfg.first <= a <= s.cfg.last && a !in s.cfg.unmanaged && place < count
         && !(a in s.cfg.noChecksum && BadChecksum in s.status && RecoverOnlyChecksummed in s.status
              && FirstBootDetected !in s.status)
      then s.buf[place] else s.phys[a]
  {
    hide Loaded, Rank, Layout.Valid;
    LoadedRegister(s, count, a);
    if s.cfg.first <= a {
      RankCounts(s.cfg, a);
    }
  }

  lemma ApprovedCell(s: State, a: nat)
    requires s.Valid() && a < REGISTER_SPACE && Untouched(s, a) && !s.cfg.IsChecksumRegister(a)
    ensures Approved(s).phys[a] == s.phys[a]
  {
    hide State.Checked, State.ClearBits, State.PutChecksum, CellsKept, Layout.Valid;
    ResummedCell(s, a);
    var r := Resummed(s);
    ClearBitsKeepsCells(r, {BadChecksum});
    KeptRegister(r, Approved(s), a);
  }

  /** Summing and storing writes, of the registers, only status tokens' and the checksum's. */
  lemma ResummedCell(s: State, a: nat)
    requires s.Valid() && a < REGISTER_SPACE && Untouched(s, a) && !s.cfg.IsChecksumRegister(a)
    ensures Resummed(s).phys[a] == s.phys[a]
  {
    hide State.Checked, State.FullSum, CellsKept, Layout.Valid;
    CheckedKeepsCells(s);
    KeptRegister(s, s.Checked(), a);
    PutChecksumElsewhere(s.Checked(), s.FullSum(), a);
  }

  lemma CheckedKeepsCells(s: State)
    requires s.Valid()
    ensures CellsKept(s, s.Checked())
  {
    hide State.SetBits, State.ClearBits;
    SetBitsKeepsCells(s, {BadChecksum});
    ClearBitsKeepsCells(s, {BadChecksum});
  }

  lemma KeptRegister(s: State, r: State, a: nat)
    requires s.Valid() && r.Valid() && CellsKept(s, r) && a < REGISTER_SPACE && Untouched(s, a)
    ensures r.phys[a] == s.phys[a] && Untouched(r, a)
  {
  }

  lemma PutChecksumElsewhere(s: State, sum: nat, a: nat)
    requires s.Valid() && sum < WORD && a < REGISTER_SPACE && !s.cfg.IsChecksumRegister(a)
    ensures s.PutChecksum(sum).phys[a] == s.phys[a]
  {
    hide Low, High;
    ChecksumRegisters(s.cfg);
  }

  /**
   A load that succeeds leaves the physical registers with the right checksum,
   whatever they and the status held, and lowers the two flags it used.
   */
  lemma LoadedIsCoherent(s: State, count: nat)
    requires s.Valid() && count <= |s.buf| && LoadOutcome(s) == Success
    ensures var r := Loaded(s, count);
      && OnHardware(r).Coherent()
      && BadChecksum !in r.status && ForceNoChecksum !in r.status && DefaultsLoaded in r.status
      && (OptimalDefaultsEnabled in r.status <==> OptimalDefaultsEnabled in s.status)
  {
    hide Stocked, Approved, Closed, Prepared, State.Valid, Layout.Valid;
    StockedFacts(s, count);
    PreparedFacts(s);
    ApprovedThenClosed(Stocked(s, count), s.status * {OptimalDefaultsEnabled});
  }

  lemma ApprovedThenClosed(s: State, saved: Status)
    requires s.Valid() && OptimalDefaultsEnabled !in s.status && saved <= {OptimalDefaultsEnabled}
    ensures var r := Closed(Approved(s), saved);
      && OnHardware(r).Coherent()
      && BadChecksum !in r.status && ForceNoChecksum !in r.status && DefaultsLoaded in r.status
      && (OptimalDefaultsEnabled in r.status <==> OptimalDefaultsEnabled in saved)
  {
    hide Approved, Closed, State.Valid, Layout.Valid;
    var a := Approved(s);
    ApprovedFacts(s);
    ClosedCells(a, saved);
    ClosedStatus(a, saved);
    HardwareCoherence(a, Closed(a, saved));
  }

  /** With hardware routing, the next check finds the checksum right and says so. */
  lemma CheckAfterLoad(s: State, count: nat)
    requires s.Valid() && count <= |s.buf| && LoadOutcome(s) == Success
    requires OptimalDefaultsEnabled !in s.status
    ensures Loaded(s, count).Coherent()
    ensures BadChecksum !in Loaded(s, count).Checked().status
  {
    LoadedIsCoherent(s, count);
    var r := Loaded(s, count);
    assert OnHardware(r) == r by {
      assert r.status - {OptimalDefaultsEnabled} == r.status;
    }
    CheckedFacts(r);
  }
}
