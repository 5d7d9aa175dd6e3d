/** How each elementary operation changes the routed view and the checksum. */
module StoreLaws {
  import opened Bytes
  import opened TokenCodec
  import opened CmosStore

  /** The two states send every access to the same place. */
  ghost predicate SameRouting(s: State, t: State)
  {
    && t.cfg == s.cfg
    && (OptimalDefaultsEnabled in t.status <==> OptimalDefaultsEnabled in s.status)
    && (IsUsable in t.status <==> IsUsable in s.status)
    && (RecoverOnlyChecksummed in t.status <==> RecoverOnlyChecksummed in s.status)
  }

  /** The routed views agree on the managed registers outside a set. */
  ghost predicate AgreeOff(s: State, t: State, changed: set<nat>)
    requires s.Valid() && t.Valid() && s.cfg == t.cfg
  {
    forall c {:trigger t.View(c)} :: s.cfg.InRegion(c) && c !in changed ==> t.View(c) == s.View(c)
  }

  /** Status words that agree apart from the scratch flag of the checksum code. */
  lemma SameFlags(s: Status, t: Status)
    requires s - {AddressIsChecksummed} == t - {AddressIsChecksummed}
    ensures forall f :: f != AddressIsChecksummed ==> (f in s <==> f in t)
  {
    forall f | f != AddressIsChecksummed
      ensures f in s <==> f in t
    {
      assert f in s <==> f in s - {AddressIsChecksummed};
    }
  }

  ghost predicate AgreeOnSummed(s: State, t: State)
    requires s.Valid() && t.Valid() && s.cfg == t.cfg
  {
    forall c {:trigger t.View(c)} :: s.cfg.Summed(c) ==> t.View(c) == s.View(c)
  }

  // ------------------------------------------------------------------ single cells

  /** The routed store behaves as one flat array under a write. */
  lemma ViewAfterPut(s: State, place: Place, a: nat, b: bv8, c: nat)
    requires s.Valid() && s.Has(place, a) && s.cfg.InRegion(c)
    ensures s.Put(place, a, b).View(c) == if c == a && place == s.Route(a) then b else s.View(c)
  {
  }

  lemma PutAgrees(s: State, place: Place, a: nat, b: bv8)
    requires s.Valid() && s.Has(place, a)
    ensures SameRouting(s, s.Put(place, a, b))
    ensures AgreeOff(s, s.Put(place, a, b), {a})
    ensures s.cfg.InRegion(a) ==>
              s.Put(place, a, b).View(a) == if place == s.Route(a) then b else s.View(a)
  {
    forall c | s.cfg.InRegion(c) && c != a
      ensures s.Put(place, a, b).View(c) == s.View(c)
    {
      ViewAfterPut(s, place, a, b, c);
    }
    if s.cfg.InRegion(a) {
      ViewAfterPut(s, place, a, b, a);
    }
  }

  /** The view depends on the cells and the routing bits only. */
  lemma ViewIgnoresOtherBits(s: State, t: State)
    requires s.Valid() && t.Valid() && SameRouting(s, t) && t.phys == s.phys && t.buf == s.buf
    ensures AgreeOff(s, t, {})
  {
  }

  // ---------------------------------------------------------------------- the sum

  lemma {:induction false} SumDependsOnSummed(s: State, t: State, end: nat)
    requires s.Valid() && t.Valid() && s.cfg == t.cfg && AgreeOnSummed(s, t)
    requires s.cfg.first <= end <= s.cfg.last + 1
    ensures t.SumBelow(end) == s.SumBelow(end)
    decreases end
  {
    if end > s.cfg.first {
      SumDependsOnSummed(s, t, end - 1);
    }
  }

  /** Changing one checksummed register moves the sum by its change. */
  lemma {:induction false} SumMovesByChange(s: State, t: State, a: nat, end: nat)
    requires s.Valid() && t.Valid() && s.cfg == t.cfg && s.cfg.Summed(a)
    requires forall c {:trigger t.View(c)} :: s.cfg.Summed(c) && c != a ==> t.View(c) == s.View(c)
    requires s.cfg.first <= end <= s.cfg.last + 1
    ensures t.SumBelow(end) ==
            s.SumBelow(end) + if a < end then t.View(a) as int - s.View(a) as int else 0
    decreases end
  {
    if end > s.cfg.first {
      SumMovesByChange(s, t, a, end - 1);
    }
  }

  /** A register counts for the sum when it is on neither list, and then with its value. */
  lemma SumCountsExactly(s: State, a: nat, b: bv8)
    requires s.Valid() && s.cfg.InRegion(a)
    ensures s.PutRouted(a, b).SumBelow(s.cfg.last + 1) ==
            s.SumBelow(s.cfg.last + 1) +
            if a !in s.cfg.noChecksum && a !in s.cfg.unmanaged then b as int - s.View(a) as int else 0
  {
    hide State.View, State.Put, Layout.Valid;
    InSpace(s.cfg, a);
    PutAgrees(s, s.Route(a), a, b);
    if s.cfg.Summed(a) {
      SumMovesByChange(s, s.PutRouted(a, b), a, s.cfg.last + 1);
    } else {
      SumDependsOnSummed(s, s.PutRouted(a, b), s.cfg.last + 1);
    }
  }

  lemma {:induction false} SumOfZeros(s: State, end: nat)
    requires s.Valid() && s.cfg.first <= end <= s.cfg.last + 1
    requires forall a: nat :: s.cfg.InRegion(a) ==> s.View(a) == 0
    ensures s.SumBelow(end) == 0
    decreases end
  {
    if end > s.cfg.first {
      SumOfZeros(s, end - 1);
    }
  }

  lemma CoherentFollowsViews(s: State, t: State)
    requires s.Valid() && t.Valid() && s.cfg == t.cfg && AgreeOnSummed(s, t)
    requires t.View(Address(s.cfg.checksumHigh)) == s.View(Address(s.cfg.checksumHigh))
    requires t.View(Address(s.cfg.checksumLow)) == s.View(Address(s.cfg.checksumLow))
    ensures t.Coherent() <==> s.Coherent()
    ensures t.FullSum() == s.FullSum() && t.Stored() == s.Stored()
  {
    SumDependsOnSummed(s, t, s.cfg.last + 1);
  }

  // --------------------------------------------------------------- status changes

  /** The registers of the four status tokens. */
  ghost function StatusRegisters(s: State): set<nat>
  {
    {Address(s.cfg.batteryBad), Address(s.cfg.checksumBad),
     Address(s.cfg.defaultsLoaded), Address(s.cfg.firstBoot)}
  }

  /** A status change that leaves routing alone leaves the checksum data alone. */
  ghost predicate Quiet(s: State, t: State)
    requires s.Valid() && t.Valid()
  {
    && SameRouting(s, t)
    && AgreeOff(s, t, StatusRegisters(s))
  }

  lemma QuietTransitive(s: State, t: State, u: State)
    requires s.Valid() && t.Valid() && u.Valid() && Quiet(s, t) && Quiet(t, u)
    ensures Quiet(s, u)
  {
  }

  lemma QuietKeepsCoherence(s: State, t: State)
    requires s.Valid() && t.Valid() && Quiet(s, t)
    ensures AgreeOnSummed(s, t)
    ensures t.Coherent() <==> s.Coherent()
    ensures t.FullSum() == s.FullSum() && t.Stored() == s.Stored()
  {
    CoherentFollowsViews(s, t);
  }

  lemma SyncedIsQuiet(s: State)
    requires s.Valid()
    ensures Quiet(s, s.Synced()) && s.Synced().status == s.status
    ensures s.Synced().phys == s.phys && s.Synced().buf == s.buf
  {
  }

  lemma NotingIsQuiet(s: State, a: nat)
    requires s.Valid()
    ensures Quiet(s, s.NotedIfOn(a))
    ensures s.NotedIfOn(a).phys == s.phys && s.NotedIfOn(a).buf == s.buf
    ensures s.NotedIfOn(a).status - {AddressIsChecksummed} == s.status - {AddressIsChecksummed}
  {
  }

  lemma MarkIfIsQuiet(s: State, bit: bool, t: Token)
    requires s.Valid() && s.cfg.StatusToken(t) && Address(t) in StatusRegisters(s)
    ensures Quiet(s, s.MarkIf(bit, t))
    ensures s.MarkIf(bit, t).status - {AddressIsChecksummed} == s.status - {AddressIsChecksummed}
  {
    if bit {
      var a := Address(t);
      NotingIsQuiet(s, a);
      PutAgrees(s.NotedIfOn(a), s.Route(a), a, Merge(s.View(a), ClobberBits(t), Encode(1, t)));
    }
  }

  lemma ReportIsQuiet(s: State, bits: Status)
    requires s.Valid()
    ensures Quiet(s, s.Report(bits))
    ensures s.Report(bits).status - {AddressIsChecksummed} == s.status - {AddressIsChecksummed}
  {
    var s1 := s.MarkIf(BadBattery in bits, s.cfg.batteryBad);
    var s2 := s1.MarkIf(BadChecksum in bits, s.cfg.checksumBad);
    var s3 := s2.MarkIf(DefaultsLoaded in bits, s.cfg.defaultsLoaded);
    var s4 := s3.MarkIf(FirstBootDetected in bits, s.cfg.firstBoot);
    MarkIfIsQuiet(s, BadBattery in bits, s.cfg.batteryBad);
    MarkIfIsQuiet(s1, BadChecksum in bits, s.cfg.checksumBad);
    MarkIfIsQuiet(s2, DefaultsLoaded in bits, s.cfg.defaultsLoaded);
    MarkIfIsQuiet(s3, FirstBootDetected in bits, s.cfg.firstBoot);
    QuietTransitive(s, s1, s2);
    QuietTransitive(s, s2, s3);
    QuietTransitive(s, s3, s4);
  }

  lemma LegacyStepIsQuiet(s: State, bit: bv8, affected: bool, setting: bool)
    requires s.Valid()
    ensures Quiet(s, s.LegacyStep(bit, affected, setting))
    ensures s.LegacyStep(bit, affected, setting).status == s.status
  {
    PutAgrees(s, Hardware, DIAGNOSTIC_STATUS_REGISTER,
              s.LegacyStep(bit, affected, setting).phys[DIAGNOSTIC_STATUS_REGISTER]);
  }

  lemma LegacyIsQuiet(s: State, bits: Status, setting: bool)
    requires s.Valid()
    ensures Quiet(s, s.Legacy(bits, setting)) && s.Legacy(bits, setting).status == s.status
  {
    var s1 := s.LegacyStep(CHECKSUM_IS_BAD, BadChecksum in bits, setting);
    LegacyStepIsQuiet(s, CHECKSUM_IS_BAD, BadChecksum in bits, setting);
    LegacyStepIsQuiet(s1, RTC_POWER_IS_BAD, BadBattery in bits, setting);
    QuietTransitive(s, s1, s.Legacy(bits, setting));
  }

  /** Bits being set, whatever they route, change nothing viewed but the status registers. */
  lemma SetBitsIsQuietOnceSet(s: State, bits: Status)
    requires s.Valid()
    ensures Quiet(s.(status := s.status + bits), s.SetBits(bits))
    ensures s.SetBits(bits).status - {AddressIsChecksummed} == (s.status + bits) - {AddressIsChecksummed}
  {
    hide State.Report, State.Legacy, Layout.Valid, Quiet;
    var s1 := s.(status := s.status + bits);
    var s2 := if IsUsable in s1.status then s1.Report(bits) else s1;
    ReportIsQuiet(s1, bits);
    ItselfIsQuiet(s1);
    LegacyIsQuiet(s2, bits, true);
    var s3 := s2.Legacy(bits, true);
    QuietTransitive(s1, s2, s3);
    SyncedIsQuiet(s3);
    QuietTransitive(s1, s3, s3.Synced());
  }

  lemma ItselfIsQuiet(s: State)
    requires s.Valid()
    ensures Quiet(s, s)
  {
  }

  lemma SetBitsIsQuiet(s: State, bits: Status)
    requires s.Valid() && bits !! ROUTING
    ensures Quiet(s, s.SetBits(bits))
    ensures s.SetBits(bits).status - {AddressIsChecksummed} == (s.status + bits) - {AddressIsChecksummed}
  {
    hide State.SetBits;
    var s1 := s.(status := s.status + bits);
    ViewIgnoresOtherBits(s, s1);
    SetBitsIsQuietOnceSet(s, bits);
    QuietTransitive(s, s1, s.SetBits(bits));
  }

  lemma ClearBitsIsQuietOnceCleared(s: State, bits: Status)
    requires s.Valid()
    ensures Quiet(s.(status := s.status - bits), s.ClearBits(bits))
    ensures s.ClearBits(bits).status == s.status - bits
  {
    hide State.Legacy, Layout.Valid, Quiet;
    var s1 := s.(status := s.status - bits);
    LegacyIsQuiet(s1, bits, false);
    var s2 := s1.Legacy(bits, false);
    SyncedIsQuiet(s2);
    QuietTransitive(s1, s2, s2.Synced());
  }

  lemma ClearBitsIsQuiet(s: State, bits: Status)
    requires s.Valid() && bits !! ROUTING
    ensures Quiet(s, s.ClearBits(bits))
    ensures s.ClearBits(bits).status == s.status - bits
  {
    hide State.ClearBits;
    var s1 := s.(status := s.status - bits);
    ViewIgnoresOtherBits(s, s1);
    ClearBitsIsQuietOnceCleared(s, bits);
    QuietTransitive(s, s1, s.ClearBits(bits));
  }

  // Cell by cell, whatever the routing: a status change writes nothing but the
  // status tokens' registers, in either place, and the diagnostic register.

  ghost predicate CellsKept(s: State, t: State)
    requires s.Valid() && t.Valid()
  {
    && t.cfg == s.cfg && t.dxe == s.dxe
    && (forall a: nat {:trigger t.phys[a]} | a < REGISTER_SPACE :: Untouched(s, a) ==> t.phys[a] == s.phys[a])
    && (forall i: nat {:trigger t.buf[i]} | 1 <= i < |s.buf| ::
          Untouched(s, s.cfg.first + i - 1) ==> t.buf[i] == s.buf[i])
  }

  /** A register that no status change writes. */
  ghost predicate Untouched(s: State, a: nat)
  {
    a !in StatusRegisters(s) && a != DIAGNOSTIC_STATUS_REGISTER
  }

  lemma CellsKeptTransitive(s: State, t: State, u: State)
    requires s.Valid() && t.Valid() && u.Valid() && CellsKept(s, t) && CellsKept(t, u)
    ensures CellsKept(s, u)
  {
  }

  lemma MarkIfKeepsCells(s: State, bit: bool, t: Token)
    requires s.Valid() && s.cfg.StatusToken(t) && Address(t) in StatusRegisters(s)
    ensures CellsKept(s, s.MarkIf(bit, t))
  {
  }

  lemma ReportKeepsCells(s: State, bits: Status)
    requires s.Valid()
    ensures CellsKept(s, s.Report(bits))
  {
    var s1 := s.MarkIf(BadBattery in bits, s.cfg.batteryBad);
    var s2 := s1.MarkIf(BadChecksum in bits, s.cfg.checksumBad);
    var s3 := s2.MarkIf(DefaultsLoaded in bits, s.cfg.defaultsLoaded);
    MarkIfKeepsCells(s, BadBattery in bits, s.cfg.batteryBad);
    MarkIfKeepsCells(s1, BadChecksum in bits, s.cfg.checksumBad);
    MarkIfKeepsCells(s2, DefaultsLoaded in bits, s.cfg.defaultsLoaded);
    MarkIfKeepsCells(s3, FirstBootDetected in bits, s.cfg.firstBoot);
    CellsKeptTransitive(s, s1, s2);
    CellsKeptTransitive(s, s2, s3);
    CellsKeptTransitive(s, s3, s.Report(bits));
  }

  lemma SetBitsKeepsCells(s: State, bits: Status)
    requires s.Valid()
    ensures CellsKept(s, s.SetBits(bits))
  {
    hide State.Report, State.Legacy, State.Synced;
    var s0 := s.(status := s.status + bits);
    ReportKeepsCells(s0, bits);
    var s1 := if IsUsable in s0.status then s0.Report(bits) else s0;
    LegacyKeepsCells(s1, bits, true);
    CellsKeptTransitive(s0, s1, s1.Legacy(bits, true).Synced());
    assert CellsKept(s, s0);
    CellsKeptTransitive(s, s0, s1.Legacy(bits, true).Synced());
  }

  lemma LegacyKeepsCells(s: State, bits: Status, setting: bool)
    requires s.Valid()
    ensures CellsKept(s, s.Legacy(bits, setting)) && CellsKept(s, s.Legacy(bits, setting).Synced())
  {
  }

  lemma ClearBitsKeepsCells(s: State, bits: Status)
    requires s.Valid()
    ensures CellsKept(s, s.ClearBits(bits)) && s.ClearBits(bits).buf == s.buf
  {
    LegacyKeepsCells(s.(status := s.status - bits), bits, false);
  }

  lemma LegacyStepIdle(s: State, bit: bv8, setting: bool)
    requires s.Valid()
    ensures s.LegacyStep(bit, false, setting) == s
  {
  }

  lemma LegacyIdle(s: State, bits: Status, setting: bool)
    requires s.Valid() && bits * LEGACY == {}
    ensures s.Legacy(bits, setting) == s
  {
    hide State.LegacyStep;
    assert BadChecksum in bits ==> BadChecksum in bits * LEGACY;
    assert BadBattery in bits ==> BadBattery in bits * LEGACY;
    LegacyStepIdle(s, CHECKSUM_IS_BAD, setting);
    LegacyStepIdle(s, RTC_POWER_IS_BAD, setting);
  }

  /** Bits that are neither reported nor mirrored change only the status word. */
  lemma SetSilently(s: State, bits: Status)
    requires s.Valid() && bits !! REPORTED && bits !! LEGACY
    ensures s.SetBits(bits) == s.(status := s.status + bits).Synced()
  {
    LegacyIdle(s.(status := s.status + bits), bits, true);
  }

  lemma ClearSilently(s: State, bits: Status)
    requires s.Valid() && bits !! LEGACY
    ensures s.ClearBits(bits) == s.(status := s.status - bits).Synced()
  {
    LegacyIdle(s.(status := s.status - bits), bits, false);
  }

  // --------------------------------------------------------------- register writes

  /** Storing a checksum changes the two checksum registers and nothing else that is viewed. */
  lemma PutChecksumStores(s: State, sum: nat)
    requires s.Valid() && sum < WORD
    ensures SameRouting(s, s.PutChecksum(sum)) && s.PutChecksum(sum).Stored() == sum
    ensures s.PutChecksum(sum).View(Address(s.cfg.checksumLow)) == Low(sum)
    ensures s.PutChecksum(sum).View(Address(s.cfg.checksumHigh)) == High(sum)
    ensures AgreeOff(s, s.PutChecksum(sum), {Address(s.cfg.checksumHigh), Address(s.cfg.checksumLow)})
    ensures s.PutChecksum(sum).status == s.status - {ForceNoChecksum}
  {
    hide Layout.Valid, Address, Low, High, Word, State.View, State.Put;
    ChecksumRegisters(s.cfg);
    var lo, hi := Address(s.cfg.checksumLow), Address(s.cfg.checksumHigh);
    var s1 := s.(hob := if s.hob.NoHob? then NoHob else s.hob.(checksum := sum));
    ViewIgnoresOtherBits(s, s1);
    BothBytesStored(s1, lo, Low(sum), hi, High(sum));
    var s3 := s1.PutRouted(lo, Low(sum)).PutRouted(hi, High(sum));
    ViewIgnoresOtherBits(s3, s.PutChecksum(sum));
    WordRoundTrip(sum);
  }

  /** The high byte goes to the high token's register, the low byte to the low one's. */
  lemma StoredBytes(s: State, sum: nat)
    requires s.Valid() && sum < WORD
    ensures s.PutChecksum(sum).View(Address(s.cfg.checksumHigh)) as nat == sum / 256
    ensures s.PutChecksum(sum).View(Address(s.cfg.checksumLow)) as nat == sum % 256
  {
    hide State.PutChecksum, State.View, Address, Layout.Valid;
    PutChecksumStores(s, sum);
    ByteRoundTrip(sum / 256);
    ByteRoundTrip(sum % 256);
  }

  lemma ChecksumRegisters(l: Layout)
    requires l.Valid()
    ensures l.InRegion(Address(l.checksumLow)) && l.InRegion(Address(l.checksumHigh))
    ensures Address(l.checksumLow) != Address(l.checksumHigh)
  {
  }

  lemma BothBytesStored(s: State, lo: nat, b: bv8, hi: nat, c: bv8)
    requires s.Valid() && s.cfg.InRegion(lo) && s.cfg.InRegion(hi) && lo != hi
    ensures var r := s.PutRouted(lo, b).PutRouted(hi, c);
      && SameRouting(s, r) && AgreeOff(s, r, {hi, lo}) && r.View(lo) == b && r.View(hi) == c && r.status == s.status
  {
    hide State.View, State.Put, Layout.Valid;
    InSpace(s.cfg, lo);
    InSpace(s.cfg, hi);
    PutAgrees(s, s.Route(lo), lo, b);
    var s2 := s.PutRouted(lo, b);
    PutAgrees(s2, s2.Route(hi), hi, c);
  }

  lemma KnownIsManaged(l: Layout, t: Token)
    requires l.Valid() && t in l.known
    ensures Fits(t) && l.InRegion(Address(t)) && Address(t) < REGISTER_SPACE
  {
  }

  lemma InSpace(l: Layout, a: nat)
    requires l.Valid() && l.InRegion(a)
    ensures a < REGISTER_SPACE
  {
  }

  /** The sum leaves the checksum registers out, so storing it does not change it. */
  lemma StoredSumIsSettled(s: State, t: State)
    requires s.Valid() && t.Valid() && s.cfg == t.cfg
    requires AgreeOff(s, t, {Address(s.cfg.checksumHigh), Address(s.cfg.checksumLow)})
    ensures t.FullSum() == s.FullSum()
    ensures t.Coherent() <==> t.Stored() == s.FullSum()
  {
    SumDependsOnSummed(s, t, s.cfg.last + 1);
  }

  /** The drift is nothing exactly when the checksum is right. */
  lemma DriftTellsCoherence(s: State)
    requires s.Valid()
    ensures s.Drift() == 0 <==> s.Coherent()
  {
    hide State.Stored, State.FullSum, Layout.Valid;
    NoDifference(s.Stored(), s.FullSum());
  }

  lemma NoDifference(w: nat, sum: nat)
    requires w < WORD && sum < WORD
    ensures (w as int - sum) % WORD == 0 <==> w == sum
  {
  }

  /** The incremental adjustment is the full recomputation, off by as much as the sum was before. */
  lemma AdjustedKeepsDrift(s: State, t: State, a: nat)
    requires s.Valid() && t.Valid() && s.cfg == t.cfg && s.cfg.Summed(a)
    requires forall c {:trigger t.View(c)} :: s.cfg.Summed(c) && c != a ==> t.View(c) == s.View(c)
    ensures s.Adjusted(s.View(a), t.View(a)) == (t.FullSum() + s.Drift()) % WORD
  {
    hide Layout.Valid, State.Stored, State.View;
    SumMovesByChange(s, t, a, s.cfg.last + 1);
    DriftArithmetic(s.Stored(), s.SumBelow(s.cfg.last + 1), t.View(a) as int - s.View(a) as int);
  }

  lemma DriftArithmetic(w: nat, sum: nat, change: int)
    ensures ((sum + change) % WORD + (w as int - sum % WORD) % WORD) % WORD == (w + change) % WORD
  {
    var moved, off := (sum + change) / WORD, (w as int - sum % WORD) / WORD;
    assert (sum + change) % WORD + (w as int - sum % WORD) % WORD
        == (w + change) + (sum / WORD - moved - off) * WORD;
    ModuloOfShift(w + change, sum / WORD - moved - off);
  }

  /** On a right checksum the incremental adjustment is the full recomputation. */
  lemma AdjustedIsFullSum(s: State, t: State, a: nat)
    requires s.Valid() && t.Valid() && s.cfg == t.cfg && s.Coherent() && s.cfg.Summed(a)
    requires forall c {:trigger t.View(c)} :: s.cfg.Summed(c) && c != a ==> t.View(c) == s.View(c)
    ensures s.Adjusted(s.View(a), t.View(a)) == t.FullSum()
  {
    hide Layout.Valid, State.Coherent, State.Drift, State.Adjusted, State.FullSum;
    AdjustedKeepsDrift(s, t, a);
    DriftTellsCoherence(s);
  }

  /** A sum stored with a drift has that drift. */
  lemma StoredDrift(s: State, d: nat)
    requires s.Valid() && d < WORD && s.Stored() == (s.FullSum() + d) % WORD
    ensures s.Drift() == d
  {
    hide Layout.Valid, State.Stored, State.FullSum;
    DriftBack(s.FullSum(), d);
  }

  lemma DriftBack(sum: nat, d: nat)
    requires sum < WORD && d < WORD
    ensures ((sum + d) % WORD - sum) % WORD == d
  {
    if sum + d >= WORD {
      assert (sum + d) % WORD == sum + d - WORD;
    }
  }

  lemma ModuloAbsorbs(n: nat, change: int)
    ensures (n % WORD + change) % WORD == (n + change) % WORD
  {
    var q := n / WORD;
    assert n + change == (n % WORD + change) + q * WORD;
    ModuloOfShift(n % WORD + change, q);
  }

  lemma ModuloOfShift(x: int, q: int)
    ensures (x + q * WORD) % WORD == x % WORD
  {
  }
}
