/** Status changes look only at the cells they write: any other cell may hold anything. */
module StatusCommutes {
  import opened TokenCodec
  import opened CmosStore
  import opened StoreLaws
  import opened Boot
  import opened BootLaws

  lemma PutsCommute(s: State, place: Place, a: nat, b: bv8, other: Place, c: nat, d: bv8)
    requires s.Valid() && s.Has(place, a) && s.Has(other, c) && c != a
    ensures s.Put(place, a, b).Put(other, c, d) == s.Put(other, c, d).Put(place, a, b)
  {
  }

  lemma MarkCommutes(s: State, place: Place, a: nat, b: bv8, bit: bool, t: Token)
    requires s.Valid() && s.Has(place, a) && s.cfg.StatusToken(t) && Address(t) != a
    ensures s.Put(place, a, b).MarkIf(bit, t) == s.MarkIf(bit, t).Put(place, a, b)
  {
    hide Merge, Encode, ClobberBits, State.NotedIfOn, State.Put, State.View, Layout.Valid;
    var c := Address(t);
    KnownIsManaged(s.cfg, t);
    var d := Merge(s.View(c), ClobberBits(t), Encode(1, t));
    ViewAfterPut(s, place, a, b, c);
    NotedCommutes(s, place, a, b, c);
    SameRouteNoted(s, place, a, b, c);
    PutsCommute(s.NotedIfOn(c), place, a, b, s.Route(c), c, d);
  }

  lemma ReportCommutes(s: State, place: Place, a: nat, b: bv8, bits: Status)
    requires s.Valid() && s.Has(place, a) && Untouched(s, a)
    ensures s.Put(place, a, b).Report(bits) == s.Report(bits).Put(place, a, b)
  {
    hide State.MarkIf, State.Put;
    var s1 := s.MarkIf(BadBattery in bits, s.cfg.batteryBad);
    var s2 := s1.MarkIf(BadChecksum in bits, s.cfg.checksumBad);
    var s3 := s2.MarkIf(DefaultsLoaded in bits, s.cfg.defaultsLoaded);
    MarkCommutes(s, place, a, b, BadBattery in bits, s.cfg.batteryBad);
    MarkCommutes(s1, place, a, b, BadChecksum in bits, s.cfg.checksumBad);
    MarkCommutes(s2, place, a, b, DefaultsLoaded in bits, s.cfg.defaultsLoaded);
    MarkCommutes(s3, place, a, b, FirstBootDetected in bits, s.cfg.firstBoot);
  }

  lemma LegacyCommutes(s: State, place: Place, a: nat, b: bv8, bits: Status, setting: bool)
    requires s.Valid() && s.Has(place, a) && a != DIAGNOSTIC_STATUS_REGISTER
    ensures s.Put(place, a, b).Legacy(bits, setting) == s.Legacy(bits, setting).Put(place, a, b)
  {
    hide State.LegacyBit;
    LegacyStepCommutes(s, place, a, b, CHECKSUM_IS_BAD, BadChecksum in bits, setting);
    LegacyStepCommutes(s.LegacyStep(CHECKSUM_IS_BAD, BadChecksum in bits, setting), place, a, b,
                       RTC_POWER_IS_BAD, BadBattery in bits, setting);
  }

  lemma LegacyStepCommutes(s: State, place: Place, a: nat, b: bv8, bit: bv8, affected: bool, setting: bool)
    requires s.Valid() && s.Has(place, a) && a != DIAGNOSTIC_STATUS_REGISTER
    ensures s.Put(place, a, b).LegacyStep(bit, affected, setting) == s.LegacyStep(bit, affected, setting).Put(place, a, b)
  {
    hide State.LegacyBit;
    PutsCommute(s, place, a, b, Hardware, DIAGNOSTIC_STATUS_REGISTER,
                State.LegacyBit(s.phys[DIAGNOSTIC_STATUS_REGISTER], bit, affected, setting, s.dxe));
  }

  lemma SetBitsCommutes(s: State, place: Place, a: nat, b: bv8, bits: Status)
    requires s.Valid() && s.Has(place, a) && Untouched(s, a)
    ensures s.Put(place, a, b).SetBits(bits) == s.SetBits(bits).Put(place, a, b)
  {
    hide State.Report, State.Legacy, State.Put, State.Synced, Layout.Valid;
    var s1 := s.(status := s.status + bits);
    StatusCommutesWithPut(s, place, a, b, s.status + bits);
    ReportCommutes(s1, place, a, b, bits);
    var s2 := if IsUsable in s1.status then s1.Report(bits) else s1;
    LegacyCommutes(s2, place, a, b, bits, true);
    PutSynced(s2.Legacy(bits, true), place, a, b);
  }

  lemma StatusCommutesWithPut(s: State, place: Place, a: nat, b: bv8, flags: Status)
    requires s.Valid() && s.Has(place, a)
    ensures s.Put(place, a, b).(status := flags) == s.(status := flags).Put(place, a, b)
    ensures s.(status := flags).Has(place, a)
  {
    hide Layout.Valid;
  }

  lemma ClearBitsCommutes(s: State, place: Place, a: nat, b: bv8, bits: Status)
    requires s.Valid() && s.Has(place, a) && Untouched(s, a)
    ensures s.Put(place, a, b).ClearBits(bits) == s.ClearBits(bits).Put(place, a, b)
  {
    hide State.Legacy;
    LegacyCommutes(s.(status := s.status - bits), place, a, b, bits, false);
  }

  lemma SetIfCommutes(s: State, place: Place, a: nat, b: bv8, condition: bool, flag: Flag)
    requires s.Valid() && s.Has(place, a) && Untouched(s, a)
    ensures SetIf(s.Put(place, a, b), condition, flag) == SetIf(s, condition, flag).Put(place, a, b)
    ensures SetOrClear(s.Put(place, a, b), condition, flag) == SetOrClear(s, condition, flag).Put(place, a, b)
  {
    hide State.SetBits, State.ClearBits, State.Put;
    SetBitsCommutes(s, place, a, b, {flag});
    ClearBitsCommutes(s, place, a, b, {flag});
  }

  lemma PolledCommutes(s: State, place: Place, a: nat, b: bv8, h: Hooks)
    requires s.Valid() && s.Has(place, a) && Untouched(s, a)
    ensures Polled(s.Put(place, a, b), h) == Polled(s, h).Put(place, a, b)
  {
    hide SetIf, SetOrClear, State.Put, State.Valid, Untouched;
    var s1 := SetOrClear(s, h.usable, IsUsable);
    var s2 := SetIf(s1, h.firstBoot, FirstBootDetected);
    var s3 := SetIf(s2, h.coldBoot, ColdBootDetected);
    var s4 := SetIf(s3, h.bsp, BspIsExecuting);
    var s5 := SetIf(s4, h.recoverOnlyChecksummed, RecoverOnlyChecksummed);
    SameUntouched(s, s1, place, a);
    SameUntouched(s, s2, place, a);
    SameUntouched(s, s3, place, a);
    SameUntouched(s, s4, place, a);
    SameUntouched(s, s5, place, a);
    SetIfCommutes(s, place, a, b, h.usable, IsUsable);
    SetIfCommutes(s1, place, a, b, h.firstBoot, FirstBootDetected);
    SetIfCommutes(s2, place, a, b, h.coldBoot, ColdBootDetected);
    SetIfCommutes(s3, place, a, b, h.bsp, BspIsExecuting);
    SetIfCommutes(s4, place, a, b, h.recoverOnlyChecksummed, RecoverOnlyChecksummed);
    SetIfCommutes(s5, place, a, b, h.recoverInPei, RecoverInPei);
  }

  lemma SameUntouched(s: State, t: State, place: Place, a: nat)
    requires s.Valid() && t.Valid() && t.cfg == s.cfg && s.Has(place, a) && Untouched(s, a)
    ensures t.Has(place, a) && Untouched(t, a)
  {
  }

  /** Detection with the answer about the checksum given rather than found. */
  ghost function DetectedAs(s: State, h: Hooks, bad: bool): (r: State)
    requires s.Valid()
    ensures r.Valid() && r.cfg == s.cfg && r.dxe == s.dxe
  {
    SetOrClear(SetOrClear(Polled(s, h), bad, BadChecksum), !h.batteryGood, BadBattery)
  }

  lemma DetectedIsOneOfTwo(s: State, h: Hooks)
    requires s.Valid()
    ensures Detected(s, h) == DetectedAs(s, h, !Polled(s, h).Coherent())
  {
    hide Polled, State.Coherent, State.SetBits, State.ClearBits;
  }

  /** With the answer given, detection does not look at the cell; the answer is all it can change. */
  lemma DetectedAsCommutes(s: State, place: Place, a: nat, b: bv8, h: Hooks, bad: bool)
    requires s.Valid() && s.Has(place, a) && Untouched(s, a)
    ensures DetectedAs(s.Put(place, a, b), h, bad) == DetectedAs(s, h, bad).Put(place, a, b)
  {
    hide Polled, SetOrClear, State.Put, State.Valid, Untouched;
    var p := Polled(s, h);
    PolledCommutes(s, place, a, b, h);
    SameUntouched(s, p, place, a);
    SetIfCommutes(p, place, a, b, bad, BadChecksum);
    var c := SetOrClear(p, bad, BadChecksum);
    SameUntouched(s, c, place, a);
    SetIfCommutes(c, place, a, b, !h.batteryGood, BadBattery);
  }
}
