/** While accesses go to the hardware, nothing writes the buffer. */
module BufferIdle {
  import opened Bytes
  import opened TokenCodec
  import opened CmosStore
  import opened OptimalDefaults
  import opened LoadingLaws
  import opened Boot

  ghost predicate Idle(s: State, t: State)
  {
    OptimalDefaultsEnabled !in s.status ==> OptimalDefaultsEnabled !in t.status && t.buf == s.buf
  }

  lemma MarkIfIsIdle(s: State, bit: bool, t: Token)
    requires s.Valid() && s.cfg.StatusToken(t)
    ensures Idle(s, s.MarkIf(bit, t))
  {
  }

  lemma ReportIsIdle(s: State, bits: Status)
    requires s.Valid()
    ensures Idle(s, s.Report(bits))
  {
    hide State.MarkIf;
    var s1 := s.MarkIf(BadBattery in bits, s.cfg.batteryBad);
    var s2 := s1.MarkIf(BadChecksum in bits, s.cfg.checksumBad);
    var s3 := s2.MarkIf(DefaultsLoaded in bits, s.cfg.defaultsLoaded);
    MarkIfIsIdle(s, BadBattery in bits, s.cfg.batteryBad);
    MarkIfIsIdle(s1, BadChecksum in bits, s.cfg.checksumBad);
    MarkIfIsIdle(s2, DefaultsLoaded in bits, s.cfg.defaultsLoaded);
    MarkIfIsIdle(s3, FirstBootDetected in bits, s.cfg.firstBoot);
  }

  lemma LegacyIsIdle(s: State, bits: Status, setting: bool)
    requires s.Valid()
    ensures s.Legacy(bits, setting).buf == s.buf && s.Legacy(bits, setting).status == s.status
    ensures s.Synced().buf == s.buf && s.Synced().status == s.status
  {
  }

  lemma SetBitsIsIdle(s: State, bits: Status)
    requires s.Valid() && OptimalDefaultsEnabled !in bits
    ensures Idle(s, s.SetBits(bits))
  {
    hide State.Report, State.Legacy, State.Synced;
    var s1 := s.(status := s.status + bits);
    ReportIsIdle(s1, bits);
    var s2 := if IsUsable in s1.status then s1.Report(bits) else s1;
    LegacyIsIdle(s2, bits, true);
    LegacyIsIdle(s2.Legacy(bits, true), bits, true);
  }

  lemma ClearBitsIsIdle(s: State, bits: Status)
    requires s.Valid()
    ensures Idle(s, s.ClearBits(bits)) && s.ClearBits(bits).buf == s.buf
  {
    hide State.Legacy, State.Synced;
    var s1 := s.(status := s.status - bits);
    LegacyIsIdle(s1, bits, false);
    LegacyIsIdle(s1.Legacy(bits, false), bits, false);
  }

  lemma CheckedIsIdle(s: State)
    requires s.Valid()
    ensures Idle(s, s.Checked())
  {
    hide State.SetBits, State.ClearBits;
    SetBitsIsIdle(s, {BadChecksum});
    ClearBitsIsIdle(s, {BadChecksum});
  }

  lemma PutChecksumIsIdle(s: State, sum: nat)
    requires s.Valid() && sum < WORD
    ensures Idle(s, s.PutChecksum(sum))
  {
  }

  lemma ApprovedIsIdle(s: State)
    requires s.Valid()
    ensures Idle(s, Approved(s))
  {
    hide State.Checked, State.PutChecksum, State.ClearBits;
    CheckedIsIdle(s);
    PutChecksumIsIdle(s.Checked(), s.FullSum());
    ClearBitsIsIdle(Resummed(s), {BadChecksum});
  }

  lemma ClosedIsIdle(s: State)
    requires s.Valid()
    ensures Idle(s, Closed(s, {}))
  {
    hide State.SetBits, State.ClearBits;
    var s1 := s.(status := s.status + {});
    assert s1.status == s.status;
    ClearBitsIsIdle(s1, {ForceNoChecksum});
    SetBitsIsIdle(s1.ClearBits({ForceNoChecksum}), {DefaultsLoaded});
  }

  lemma LoadedIsIdle(s: State, count: nat)
    requires s.Valid() && count <= |s.buf|
    ensures Idle(s, Loaded(s, count))
  {
    hide Stocked, Approved, Closed;
    StockedFacts(s, count);
    var s1 := Stocked(s, count);
    ApprovedIsIdle(s1);
    var s2 := if ErrorLoadingDefaults in s1.status then s1 else Approved(s1);
    ClosedIsIdle(s2);
    if OptimalDefaultsEnabled !in s.status {
      assert s.status * {OptimalDefaultsEnabled} == {};
    }
  }

  lemma SetIfIsIdle(s: State, condition: bool, flag: Flag)
    requires s.Valid() && flag != OptimalDefaultsEnabled
    ensures Idle(s, SetIf(s, condition, flag)) && Idle(s, SetOrClear(s, condition, flag))
  {
    hide State.SetBits, State.ClearBits;
    SetBitsIsIdle(s, {flag});
    ClearBitsIsIdle(s, {flag});
  }

  lemma DetectedIsIdle(s: State, h: Hooks)
    requires s.Valid()
    ensures Idle(s, Detected(s, h))
  {
    hide SetIf, SetOrClear, State.Checked;
    var s1 := SetOrClear(s, h.usable, IsUsable);
    var s2 := SetIf(s1, h.firstBoot, FirstBootDetected);
    var s3 := SetIf(s2, h.coldBoot, ColdBootDetected);
    var s4 := SetIf(s3, h.bsp, BspIsExecuting);
    var s5 := SetIf(s4, h.recoverOnlyChecksummed, RecoverOnlyChecksummed);
    var s6 := SetIf(s5, h.recoverInPei, RecoverInPei);
    SetIfIsIdle(s, h.usable, IsUsable);
    SetIfIsIdle(s1, h.firstBoot, FirstBootDetected);
    SetIfIsIdle(s2, h.coldBoot, ColdBootDetected);
    SetIfIsIdle(s3, h.bsp, BspIsExecuting);
    SetIfIsIdle(s4, h.recoverOnlyChecksummed, RecoverOnlyChecksummed);
    SetIfIsIdle(s5, h.recoverInPei, RecoverInPei);
    CheckedIsIdle(s6);
    SetIfIsIdle(s6.Checked(), !h.batteryGood, BadBattery);
  }
}
