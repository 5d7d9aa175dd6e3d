/** What any sequence of status changes does to the diagnostic register and the hand-off block. */
module StatusLaws {
  import opened CmosStore
  import opened TokenCodec
  import opened Requests
  import opened OptimalDefaults

  datatype StatusChange = Set(bits: Status) | Clear(bits: Status)

  ghost function Changed(s: State, c: StatusChange): (r: State)
    requires s.Valid()
    ensures r.Valid() && r.cfg == s.cfg
  {
    if c.Set? then s.SetBits(c.bits) else s.ClearBits(c.bits)
  }

  ghost function ChangedAll(s: State, cs: seq<StatusChange>): (r: State)
    requires s.Valid()
    ensures r.Valid() && r.cfg == s.cfg
    decreases |cs|
  {
    if cs == [] then s else ChangedAll(Changed(s, cs[0]), cs[1..])
  }

  const FAILURE_BITS: bv8 := 0xc0

  /** The six other bits are equal; outside DXE no failure bit is lost. */
  predicate DiagnosticKept(was: bv8, now: bv8, dxe: bool)
  {
    && now & !FAILURE_BITS == was & !FAILURE_BITS
    && (!dxe ==> was & FAILURE_BITS & !now == 0)
  }

  lemma LegacyBitKept(d: bv8, bit: bv8, affected: bool, setting: bool, dxe: bool)
    requires bit == CHECKSUM_IS_BAD || bit == RTC_POWER_IS_BAD
    ensures DiagnosticKept(d, State.LegacyBit(d, bit, affected, setting, dxe), dxe)
  {
  }

  lemma DiagnosticKeptTransitive(a: bv8, b: bv8, c: bv8, dxe: bool)
    requires DiagnosticKept(a, b, dxe) && DiagnosticKept(b, c, dxe)
    ensures DiagnosticKept(a, c, dxe)
  {
  }

  ghost function Diagnostic(s: State): bv8
    requires s.Valid()
  {
    s.phys[DIAGNOSTIC_STATUS_REGISTER]
  }

  /** Nothing of the diagnostic register, the phase or the presence of the block changes. */
  ghost predicate Aside(s: State, r: State)
    requires s.Valid() && r.Valid()
  {
    Diagnostic(r) == Diagnostic(s) && r.dxe == s.dxe && (r.hob.NoHob? <==> s.hob.NoHob?)
  }

  lemma MarkIsAside(s: State, bit: bool, t: Token)
    requires s.Valid() && s.cfg.StatusToken(t)
    ensures Aside(s, s.MarkIf(bit, t))
  {
  }

  lemma ReportIsAside(s: State, bits: Status)
    requires s.Valid()
    ensures Aside(s, s.Report(bits))
  {
    hide State.MarkIf;
    var s1 := s.MarkIf(BadBattery in bits, s.cfg.batteryBad);
    var s2 := s1.MarkIf(BadChecksum in bits, s.cfg.checksumBad);
    var s3 := s2.MarkIf(DefaultsLoaded in bits, s.cfg.defaultsLoaded);
    MarkIsAside(s, BadBattery in bits, s.cfg.batteryBad);
    MarkIsAside(s1, BadChecksum in bits, s.cfg.checksumBad);
    MarkIsAside(s2, DefaultsLoaded in bits, s.cfg.defaultsLoaded);
    MarkIsAside(s3, FirstBootDetected in bits, s.cfg.firstBoot);
  }

  lemma LegacyKeepsDiagnostic(s: State, bits: Status, setting: bool)
    requires s.Valid()
    ensures var r := s.Legacy(bits, setting);
      && DiagnosticKept(Diagnostic(s), Diagnostic(r), s.dxe)
      && r.dxe == s.dxe && r.hob == s.hob
  {
    hide State.LegacyBit, DiagnosticKept;
    var d := Diagnostic(s);
    var d' := State.LegacyBit(d, CHECKSUM_IS_BAD, BadChecksum in bits, setting, s.dxe);
    LegacyBitKept(d, CHECKSUM_IS_BAD, BadChecksum in bits, setting, s.dxe);
    LegacyBitKept(d', RTC_POWER_IS_BAD, BadBattery in bits, setting, s.dxe);
    DiagnosticKeptTransitive(d, d', Diagnostic(s.Legacy(bits, setting)), s.dxe);
  }

  ghost predicate HobFollows(s: State)
  {
    s.hob.HobRecord? ==> s.hob.status == s.status
  }

  lemma ChangeKeepsDiagnostic(s: State, c: StatusChange)
    requires s.Valid()
    ensures var r := Changed(s, c);
      && DiagnosticKept(Diagnostic(s), Diagnostic(r), s.dxe) && r.dxe == s.dxe
      && HobFollows(r) && (r.hob.NoHob? <==> s.hob.NoHob?)
  {
    hide State.Report, State.Legacy, DiagnosticKept;
    if c.Set? {
      var s0 := s.(status := s.status + c.bits);
      ReportIsAside(s0, c.bits);
      LegacyKeepsDiagnostic(if IsUsable in s0.status then s0.Report(c.bits) else s0, c.bits, true);
    } else {
      LegacyKeepsDiagnostic(s.(status := s.status - c.bits), c.bits, false);
    }
  }

  /** Bit 6 tells of the checksum and bit 7 of the battery; clearing one needs the DXE phase. */
  predicate FailureBitsMoved(was: bv8, now: bv8, checksum: bool, battery: bool, setting: bool, dxe: bool)
  {
    && (now & 0x40 != 0 <==> if checksum && (setting || dxe) then setting else was & 0x40 != 0)
    && (now & 0x80 != 0 <==> if battery && (setting || dxe) then setting else was & 0x80 != 0)
    && now & 0x3f == was & 0x3f
  }

  lemma BothBitsMoved(d: bv8, checksum: bool, battery: bool, setting: bool, dxe: bool)
    ensures var d' := State.LegacyBit(d, CHECKSUM_IS_BAD, checksum, setting, dxe);
      FailureBitsMoved(d, State.LegacyBit(d', RTC_POWER_IS_BAD, battery, setting, dxe), checksum, battery, setting, dxe)
  {
  }

  lemma LegacyMovesFailureBits(s: State, bits: Status, setting: bool)
    requires s.Valid()
    ensures FailureBitsMoved(Diagnostic(s), Diagnostic(s.Legacy(bits, setting)),
                             BadChecksum in bits, BadBattery in bits, setting, s.dxe)
  {
    hide State.LegacyBit, FailureBitsMoved;
    BothBitsMoved(Diagnostic(s), BadChecksum in bits, BadBattery in bits, setting, s.dxe);
  }

  /**
   The diagnostic register after a status change: setting a failure bit of the
   status word raises its own bit there, clearing lowers it in DXE only, and
   nothing else touches it.
   */
  lemma ChangeMovesFailureBits(s: State, c: StatusChange)
    requires s.Valid()
    ensures FailureBitsMoved(Diagnostic(s), Diagnostic(Changed(s, c)),
                             BadChecksum in c.bits, BadBattery in c.bits, c.Set?, s.dxe)
  {
    hide State.Report, State.Legacy, FailureBitsMoved;
    if c.Set? {
      var s0 := s.(status := s.status + c.bits);
      ReportIsAside(s0, c.bits);
      LegacyMovesFailureBits(if IsUsable in s0.status then s0.Report(c.bits) else s0, c.bits, true);
    } else {
      LegacyMovesFailureBits(s.(status := s.status - c.bits), c.bits, false);
    }
  }

  /**
   No run of status changes in PEI clears a failure bit of the diagnostic
   register; none in any phase touches its six other bits; and after each the
   hand-off block shows the manager's status.
   */
  lemma {:induction false} RunKeepsDiagnostic(s: State, cs: seq<StatusChange>)
    requires s.Valid()
    ensures var r := ChangedAll(s, cs);
      && DiagnosticKept(Diagnostic(s), Diagnostic(r), s.dxe) && r.dxe == s.dxe
      && (HobFollows(s) || cs != [] ==> HobFollows(r))
    decreases |cs|
  {
    hide State.SetBits, State.ClearBits;
    if cs != [] {
      var s1 := Changed(s, cs[0]);
      ChangeKeepsDiagnostic(s, cs[0]);
      RunKeepsDiagnostic(s1, cs[1..]);
      DiagnosticKeptTransitive(Diagnostic(s), Diagnostic(s1), Diagnostic(ChangedAll(s, cs)), s.dxe);
    }
  }

  // ------------------------------------------------------ the block after other calls

  /** The hand-off block, when there is one, shows the status after any write. */
  lemma WriteKeepsHob(s: State, t: Token, v: bv8)
    requires s.Valid() && HobFollows(s)
    ensures HobFollows(Written(s, t, v)) && (Written(s, t, v).hob.NoHob? <==> s.hob.NoHob?)
  {
    if WriteOutcome(s, t, v) == Success && t >= MIN_TOKEN_VALUE {
      UpdateKeepsHob(s, s.Route(Address(t)), Address(t), ClobberBits(t), Encode(v, t));
    }
  }

  lemma UpdateKeepsHob(s: State, place: Place, a: nat, mask: bv8, v: bv8)
    requires s.Valid() && s.Has(place, a) && HobFollows(s)
    ensures HobFollows(s.Update(place, a, mask, v)) && (s.Update(place, a, mask, v).hob.NoHob? <==> s.hob.NoHob?)
  {
    hide Merge, State.Adjusted;
  }

  /** After a checksummed write the block's checksum is the stored one. */
  lemma SummedWriteReachesHob(s: State, t: Token, v: bv8)
    requires s.Valid() && s.hob.HobRecord? && ForceNoChecksum !in s.status
    requires t in s.cfg.known && !Overflows(v, t) && s.cfg.Summed(Address(t))
    ensures var r := Written(s, t, v); r.hob.HobRecord? && r.hob.checksum == r.Stored()
  {
    var a := Address(t);
    SummedUpdateOnView(s, a, ClobberBits(t), Encode(v, t));
    HobTakesSum(s, a, ClobberBits(t), Encode(v, t));
  }

  lemma HobTakesSum(s: State, a: nat, mask: bv8, v: bv8)
    requires s.Valid() && s.hob.HobRecord? && ForceNoChecksum !in s.status && s.cfg.Summed(a)
    ensures var now := Merge(s.View(a), mask, v);
      var r := s.Update(s.Route(a), a, mask, v);
      r.hob.HobRecord? && r.hob.checksum == s.Adjusted(s.View(a), now)
  {
    hide Merge, State.Adjusted;
  }

  /** And the status after any load of defaults, which ends by setting a bit. */
  lemma LoadKeepsHob(s: State, count: nat)
    requires s.Valid() && count <= |s.buf|
    ensures HobFollows(Loaded(s, count))
  {
    hide Stocked, Approved, State.Report, State.Legacy, State.ClearBits;
  }
}
