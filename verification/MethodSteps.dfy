/** The step sequences of the manager's methods, composed into closed forms. */
module MethodSteps {
  import opened Bytes
  import opened TokenCodec
  import opened CmosStore
  import opened StoreLaws
  import opened Requests

  /** A routed put depends on the cells and the routing bits only. */
  lemma SameCells(s: State, t: State, a: nat, b: bv8)
    requires s.Valid() && t.Valid() && SameRouting(s, t) && t.phys == s.phys && t.buf == s.buf
    requires s.cfg.InRegion(a)
    ensures var s', t' := s.PutRouted(a, b), t.PutRouted(a, b);
      && s'.phys == t'.phys && s'.buf == t'.buf && SameRouting(s', t')
      && s'.status == s.status && t'.status == t.status && s'.hob == s.hob && t'.hob == t.hob
      && s'.dxe == s.dxe && t'.dxe == t.dxe
  {
  }

  /** So does storing a checksum, which settles the rest itself. */
  lemma SamePutChecksum(s: State, t: State, sum: nat)
    requires s.Valid() && t.Valid() && SameRouting(s, t) && t.phys == s.phys && t.buf == s.buf
    requires t.status - {ForceNoChecksum} == s.status - {ForceNoChecksum} && t.dxe == s.dxe
    requires (t.hob.NoHob? <==> s.hob.NoHob?) && sum < WORD
    ensures t.PutChecksum(sum) == s.PutChecksum(sum)
  {
    var lo, hi := Address(s.cfg.checksumLow), Address(s.cfg.checksumHigh);
    var s0, t0 := HobChecksum(s, sum), HobChecksum(t, sum);
    SameCells(s0, t0, lo, Low(sum));
    SameCells(s0.PutRouted(lo, Low(sum)), t0.PutRouted(lo, Low(sum)), hi, High(sum));
  }

  /** The flag raised around a checksum write, and lowered inside it, is gone after it. */
  lemma GuardedPutChecksum(s: State, sum: nat)
    requires s.Valid() && sum < WORD && ForceNoChecksum !in s.status
    ensures s.SetBits({ForceNoChecksum}).PutChecksum(sum).ClearBits({ForceNoChecksum}) == s.PutChecksum(sum)
  {
    var bit: Status := {ForceNoChecksum};
    SetSilently(s, bit);
    SamePutChecksum(s, s.SetBits(bit), sum);
    PutChecksumSettled(s, sum);
  }

  lemma PutChecksumSettled(s: State, sum: nat)
    requires s.Valid() && sum < WORD
    ensures s.PutChecksum(sum).ClearBits({ForceNoChecksum}) == s.PutChecksum(sum)
  {
    var s' := s.PutChecksum(sum);
    ClearSilently(s', {ForceNoChecksum});
    assert s'.status - {ForceNoChecksum} == s'.status;
  }

  lemma MergeAllBits(r: bv8, v: bv8)
    ensures Merge(r, ALL_BITS, v) == v
  {
  }

  lemma WholeRegister(t: Token, v: bv8)
    requires BitOffset(t) == 0 && Size(t) == 8
    ensures ClobberBits(t) == ALL_BITS && Encode(v, t) == v && !Overflows(v, t)
  {
  }

  lemma ChecksumTokenWrite(s: State, t: Token, v: bv8)
    requires s.Valid() && s.cfg.ChecksumToken(t) && ForceNoChecksum in s.status
    ensures WriteOutcome(s, t, v) == Success && Written(s, t, v) == s.PutRouted(Address(t), v)
  {
    WholeRegister(t, v);
    MergeAllBits(s.View(Address(t)), v);
  }

  ghost function HobChecksum(s: State, sum: nat): (r: State)
    ensures r.cfg == s.cfg && (s.Valid() ==> r.Valid())
  {
    s.(hob := if s.hob.NoHob? then NoHob else s.hob.(checksum := sum))
  }

  /** Both bytes written with checksum updates off. */
  lemma PutChecksumSteps(s: State, sum: nat)
    requires s.Valid() && sum < WORD
    ensures var s1 := HobChecksum(s, sum).SetBits({ForceNoChecksum});
      Written(Written(s1, s.cfg.checksumLow, Low(sum)), s.cfg.checksumHigh, High(sum)).ClearBits({ForceNoChecksum})
      == s.PutChecksum(sum)
  {
    var bit: Status := {ForceNoChecksum};
    var s0 := HobChecksum(s, sum);
    SetSilently(s0, bit);
    var s1 := s0.SetBits(bit);
    var lo, hi := Address(s.cfg.checksumLow), Address(s.cfg.checksumHigh);
    ChecksumTokenWrite(s1, s.cfg.checksumLow, Low(sum));
    SameCells(s0, s1, lo, Low(sum));
    var s2 := s1.PutRouted(lo, Low(sum));
    ChecksumTokenWrite(s2, s.cfg.checksumHigh, High(sum));
    SameCells(s0.PutRouted(lo, Low(sum)), s2, hi, High(sum));
    var s3 := s2.PutRouted(hi, High(sum));
    ClearSilently(s3, bit);
    assert s3.status - bit == s.status - bit;
  }

  lemma ShiftedOut(p: nat, h: nat)
    requires p < 256 && h < 256
    ensures ((p * 256 + h) * 256) % WORD == h * 256
    ensures ((h * 256) / 256) % 256 == h
  {
    assert (p * 256 + h) * 256 == h * 256 + p * WORD;
    ModuloOfShift(h * 256, p);
  }

  /** Two reads into the low byte of one word, shifted in between. */
  lemma WordFromReads(prior: nat, high: bv8, low: bv8)
    requires prior < WORD
    ensures Word(High((Word(High(prior), high) * 256) % WORD), low) == Word(high, low)
  {
    ShiftedOut(High(prior) as nat, high as nat);
    assert (high as nat) as bv8 == high;
  }

  lemma ChecksumTokenRead(s: State, t: Token)
    requires s.Valid() && s.cfg.ChecksumToken(t)
    ensures ReadOutcome(s, t) == Success && ReadValue(s, t) == s.View(Address(t))
  {
    DecodeWhole(s.View(Address(t)), t);
  }

  lemma DecodeWhole(r: bv8, t: Token)
    requires BitOffset(t) == 0 && Size(t) == 8
    ensures Decode(r, t) == r
  {
  }

  lemma LegacyStepIsPut(s: State, bit: bv8, setting: bool)
    requires s.Valid()
    ensures var d := s.phys[DIAGNOSTIC_STATUS_REGISTER];
      s.LegacyStep(bit, true, setting) ==
      s.Put(Hardware, DIAGNOSTIC_STATUS_REGISTER, if setting then WithBits(d, bit) else if s.dxe then WithoutBits(d, bit) else d)
  {
  }

  lemma SumBelowFirst(s: State)
    requires s.Valid()
    ensures s.SumBelow(s.cfg.first) == 0
  {
  }

  /** One step of the single pass over the registers. */
  lemma SumStep(s: State, a: nat)
    requires s.Valid() && s.cfg.InRegion(a)
    ensures s.SumBelow(a + 1) % WORD ==
            if s.cfg.Summed(a) then Plus(s.SumBelow(a) % WORD, s.View(a)) else s.SumBelow(a) % WORD
  {
    ModuloAbsorbs(s.SumBelow(a), s.View(a) as nat);
  }
}
