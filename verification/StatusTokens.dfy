/** Which token records which bit of the status word. */
module StatusTokens {
  import opened TokenCodec
  import opened CmosStore
  import opened StoreLaws
  import opened Requests

  /** No two of the four status tokens share a bit. */
  ghost predicate TokensApart(l: Layout)
    requires l.Valid()
  {
    && Disjoint(l.batteryBad, l.checksumBad) && Disjoint(l.batteryBad, l.defaultsLoaded)
    && Disjoint(l.batteryBad, l.firstBoot) && Disjoint(l.checksumBad, l.defaultsLoaded)
    && Disjoint(l.checksumBad, l.firstBoot) && Disjoint(l.defaultsLoaded, l.firstBoot)
  }

  /** What a known token reads. */
  ghost function TokenValue(s: State, t: Token): bv8
    requires s.Valid() && t in s.cfg.known
  {
    Decode(s.View(Address(t)), t)
  }

  lemma TokenIsRead(s: State, t: Token)
    requires s.Valid() && t in s.cfg.known
    ensures ReadOutcome(s, t) == Success && ReadValue(s, t) == TokenValue(s, t)
  {
  }

  lemma DisjointIsOther(t: Token, u: Token)
    requires Fits(t) && Fits(u) && Disjoint(t, u)
    ensures t != u && Disjoint(u, t)
  {
    assert ClobberBits(t) != 0;
  }

  /** Recording one bit: its token reads 1, tokens with other bits read as before. */
  lemma MarkedTokens(s: State, bit: bool, t: Token, u: Token)
    requires s.Valid() && s.cfg.StatusToken(t) && u in s.cfg.known && Fits(t) && Fits(u)
    requires u == t || Disjoint(t, u)
    ensures TokenValue(s.MarkIf(bit, t), u) == if bit && u == t then 1 else TokenValue(s, u)
  {
    hide State.Mark, Written, WriteOutcome, ReadOutcome, ReadValue, TokenValue, Disjoint, Layout.Valid;
    if bit {
      MarkIsWrite(s, t);
      OneFits(t);
      TokenIsRead(s, u);
      TokenIsRead(s.Mark(t), u);
      if u == t {
        WriteThenRead(s, t, 1);
      } else {
        WriteKeepsOtherTokens(s, t, 1, u);
      }
    }
  }

  /** The token is one of the four, or shares no bit with them. */
  ghost predicate ApartFromStatus(l: Layout, u: Token)
    requires l.Valid() && u in l.known
  {
    && (u == l.batteryBad || Disjoint(l.batteryBad, u)) && (u == l.checksumBad || Disjoint(l.checksumBad, u))
    && (u == l.defaultsLoaded || Disjoint(l.defaultsLoaded, u)) && (u == l.firstBoot || Disjoint(l.firstBoot, u))
  }

  lemma ReportedTokens(s: State, bits: Status, u: Token)
    requires s.Valid() && TokensApart(s.cfg) && u in s.cfg.known && ApartFromStatus(s.cfg, u)
    ensures TokenValue(s.Report(bits), u) ==
            if (u == s.cfg.batteryBad && BadBattery in bits) || (u == s.cfg.checksumBad && BadChecksum in bits)
               || (u == s.cfg.defaultsLoaded && DefaultsLoaded in bits)
               || (u == s.cfg.firstBoot && FirstBootDetected in bits)
            then 1 else TokenValue(s, u)
  {
    hide State.MarkIf, TokenValue, Disjoint, Fits;
    var l := s.cfg;
    var s1 := s.MarkIf(BadBattery in bits, l.batteryBad);
    var s2 := s1.MarkIf(BadChecksum in bits, l.checksumBad);
    var s3 := s2.MarkIf(DefaultsLoaded in bits, l.defaultsLoaded);
    MarkedTokens(s, BadBattery in bits, l.batteryBad, u);
    MarkedTokens(s1, BadChecksum in bits, l.checksumBad, u);
    MarkedTokens(s2, DefaultsLoaded in bits, l.defaultsLoaded, u);
    MarkedTokens(s3, FirstBootDetected in bits, l.firstBoot, u);
  }

  /** The legacy register is no token's, and the hand-off block is not viewed. */
  lemma LegacyKeepsTokens(s: State, bits: Status, setting: bool, u: Token)
    requires s.Valid() && u in s.cfg.known
    ensures TokenValue(s.Legacy(bits, setting).Synced(), u) == TokenValue(s, u)
  {
    hide State.LegacyBit, Decode;
    var a := Address(u);
    KnownIsManaged(s.cfg, u);
    var s1 := s.LegacyStep(CHECKSUM_IS_BAD, BadChecksum in bits, setting);
    AwayFromDiagnostic(s, a, s1.phys[DIAGNOSTIC_STATUS_REGISTER]);
    AwayFromDiagnostic(s1, a, s.Legacy(bits, setting).phys[DIAGNOSTIC_STATUS_REGISTER]);
  }

  lemma AwayFromDiagnostic(s: State, a: nat, d: bv8)
    requires s.Valid() && s.cfg.InRegion(a)
    ensures s.Put(Hardware, DIAGNOSTIC_STATUS_REGISTER, d).View(a) == s.View(a)
    ensures s.Synced().View(a) == s.View(a)
  {
  }

  /**
   After setting bits with usable registers each of the four tokens reads 1 when
   its own bit was among them, and as before otherwise; so does every token with
   other bits. Without usable registers none changes.
   */
  lemma SetBitsRecords(s: State, bits: Status, u: Token)
    requires s.Valid() && TokensApart(s.cfg) && u in s.cfg.known && ApartFromStatus(s.cfg, u)
    ensures var was := s.(status := s.status + bits); var now := s.SetBits(bits);
      TokenValue(now, u) ==
      if IsUsable in was.status
         && ((u == s.cfg.batteryBad && BadBattery in bits) || (u == s.cfg.checksumBad && BadChecksum in bits)
             || (u == s.cfg.defaultsLoaded && DefaultsLoaded in bits)
             || (u == s.cfg.firstBoot && FirstBootDetected in bits))
      then 1 else TokenValue(was, u)
  {
    hide State.Report, State.Legacy, TokenValue, Disjoint, ApartFromStatus, TokensApart;
    var was := s.(status := s.status + bits);
    ReportedTokens(was, bits, u);
    LegacyKeepsTokens(if IsUsable in was.status then was.Report(bits) else was, bits, true, u);
  }

  lemma FourApart(l: Layout)
    requires l.Valid() && TokensApart(l)
    ensures ApartFromStatus(l, l.batteryBad) && ApartFromStatus(l, l.checksumBad)
    ensures ApartFromStatus(l, l.defaultsLoaded) && ApartFromStatus(l, l.firstBoot)
    ensures l.batteryBad !in {l.checksumBad, l.defaultsLoaded, l.firstBoot}
    ensures l.checksumBad !in {l.defaultsLoaded, l.firstBoot} && l.defaultsLoaded != l.firstBoot
  {
    hide ClobberBits;
    DisjointIsOther(l.batteryBad, l.checksumBad);
    DisjointIsOther(l.batteryBad, l.defaultsLoaded);
    DisjointIsOther(l.batteryBad, l.firstBoot);
    DisjointIsOther(l.checksumBad, l.defaultsLoaded);
    DisjointIsOther(l.checksumBad, l.firstBoot);
    DisjointIsOther(l.defaultsLoaded, l.firstBoot);
  }

  /** The four tokens, each with the bit of its own, and no bit of the others'. */
  lemma EachBitHasItsToken(s: State, bits: Status)
    requires s.Valid() && TokensApart(s.cfg)
    ensures var l := s.cfg; var usable := IsUsable in s.status + bits;
      var was, now := s.(status := s.status + bits), s.SetBits(bits);
      && TokenValue(now, l.batteryBad) == (if usable && BadBattery in bits then 1 else TokenValue(was, l.batteryBad))
      && TokenValue(now, l.checksumBad) == (if usable && BadChecksum in bits then 1 else TokenValue(was, l.checksumBad))
      && TokenValue(now, l.defaultsLoaded) ==
         (if usable && DefaultsLoaded in bits then 1 else TokenValue(was, l.defaultsLoaded))
      && TokenValue(now, l.firstBoot) == (if usable && FirstBootDetected in bits then 1 else TokenValue(was, l.firstBoot))
  {
    hide State.SetBits, TokenValue, Disjoint, ApartFromStatus, TokensApart;
    FourApart(s.cfg);
    SetBitsRecords(s, bits, s.cfg.batteryBad);
    SetBitsRecords(s, bits, s.cfg.checksumBad);
    SetBitsRecords(s, bits, s.cfg.defaultsLoaded);
    SetBitsRecords(s, bits, s.cfg.firstBoot);
  }

  /** The four tokens before and after some bits were recorded. */
  ghost predicate OwnBits(was: State, now: State, bits: Status)
    requires was.Valid() && now.Valid() && now.cfg == was.cfg
  {
    var l := was.cfg;
    && TokenValue(now, l.batteryBad) == (if BadBattery in bits then 1 else TokenValue(was, l.batteryBad))
    && TokenValue(now, l.checksumBad) == (if BadChecksum in bits then 1 else TokenValue(was, l.checksumBad))
    && TokenValue(now, l.defaultsLoaded) == (if DefaultsLoaded in bits then 1 else TokenValue(was, l.defaultsLoaded))
    && TokenValue(now, l.firstBoot) == (if FirstBootDetected in bits then 1 else TokenValue(was, l.firstBoot))
  }

  lemma ReportOwnBits(s: State, bits: Status)
    requires s.Valid() && TokensApart(s.cfg)
    ensures OwnBits(s, s.Report(bits), bits)
  {
    hide State.Report, TokenValue, Disjoint, ApartFromStatus, TokensApart;
    FourApart(s.cfg);
    ReportedTokens(s, bits, s.cfg.batteryBad);
    ReportedTokens(s, bits, s.cfg.checksumBad);
    ReportedTokens(s, bits, s.cfg.defaultsLoaded);
    ReportedTokens(s, bits, s.cfg.firstBoot);
  }

  /** Bits that do not route: nothing else changes what the tokens read. */
  lemma SameTokens(s: State, flags: Status, u: Token)
    requires s.Valid() && u in s.cfg.known && flags * ROUTING == s.status * ROUTING
    ensures TokenValue(s.(status := flags), u) == TokenValue(s, u)
  {
    hide Decode;
    assert forall f :: f in ROUTING ==> (f in flags <==> f in flags * ROUTING);
    assert forall f :: f in ROUTING ==> (f in s.status <==> f in s.status * ROUTING);
    ViewIgnoresOtherBits(s, s.(status := flags));
  }

  /** Clearing bits changes no token, routing apart. */
  lemma ClearBitsRecordsNothing(s: State, bits: Status, u: Token)
    requires s.Valid() && u in s.cfg.known
    ensures TokenValue(s.ClearBits(bits), u) == TokenValue(s.(status := s.status - bits), u)
  {
    hide State.Legacy, State.Synced, TokenValue;
    LegacyKeepsTokens(s.(status := s.status - bits), bits, false, u);
  }
}
