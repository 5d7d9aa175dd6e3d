/** The public read and write requests, and what they do to the view and the checksum. */
module Requests {
  import opened Bytes
  import opened TokenCodec
  import opened CmosStore
  import opened StoreLaws

  datatype EfiStatus = Success | InvalidParameter | NotFound | DeviceError | Unsupported

  /** Registers up to this one answer raw requests whatever the battery says. */
  const LAST_ALWAYS_REACHABLE: nat := 0xe

  /** The outcome of a raw request: the code is a register address, not a token. */
  ghost function RawOutcome(cfg: Layout, usable: bool, code: nat, writing: bool): EfiStatus
  {
    if code > LAST_ALWAYS_REACHABLE && !usable then DeviceError
    else if code > LAST_ALWAYS_REACHABLE && writing && cfg.first <= code < cfg.limit then InvalidParameter
    else if code in cfg.reachable then Success else NotFound
  }

  ghost function TokenOutcome(cfg: Layout, t: Token, writing: bool, v: bv8): EfiStatus
    requires cfg.Valid()
  {
    if t !in cfg.known then InvalidParameter
    else if writing && Overflows(v, t) then InvalidParameter else Success
  }

  ghost function WriteOutcome(s: State, t: Token, v: bv8): EfiStatus
    requires s.Valid()
  {
    if t < MIN_TOKEN_VALUE then RawOutcome(s.cfg, IsUsable in s.status, t, true)
    else TokenOutcome(s.cfg, t, true, v)
  }

  ghost function Written(s: State, t: Token, v: bv8): (r: State)
    requires s.Valid()
    ensures r.Valid() && r.cfg == s.cfg
  {
    if WriteOutcome(s, t, v) != Success then s
    else if t < MIN_TOKEN_VALUE then s.Put(Hardware, t, v)
    else s.Update(s.Route(Address(t)), Address(t), ClobberBits(t), Encode(v, t))
  }

  ghost function ReadOutcome(s: State, t: Token): EfiStatus
    requires s.Valid()
  {
    if t < MIN_TOKEN_VALUE then RawOutcome(s.cfg, IsUsable in s.status, t, false)
    else TokenOutcome(s.cfg, t, false, 0)
  }

  ghost function ReadValue(s: State, t: Token): bv8
    requires s.Valid() && ReadOutcome(s, t) == Success
  {
    if t < MIN_TOKEN_VALUE then s.phys[t] else Decode(s.View(Address(t)), t)
  }

  // -------------------------------------------------------------- effect of a write

  /** What a write at the routed place does to the view, whichever place that is. */
  lemma QuietUpdateOnView(s: State, a: nat, mask: bv8, v: bv8)
    requires s.Valid() && s.cfg.InRegion(a) && (ForceNoChecksum in s.status || s.cfg.Excluded(a))
    ensures var t := s.Update(s.Route(a), a, mask, v);
      && SameRouting(s, t) && t.View(a) == Merge(s.View(a), mask, v) && AgreeOff(s, t, {a})
      && (ForceNoChecksum in t.status <==> ForceNoChecksum in s.status)
  {
    NotingIsQuiet(s, a);
    PutAgrees(s.NotedIfOn(a), s.Route(a), a, Merge(s.View(a), mask, v));
  }

  lemma SummedUpdateOnView(s: State, a: nat, mask: bv8, v: bv8)
    requires s.Valid() && s.cfg.Summed(a) && ForceNoChecksum !in s.status
    ensures var t := s.Update(s.Route(a), a, mask, v);
      && SameRouting(s, t) && ForceNoChecksum !in t.status
      && t.View(a) == Merge(s.View(a), mask, v)
      && AgreeOff(s, t, {a, Address(s.cfg.checksumHigh), Address(s.cfg.checksumLow)})
      && t.Stored() == s.Adjusted(s.View(a), t.View(a))
      && t.View(Address(s.cfg.checksumLow)) == Low(t.Stored())
      && t.View(Address(s.cfg.checksumHigh)) == High(t.Stored())
  {
    hide State.Update, State.Put, State.PutChecksum, State.NotedIfOn, State.Adjusted, Merge, Low, High;
    var now := Merge(s.View(a), mask, v);
    UpdateUnfolds(s, a, mask, v);
    var s1 := s.NotedIfOn(a);
    NotingIsQuiet(s, a);
    PutAgrees(s1, s.Route(a), a, now);
    PutChecksumStores(s1.Put(s.Route(a), a, now), s.Adjusted(s.View(a), now));
  }

  lemma UpdateUnfolds(s: State, a: nat, mask: bv8, v: bv8)
    requires s.Valid() && s.cfg.Summed(a) && ForceNoChecksum !in s.status
    ensures var now := Merge(s.View(a), mask, v);
      s.Update(s.Route(a), a, mask, v) ==
      s.NotedIfOn(a).Put(s.Route(a), a, now).PutChecksum(s.Adjusted(s.View(a), now))
  {
  }

  /** A write anywhere but on the checksum registers leaves the stored checksum as far off as it was. */
  lemma UpdateKeepsDrift(s: State, a: nat, mask: bv8, v: bv8)
    requires s.Valid() && s.cfg.InRegion(a) && !s.cfg.IsChecksumRegister(a) && ForceNoChecksum !in s.status
    ensures s.Update(s.Route(a), a, mask, v).Drift() == s.Drift()
  {
    hide State.Update, State.Drift, State.Stored, State.FullSum, Merge, Layout.Valid;
    InSpace(s.cfg, a);
    ExcludedChecksum(s.cfg);
    var t := s.Update(s.Route(a), a, mask, v);
    if s.cfg.Excluded(a) {
      QuietUpdateOnView(s, a, mask, v);
      SameDrift(s, t, a);
    } else {
      SummedUpdateOnView(s, a, mask, v);
      AdjustedKeepsDrift(s, t, a);
      StoredDrift(t, s.Drift());
    }
  }

  lemma SameDrift(s: State, t: State, a: nat)
    requires s.Valid() && t.Valid() && s.cfg == t.cfg && s.cfg.Excluded(a) && !s.cfg.IsChecksumRegister(a)
    requires AgreeOff(s, t, {a})
    ensures t.Drift() == s.Drift()
  {
    CoherentFollowsViews(s, t);
  }

  lemma ExcludedChecksum(l: Layout)
    requires l.Valid()
    ensures l.Excluded(Address(l.checksumHigh)) && l.Excluded(Address(l.checksumLow))
  {
  }

  /** A write on a checksum register moves the drift unless it changes nothing. */
  lemma ChecksumRegisterWrite(s: State, a: nat, mask: bv8, v: bv8)
    requires s.Valid() && s.cfg.IsChecksumRegister(a)
    ensures s.Update(s.Route(a), a, mask, v).Drift() == s.Drift() <==> Merge(s.View(a), mask, v) == s.View(a)
  {
    hide State.Update, State.FullSum, Word, Merge, High, Low;
    var t := s.Update(s.Route(a), a, mask, v);
    ExcludedChecksum(s.cfg);
    QuietUpdateOnView(s, a, mask, v);
    StoredSumIsSettled(s, t);
    SameDistance(s.Stored(), t.Stored(), s.FullSum());
    var hi, lo := Address(s.cfg.checksumHigh), Address(s.cfg.checksumLow);
    if t.Stored() == s.Stored() {
      WordIsInjective(s.View(hi), s.View(lo), t.View(hi), t.View(lo));
    }
  }

  lemma SameDistance(w: nat, w': nat, sum: nat)
    requires w < WORD && w' < WORD && sum < WORD
    ensures (w as int - sum) % WORD == (w' as int - sum) % WORD <==> w == w'
  {
  }

  /**
   A token write leaves the stored checksum as far off as it was, be it right or
   wrong, exactly when it does not change one of the two checksum registers.
   */
  lemma WriteKeepsDriftExactly(s: State, t: Token, v: bv8)
    requires s.Valid() && t in s.cfg.known && ForceNoChecksum !in s.status
    ensures Written(s, t, v).Drift() == s.Drift() <==>
            (s.cfg.IsChecksumRegister(Address(t)) && !Overflows(v, t)
             ==> Merge(s.View(Address(t)), ClobberBits(t), Encode(v, t)) == s.View(Address(t)))
  {
    hide State.Update, State.Drift, Merge, Encode, ClobberBits, Overflows;
    var a := Address(t);
    if !Overflows(v, t) {
      if s.cfg.IsChecksumRegister(a) {
        ChecksumRegisterWrite(s, a, ClobberBits(t), Encode(v, t));
      } else {
        UpdateKeepsDrift(s, a, ClobberBits(t), Encode(v, t));
      }
    }
  }

  /** On a right checksum: the write leaves it right under the same condition. */
  lemma WriteKeepsCoherenceExactly(s: State, t: Token, v: bv8)
    requires s.Valid() && t in s.cfg.known && s.Coherent() && ForceNoChecksum !in s.status
    ensures Written(s, t, v).Coherent() <==>
            (s.cfg.IsChecksumRegister(Address(t)) && !Overflows(v, t)
             ==> Merge(s.View(Address(t)), ClobberBits(t), Encode(v, t)) == s.View(Address(t)))
  {
    hide Written, State.Drift, State.Coherent, Merge, Encode, ClobberBits, Overflows, Layout.Valid;
    WriteKeepsDriftExactly(s, t, v);
    DriftTellsCoherence(s);
    DriftTellsCoherence(Written(s, t, v));
  }

  // ------------------------------------------------------------------- token laws

  /** Whatever the routing, an accepted value is read back. */
  lemma WriteThenRead(s: State, t: Token, v: bv8)
    requires s.Valid() && t in s.cfg.known && !Overflows(v, t)
    ensures WriteOutcome(s, t, v) == Success && ReadOutcome(Written(s, t, v), t) == Success
    ensures ReadValue(Written(s, t, v), t) == v
  {
    var a := Address(t);
    if ForceNoChecksum in s.status || s.cfg.Excluded(a) {
      QuietUpdateOnView(s, a, ClobberBits(t), Encode(v, t));
    } else {
      SummedUpdateOnView(s, a, ClobberBits(t), Encode(v, t));
    }
    DecodeAfterMerge(s.View(a), v, t);
  }

  /** A write is invisible through every token with other bits, the checksum's apart. */
  lemma WriteKeepsOtherTokens(s: State, t: Token, v: bv8, u: Token)
    requires s.Valid() && t in s.cfg.known && u in s.cfg.known && Disjoint(t, u)
    requires s.cfg.Summed(Address(t)) ==> !s.cfg.IsChecksumRegister(Address(u))
    ensures ReadValue(Written(s, t, v), u) == ReadValue(s, u)
  {
    hide Merge, Encode, ClobberBits, Overflows, State.Update;
    var a := Address(t);
    if !Overflows(v, t) {
      if ForceNoChecksum in s.status || s.cfg.Excluded(a) {
        QuietUpdateOnView(s, a, ClobberBits(t), Encode(v, t));
      } else {
        SummedUpdateOnView(s, a, ClobberBits(t), Encode(v, t));
      }
      if Address(u) == a {
        DisjointFieldKept(s.View(a), v, t, u);
      }
    }
  }

  lemma OneFits(t: Token)
    requires Fits(t)
    ensures !Overflows(1, t)
  {
  }

  /** The manager marks a status token by the write anyone could make. */
  lemma MarkIsWrite(s: State, t: Token)
    requires s.Valid() && s.cfg.StatusToken(t)
    ensures WriteOutcome(s, t, 1) == Success && Written(s, t, 1) == s.Mark(t)
  {
    OneFits(t);
  }
}
