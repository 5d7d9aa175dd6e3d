/**
 Loading the table of optimal defaults into the physical registers, on a first
 boot, on recovery, or to flush the buffer; and switching the buffer on and off.
 */
module OptimalDefaults {
  import opened Bytes
  import opened TokenCodec
  import opened CmosStore
  import opened Requests

  /** The number of managed registers below a register: its place in the table. */
  function Rank(l: Layout, a: nat): (n: nat)
    requires l.first <= a
    ensures n <= a - l.first
    decreases a
  {
    if a == l.first then 0 else Rank(l, a - 1) + (if a - 1 in l.unmanaged then 0 else 1)
  }

  /** The register has a default in a table of this many entries, and it is not skipped. */
  predicate Loads(l: Layout, count: nat, skipping: bool, a: nat)
  {
    l.InRegion(a) && a !in l.unmanaged && 1 + Rank(l, a) < count && !(skipping && a in l.noChecksum)
  }

  /** The physical registers once the defaults are loaded below `end`. */
  ghost function Filled(s: State, count: nat, skipping: bool, end: nat): (p: seq<bv8>)
    requires s.Valid() && count <= |s.buf|
    ensures |p| == REGISTER_SPACE
    ensures forall a: nat {:trigger p[a]} :: a < REGISTER_SPACE ==>
              p[a] == if a < end && Loads(s.cfg, count, skipping, a) then s.buf[1 + Rank(s.cfg, a)] else s.phys[a]
  {
    seq(REGISTER_SPACE, a requires 0 <= a < REGISTER_SPACE =>
      if a < end && Loads(s.cfg, count, skipping, a) then s.buf[1 + Rank(s.cfg, a)] else s.phys[a])
  }

  /** Hardware routing, checksum updates off, and on a first boot no recovery restriction. */
  ghost function Prepared(s: State): (r: State)
    requires s.Valid()
    ensures r.Valid() && r.cfg == s.cfg && r.dxe == s.dxe
  {
    var s1 := s.ClearBits({OptimalDefaultsEnabled}).SetBits({ForceNoChecksum});
    if FirstBootDetected in s1.status then s1.ClearBits({BadChecksum}) else s1
  }

  ghost predicate Skipping(s: State)
  {
    BadChecksum in s.status && RecoverOnlyChecksummed in s.status
  }

  /** All defaults written, none of the status changed. */
  ghost function Stocked(s: State, count: nat): (r: State)
    requires s.Valid() && count <= |s.buf|
    ensures r.Valid() && r.cfg == s.cfg && r.dxe == s.dxe
  {
    var p := Prepared(s);
    PreparedKeepsSizes(s);
    p.(phys := Filled(p, count, Skipping(p), p.cfg.last + 1))
  }

  lemma PreparedKeepsSizes(s: State)
    requires s.Valid()
    ensures |Prepared(s).buf| == |s.buf|
  {
  }

  /** Sum, store and approve: the checksum is right whatever it was. */
  ghost function Resummed(s: State): (r: State)
    requires s.Valid()
    ensures r.Valid() && r.cfg == s.cfg && r.dxe == s.dxe
  {
    s.Checked().PutChecksum(s.FullSum())
  }

  /** Summed, stored, and no longer reported bad. */
  ghost function Approved(s: State): (r: State)
    requires s.Valid()
    ensures r.Valid() && r.cfg == s.cfg && r.dxe == s.dxe
  {
    Resummed(s).ClearBits({BadChecksum})
  }

  /** The closing steps of a load change no register but the status token's. */
  ghost function Closed(s: State, saved: Status): (r: State)
    requires s.Valid()
    ensures r.Valid() && r.cfg == s.cfg && r.dxe == s.dxe
  {
    s.(status := s.status + saved).ClearBits({ForceNoChecksum}).SetBits({DefaultsLoaded})
  }

  ghost function Loaded(s: State, count: nat): (r: State)
    requires s.Valid() && count <= |s.buf|
    ensures r.Valid() && r.cfg == s.cfg && r.dxe == s.dxe
  {
    var s1 := Stocked(s, count);
    Closed(if ErrorLoadingDefaults in s1.status then s1 else Approved(s1), s.status * {OptimalDefaultsEnabled})
  }

  ghost function LoadOutcome(s: State): EfiStatus
  {
    if ErrorLoadingDefaults in s.status then Unsupported else Success
  }

  /** The buffer takes over, with a checksum of what it shows. */
  ghost function BufferedOn(s: State): (r: State)
    requires s.Valid()
    ensures r.Valid() && r.cfg == s.cfg && r.dxe == s.dxe
  {
    if OptimalDefaultsEnabled in s.status then s else Resummed(s.SetBits({OptimalDefaultsEnabled}))
  }

  // ------------------------------------------------------- the loop, register by register

  lemma FilledStart(s: State, count: nat, skipping: bool)
    requires s.Valid() && count <= |s.buf|
    ensures Filled(s, count, skipping, s.cfg.first) == s.phys
  {
  }

  lemma FilledStep(s: State, count: nat, skipping: bool, a: nat)
    requires s.Valid() && count <= |s.buf| && s.cfg.InRegion(a)
    ensures Filled(s, count, skipping, a + 1) ==
            if Loads(s.cfg, count, skipping, a)
            then Filled(s, count, skipping, a)[a := s.buf[1 + Rank(s.cfg, a)]]
            else Filled(s, count, skipping, a)
  {
  }

  lemma RankStep(l: Layout, a: nat)
    requires l.first <= a
    ensures Rank(l, a + 1) == Rank(l, a) + if a in l.unmanaged then 0 else 1
  {
  }

  /** The managed registers below a register. */
  ghost function ManagedBelow(l: Layout, a: nat): set<nat>
  {
    set b: nat | l.first <= b < a && b !in l.unmanaged
  }

  /** The rank of a register is how many they are. */
  lemma {:induction false} RankCounts(l: Layout, a: nat)
    requires l.first <= a
    ensures Rank(l, a) == |ManagedBelow(l, a)|
    decreases a
  {
    if a == l.first {
      assert ManagedBelow(l, a) == {};
    } else {
      RankCounts(l, a - 1);
      assert ManagedBelow(l, a) ==
             ManagedBelow(l, a - 1) + if a - 1 in l.unmanaged then {} else {a - 1};
    }
  }

  lemma {:induction false} RankIsMonotone(l: Layout, a: nat, b: nat)
    requires l.first <= a <= b
    ensures Rank(l, a) <= Rank(l, b) <= Rank(l, a) + (b - a)
    decreases b
  {
    if a < b {
      RankIsMonotone(l, a, b - 1);
    }
  }

  /** Past the end of the table there is nothing more to load. */
  lemma FilledDone(s: State, count: nat, skipping: bool, a: nat)
    requires s.Valid() && count <= |s.buf| && s.cfg.InRegion(a) && 1 + Rank(s.cfg, a) >= count
    ensures Filled(s, count, skipping, s.cfg.last + 1) == Filled(s, count, skipping, a)
  {
    forall b: nat | b < REGISTER_SPACE
      ensures Filled(s, count, skipping, s.cfg.last + 1)[b] == Filled(s, count, skipping, a)[b]
    {
      if a <= b <= s.cfg.last {
        RankIsMonotone(s.cfg, a, b);
      }
    }
  }

  /** Writing all bits to the hardware with updates off is a plain store. */
  lemma PlainStore(s: State, a: nat, v: bv8)
    requires s.Valid() && s.cfg.InRegion(a)
    requires OptimalDefaultsEnabled !in s.status && ForceNoChecksum in s.status
    ensures s.Update(s.Route(a), a, ALL_BITS, v) == s.(phys := s.phys[a := v])
  {
    assert Merge(s.phys[a], ALL_BITS, v) == v;
  }
}
