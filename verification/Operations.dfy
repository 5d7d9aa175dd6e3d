/** Every public operation of the manager, and what any run of them keeps. */
module Operations {
  import opened Bytes
  import opened TokenCodec
  import opened CmosStore
  import opened StoreLaws
  import opened Requests
  import FlatStore
  import opened StatusLaws
  import opened OptimalDefaults
  import opened LoadingLaws
  import opened BufferIdle
  import opened ApiPointer
  import opened Clock
  import opened Boot
  import opened BootLaws
  import opened PeiLaws
  import opened HandOverLaws

  datatype Operation =
    | WriteToken(token: Token, value: bv8)
    | SetFlags(bits: Status)
    | ClearFlags(bits: Status)
    | Recheck
    | StoreSum(sum: nat)
    | LoadDefaults
    | Configure(on: bool, off: bool, behind: nat -> bv8)
    | SavePointer(pointer: nat)
    | SetTime(time: Time)
    | StartAgain

  ghost predicate Ready(s: State, count: nat)
  {
    s.Valid() && s.cfg.ApiValid() && s.cfg.ClockValid() && count <= |s.buf|
  }

  /** The arguments are within their machine types. */
  predicate Typed(op: Operation)
  {
    (op.StoreSum? ==> op.sum < WORD) && (op.SetTime? ==> InWidth(op.time))
  }

  ghost function Performed(s: State, count: nat, op: Operation): (r: State)
    requires Ready(s, count) && Typed(op)
    ensures Ready(r, count) && r.cfg == s.cfg
  {
    match op
    case WriteToken(t, v) => Written(s, t, v)
    case SetFlags(bits) => s.SetBits(bits)
    case ClearFlags(bits) => s.ClearBits(bits)
    case Recheck => s.Checked()
    case StoreSum(sum) => s.PutChecksum(sum)
    case LoadDefaults => Loaded(s, count)
    case Configure(on, off, behind) =>
      if on && off then s
      else if on then SwitchedOn(s, count, behind)
      else if off then s.ClearBits({OptimalDefaultsEnabled}) else s
    case SavePointer(p) => if IsUsable in s.status then Saved(s, p, 4) else s
    case SetTime(t) => TimeSet(s, t)
    case StartAgain => StartedAgain(s)
  }

  ghost predicate AllTyped(ops: seq<Operation>)
  {
    forall op :: op in ops ==> Typed(op)
  }

  ghost function PerformedAll(s: State, count: nat, ops: seq<Operation>): (r: State)
    requires Ready(s, count) && AllTyped(ops)
    ensures Ready(r, count) && r.cfg == s.cfg
    decreases |ops|
  {
    if ops == [] then s else PerformedAll(Performed(s, count, ops[0]), count, ops[1..])
  }

  // --------------------------------------------------------------- what becomes of flags

  /** The flags that are not the checksum code's own. */
  const OWN: Status := {AddressIsChecksummed, ForceNoChecksum, BadChecksum, DefaultsLoaded}

  function Raises(op: Operation): Status
  {
    match op
    case SetFlags(bits) => bits
    case Configure(on, off, _) => if on && !off then {OptimalDefaultsEnabled} else {}
    case StartAgain => {InterfaceAlreadyInstalled}
    case _ => {}
  }

  function Lowers(op: Operation): Status
  {
    match op
    case ClearFlags(bits) => bits
    case Configure(on, off, _) => if off && !on then {OptimalDefaultsEnabled} else {}
    case _ => {}
  }

  /** The flag is the one it was, or as asked. */
  ghost predicate FlagFollows(s: State, r: State, op: Operation, f: Flag)
  {
    f in r.status <==> f in Raises(op) || (f in s.status && f !in Lowers(op))
  }

  lemma SameStatusFollows(s: State, r: State, op: Operation, f: Flag)
    requires f !in OWN && Raises(op) == {} && Lowers(op) == {}
    requires r.status - {AddressIsChecksummed} == s.status - {AddressIsChecksummed}
    ensures FlagFollows(s, r, op, f)
  {
    SameFlags(r.status, s.status);
  }

  lemma WriteFlags(s: State, t: Token, v: bv8)
    requires s.Valid()
    ensures ForceNoChecksum !in s.status ==>
              Written(s, t, v).status - {AddressIsChecksummed} == s.status - {AddressIsChecksummed}
    ensures forall f :: f !in OWN ==> (f in Written(s, t, v).status <==> f in s.status)
  {
    hide State.Update, Encode, ClobberBits, Layout.Valid;
    if WriteOutcome(s, t, v) == Success && t >= MIN_TOKEN_VALUE {
      KnownIsManaged(s.cfg, t);
      UpdateFlags(s, s.Route(Address(t)), Address(t), ClobberBits(t), Encode(v, t));
    }
  }

  lemma UpdateFlags(s: State, place: Place, a: nat, mask: bv8, v: bv8)
    requires s.Valid() && s.Has(place, a)
    ensures ForceNoChecksum !in s.status ==>
              s.Update(place, a, mask, v).status - {AddressIsChecksummed} == s.status - {AddressIsChecksummed}
    ensures forall f :: f !in OWN ==> (f in s.Update(place, a, mask, v).status <==> f in s.status)
  {
    hide State.PutChecksum, State.NotedIfOn, Merge, State.Adjusted, Layout.Valid;
    NotingIsQuiet(s, a);
    SameFlags(s.NotedIfOn(a).status, s.status);
    var now := Merge(s.At(place, a), mask, v);
    var p := s.NotedIfOn(a).Put(place, a, now);
    SumFlags(p, s.Adjusted(s.At(place, a), now));
  }

  lemma CheckFlags(s: State, f: Flag)
    requires s.Valid() && f !in {AddressIsChecksummed, BadChecksum}
    ensures f in s.Checked().status <==> f in s.status
  {
    hide State.SetBits, State.ClearBits, State.Coherent;
    SetBitsStatus(s, {BadChecksum});
    ClearBitsStatus(s, {BadChecksum});
  }

  lemma SwitchFlags(s: State, count: nat, behind: nat -> bv8, f: Flag)
    requires s.Valid() && count <= |s.buf| && f !in OWN
    ensures f in SwitchedOn(s, count, behind).status <==> f == OptimalDefaultsEnabled || f in s.status
  {
    hide BufferedOn, State.Coherent, State.View, Layout.Valid;
    var w := Writable(s, count, behind);
    if OptimalDefaultsEnabled in s.status {
      AlreadyOn(w);
    } else {
      BufferedOnFacts(w);
    }
  }

  lemma AlreadyOn(s: State)
    requires s.Valid() && OptimalDefaultsEnabled in s.status
    ensures BufferedOn(s) == s
  {
  }

  lemma FlagsAfter(s: State, count: nat, op: Operation, f: Flag)
    requires Ready(s, count) && Typed(op) && f !in OWN
    ensures FlagFollows(s, Performed(s, count, op), op, f)
  {
    hide Written, State.SetBits, State.ClearBits, State.Checked, State.PutChecksum, Loaded, Saved, TimeSet, SwitchedOn,
      Layout.Valid;
    match op
    case WriteToken(t, v) => WriteFlags(s, t, v);
    case SetFlags(bits) => SetBitsStatus(s, bits);
    case ClearFlags(bits) => ClearBitsStatus(s, bits);
    case Recheck => CheckFlags(s, f);
    case StoreSum(sum) => SumFlags(s, sum);
    case LoadDefaults => LoadedStatus(s, count, f);
    case Configure(on, off, behind) =>
      SwitchFlags(s, count, behind, f);
      ClearBitsStatus(s, {OptimalDefaultsEnabled});
    case SavePointer(p) =>
      SavedFacts(s, p, 4);
      SameStatusFollows(s, Performed(s, count, op), op, f);
    case SetTime(t) => TimeSettles(s, t);
    case StartAgain => SetBitsStatus(s, {InterfaceAlreadyInstalled});
  }

  lemma SumFlags(s: State, sum: nat)
    requires s.Valid() && sum < WORD
    ensures s.PutChecksum(sum).status == s.status - {ForceNoChecksum}
    ensures HobFollows(s.PutChecksum(sum)) && (s.PutChecksum(sum).hob.NoHob? <==> s.hob.NoHob?)
  {
    hide Layout.Valid, Low, High;
  }

  lemma TimeSettles(s: State, t: Time)
    requires s.Valid() && s.cfg.ClockValid() && InWidth(t)
    ensures TimeSet(s, t).status == s.status && TimeSet(s, t).hob == s.hob
  {
    hide TimeSet, Layout.Valid;
    TimeSetAway(s, t);
  }

  // ------------------------------------------------------------- between operations

  /** Checksum updates are on, and the hand-off block, if any, shows the status. */
  ghost predicate Settled(s: State)
  {
    ForceNoChecksum !in s.status && HobFollows(s)
  }

  /** The one call that turns checksum updates off. */
  predicate TurnsUpdatesOff(op: Operation)
  {
    op.SetFlags? && ForceNoChecksum in op.bits
  }

  /** The hand-off block shows the status, and is there if it was. */
  ghost predicate InStep(s: State, r: State)
  {
    HobFollows(r) && (r.hob.NoHob? <==> s.hob.NoHob?)
  }

  lemma ChangeSettles(s: State, c: StatusChange)
    requires s.Valid()
    ensures InStep(s, Changed(s, c))
    ensures ForceNoChecksum in Changed(s, c).status <==>
            if ForceNoChecksum in c.bits then c.Set? else ForceNoChecksum in s.status
  {
    hide State.SetBits, State.ClearBits;
    ChangeKeepsDiagnostic(s, c);
    SetBitsStatus(s, c.bits);
    ClearBitsStatus(s, c.bits);
  }

  lemma CheckSettles(s: State)
    requires s.Valid()
    ensures InStep(s, s.Checked())
    ensures ForceNoChecksum in s.Checked().status <==> ForceNoChecksum in s.status
  {
    hide State.SetBits, State.ClearBits, State.Coherent;
    ChangeSettles(s, Set({BadChecksum}));
    ChangeSettles(s, Clear({BadChecksum}));
  }

  lemma SwitchSettles(s: State, count: nat, behind: nat -> bv8)
    requires s.Valid() && count <= |s.buf| && HobFollows(s)
    ensures InStep(s, SwitchedOn(s, count, behind))
    ensures ForceNoChecksum !in s.status ==> ForceNoChecksum !in SwitchedOn(s, count, behind).status
  {
    hide State.SetBits, State.Checked, State.PutChecksum, State.FullSum, Layout.Valid;
    var w := Writable(s, count, behind);
    var o := w.SetBits({OptimalDefaultsEnabled});
    ChangeSettles(w, Set({OptimalDefaultsEnabled}));
    CheckSettles(o);
    SumFlags(o.Checked(), o.FullSum());
  }

  lemma LoadSettles(s: State, count: nat)
    requires s.Valid() && count <= |s.buf|
    ensures InStep(s, Loaded(s, count)) && ForceNoChecksum !in Loaded(s, count).status
  {
    hide Stocked, Approved, Closed, State.Valid, Layout.Valid;
    LoadKeepsHob(s, count);
    var s1 := Stocked(s, count);
    var s2 := if ErrorLoadingDefaults in s1.status then s1 else Approved(s1);
    StockedBlock(s, count);
    ApprovedBlock(s1);
    ClosedBlock(s2, s.status * {OptimalDefaultsEnabled});
    ClosedStatus(s2, s.status * {OptimalDefaultsEnabled});
  }

  lemma StockedBlock(s: State, count: nat)
    requires s.Valid() && count <= |s.buf|
    ensures Stocked(s, count).hob.NoHob? <==> s.hob.NoHob?
  {
    hide State.SetBits, State.ClearBits, Filled, Layout.Valid;
    ChangeSettles(s, Clear({OptimalDefaultsEnabled}));
    var s1 := s.ClearBits({OptimalDefaultsEnabled});
    ChangeSettles(s1, Set({ForceNoChecksum}));
    ChangeSettles(s1.SetBits({ForceNoChecksum}), Clear({BadChecksum}));
  }

  lemma ApprovedBlock(s: State)
    requires s.Valid()
    ensures Approved(s).hob.NoHob? <==> s.hob.NoHob?
  {
    hide State.Checked, State.PutChecksum, State.ClearBits, State.FullSum, Layout.Valid;
    CheckSettles(s);
    SumFlags(s.Checked(), s.FullSum());
    ChangeSettles(Resummed(s), Clear({BadChecksum}));
  }

  lemma ClosedBlock(s: State, saved: Status)
    requires s.Valid()
    ensures Closed(s, saved).hob.NoHob? <==> s.hob.NoHob?
  {
    hide State.SetBits, State.ClearBits, Layout.Valid;
    var s1 := s.(status := s.status + saved);
    ChangeSettles(s1, Clear({ForceNoChecksum}));
    ChangeSettles(s1.ClearBits({ForceNoChecksum}), Set({DefaultsLoaded}));
  }

  lemma {:induction false} PointerSettles(s: State, p: nat, n: nat)
    requires s.Valid() && s.cfg.ApiValid() && n <= 4 && HobFollows(s)
    ensures InStep(s, Saved(s, p, n))
  {
    hide State.Update, PointerByte;
    if n > 0 {
      PointerSettles(s, p, n - 1);
      assert s.cfg.apiByte3 + n - 1 in s.cfg.reachable;
      UpdateKeepsHob(Saved(s, p, n - 1), Hardware, s.cfg.apiByte3 + n - 1, ALL_BITS, PointerByte(p, n - 1));
    }
  }

  /** After every operation updates are on again, unless the call was to turn them off. */
  lemma StaysSettled(s: State, count: nat, op: Operation)
    requires Ready(s, count) && Typed(op) && Settled(s)
    ensures InStep(s, Performed(s, count, op))
    ensures Settled(Performed(s, count, op)) <==> !TurnsUpdatesOff(op)
  {
    hide Written, State.SetBits, State.ClearBits, State.Checked, State.PutChecksum, Loaded, Saved, TimeSet, SwitchedOn,
      Layout.Valid;
    match op
    case WriteToken(t, v) =>
      WriteKeepsHob(s, t, v);
      WriteFlags(s, t, v);
      SameFlags(Written(s, t, v).status, s.status);
    case SetFlags(bits) => ChangeSettles(s, Set(bits));
    case ClearFlags(bits) => ChangeSettles(s, Clear(bits));
    case Recheck => CheckSettles(s);
    case StoreSum(sum) => SumFlags(s, sum);
    case LoadDefaults => LoadSettles(s, count);
    case Configure(on, off, behind) =>
      SwitchSettles(s, count, behind);
      ChangeSettles(s, Clear({OptimalDefaultsEnabled}));
    case SavePointer(p) =>
      PointerSettles(s, p, 4);
      SavedFacts(s, p, 4);
      SameFlags(Saved(s, p, 4).status, s.status);
    case SetTime(t) => TimeSettles(s, t);
    case StartAgain => ChangeSettles(s, Set({InterfaceAlreadyInstalled}));
  }

  lemma {:induction false} RunStaysSettled(s: State, count: nat, ops: seq<Operation>)
    requires Ready(s, count) && AllTyped(ops) && Settled(s)
    requires forall op :: op in ops ==> !TurnsUpdatesOff(op)
    ensures Settled(PerformedAll(s, count, ops)) && InStep(s, PerformedAll(s, count, ops))
    decreases |ops|
  {
    hide Performed;
    if ops != [] {
      assert ops[0] in ops;
      StaysSettled(s, count, ops[0]);
      RunStaysSettled(Performed(s, count, ops[0]), count, ops[1..]);
    }
  }

  // -------------------------------------------------------------------- the checksum

  /**
   What keeps a right checksum right, told before the call: the write does not
   change a checksum register; the bits route to a store whose checksum is right;
   the sum stored is the sum; the load is a careful one.
   */
  ghost predicate Careful(s: State, count: nat, op: Operation)
    requires s.Valid() && count <= |s.buf|
  {
    match op
    case WriteToken(t, v) =>
      t in s.cfg.known && s.cfg.IsChecksumRegister(Address(t)) && !Overflows(v, t)
      ==> Merge(s.View(Address(t)), ClobberBits(t), Encode(v, t)) == s.View(Address(t))
    case SetFlags(bits) => s.(status := s.status + bits).Coherent()
    case ClearFlags(bits) => s.(status := s.status - bits).Coherent()
    case StoreSum(sum) => sum == s.FullSum()
    case LoadDefaults => CarefulLoad(s, count)
    case Configure(on, off, _) => off && !on ==> OnHardware(s).Coherent()
    case _ => true
  }

  /** The registers as a load leaves them, the closing status changes apart. */
  ghost function OnceLoaded(s: State, count: nat): (k: State)
    requires s.Valid() && count <= |s.buf|
    ensures k.Valid() && k.cfg == s.cfg && k.dxe == s.dxe
  {
    var k := Stocked(s, count);
    if ErrorLoadingDefaults in s.status then k else Approved(k)
  }

  /**
   On the hardware a load sums what it loaded, unless an error is on record; the
   defaults must then bring the right sum along. While buffering it must not
   change what is shown of the two checksum registers: they are buffered, or the
   sum of what it loads, or on an error the default it loads, has the same bytes.
   */
  ghost predicate CarefulLoad(s: State, count: nat)
    requires s.Valid() && count <= |s.buf|
  {
    ChecksumRegisters(s.cfg);
    InSpace(s.cfg, Address(s.cfg.checksumHigh));
    InSpace(s.cfg, Address(s.cfg.checksumLow));
    if OptimalDefaultsEnabled !in s.status then
      ErrorLoadingDefaults !in s.status || Stocked(s, count).Coherent()
    else
      var sum := Stocked(s, count).FullSum();
      && KeepsByte(s, count, Address(s.cfg.checksumHigh), High(sum))
      && KeepsByte(s, count, Address(s.cfg.checksumLow), Low(sum))
  }

  ghost predicate KeepsByte(s: State, count: nat, c: nat, summed: bv8)
    requires s.Valid() && count <= |s.buf| && s.cfg.InRegion(c) && c < REGISTER_SPACE
  {
    || s.Route(c) == Buffer
    || s.View(c) == if ErrorLoadingDefaults !in s.status then summed
                    else if Loads(s.cfg, count, SkipsUnchecked(s), c) then s.buf[1 + Rank(s.cfg, c)]
                    else s.phys[c]
  }

  /** The two checksum registers after a load. */
  lemma ChecksumOnceLoaded(s: State, count: nat)
    requires s.Valid() && count <= |s.buf|
    ensures var k, hi, lo := OnceLoaded(s, count), Address(s.cfg.checksumHigh), Address(s.cfg.checksumLow);
      var sum := Stocked(s, count).FullSum();
      && hi < REGISTER_SPACE && lo < REGISTER_SPACE
      && (ErrorLoadingDefaults !in s.status ==> k.phys[hi] == High(sum) && k.phys[lo] == Low(sum))
      && (ErrorLoadingDefaults in s.status ==> forall c :: c in {hi, lo} ==>
            k.phys[c] == if Loads(s.cfg, count, SkipsUnchecked(s), c) then s.buf[1 + Rank(s.cfg, c)] else s.phys[c])
  {
    hide Stocked, Approved, Loads, Rank, High, Low, Layout.Valid, State.FullSum;
    ChecksumRegisters(s.cfg);
    ChecksumIsUntouched(s);
    InSpace(s.cfg, Address(s.cfg.checksumHigh));
    InSpace(s.cfg, Address(s.cfg.checksumLow));
    StockedFacts(s, count);
    if ErrorLoadingDefaults !in s.status {
      ApprovedChecksum(Stocked(s, count));
    }
  }

  /** On the hardware the sum ends in the two registers. */
  lemma ApprovedChecksum(k: State)
    requires k.Valid() && OptimalDefaultsEnabled !in k.status
    ensures var hi, lo := Address(k.cfg.checksumHigh), Address(k.cfg.checksumLow);
      && hi < REGISTER_SPACE && lo < REGISTER_SPACE
      && Approved(k).phys[hi] == High(k.FullSum()) && Approved(k).phys[lo] == Low(k.FullSum())
  {
    hide State.Checked, State.PutChecksum, State.ClearBits, State.FullSum, High, Low, Layout.Valid, CellsKept;
    ChecksumRegisters(k.cfg);
    InSpace(k.cfg, Address(k.cfg.checksumHigh));
    InSpace(k.cfg, Address(k.cfg.checksumLow));
    var c := k.Checked();
    CheckedFacts(k);
    PutChecksumStores(c, k.FullSum());
    var r := Resummed(k);
    ClearBitsKeepsCells(r, {BadChecksum});
    HardwareViews(r);
    ChecksumIsUntouched(r);
    ClearedKeepsChecksum(r);
  }

  lemma HardwareViews(r: State)
    requires r.Valid() && OptimalDefaultsEnabled !in r.status
    ensures forall c: nat {:trigger r.View(c)} :: r.cfg.InRegion(c) ==> c < REGISTER_SPACE && r.View(c) == r.phys[c]
  {
  }

  lemma ClearedKeepsChecksum(r: State)
    requires r.Valid() && CellsKept(r, r.ClearBits({BadChecksum}))
    ensures var hi, lo := Address(r.cfg.checksumHigh), Address(r.cfg.checksumLow);
      && hi < REGISTER_SPACE && lo < REGISTER_SPACE
      && r.ClearBits({BadChecksum}).phys[hi] == r.phys[hi] && r.ClearBits({BadChecksum}).phys[lo] == r.phys[lo]
  {
    hide State.ClearBits;
    ChecksumIsUntouched(r);
  }

  lemma LoadedCells(s: State, count: nat)
    requires s.Valid() && count <= |s.buf|
    ensures var k := OnceLoaded(s, count);
      && OptimalDefaultsEnabled !in k.status && CellsKept(k, Loaded(s, count))
      && (forall i: nat {:trigger k.buf[i]} :: i < |s.buf| ==> k.buf[i] == s.buf[i])
      && (ErrorLoadingDefaults in k.status <==> ErrorLoadingDefaults in s.status)
  {
    hide Stocked, Prepared, Approved, Closed, Layout.Valid, CellsKept;
    StockedFacts(s, count);
    PreparedFacts(s);
    var k := Stocked(s, count);
    StockedStatus(s, count, ErrorLoadingDefaults);
    ApprovedIsIdle(k);
    ApprovedStatus(k, ErrorLoadingDefaults);
    ClosedCells(OnceLoaded(s, count), s.status * {OptimalDefaultsEnabled});
  }

  /** What a managed register outside the status tokens shows after a load. */
  lemma ShownAfterLoad(s: State, count: nat, a: nat)
    requires s.Valid() && count <= |s.buf| && s.cfg.InRegion(a) && Untouched(s, a)
    ensures a < REGISTER_SPACE
    ensures Loaded(s, count).View(a) ==
            if s.Route(a) == Buffer then s.View(a) else OnceLoaded(s, count).phys[a]
  {
    hide Loaded, OnceLoaded, Layout.Valid;
    InSpace(s.cfg, a);
    LoadedCells(s, count);
    LoadedStatus(s, count, OptimalDefaultsEnabled);
    LoadedStatus(s, count, IsUsable);
    LoadedStatus(s, count, RecoverOnlyChecksummed);
    assert Untouched(OnceLoaded(s, count), a);
  }

  lemma ChecksumIsUntouched(s: State)
    requires s.Valid()
    ensures Untouched(s, Address(s.cfg.checksumHigh)) && Untouched(s, Address(s.cfg.checksumLow))
    ensures forall a: nat :: s.cfg.Summed(a) ==> Untouched(s, a)
    ensures OptimalDefaultsEnabled in s.status ==> forall a: nat :: s.cfg.Summed(a) ==> s.Route(a) == Buffer
  {
  }

  lemma BufferedLoadStaysRight(s: State, count: nat)
    requires s.Valid() && count <= |s.buf| && s.Coherent() && OptimalDefaultsEnabled in s.status
    ensures Loaded(s, count).Coherent() <==> CarefulLoad(s, count)
  {
    hide Loaded, OnceLoaded, Layout.Valid, State.View, State.SumBelow, Word, High, Low, Loads, Rank, Stocked;
    ChecksumRegisters(s.cfg);
    ChecksumOnceLoaded(s, count);
    ChecksumIsUntouched(s);
    var r, hi, lo := Loaded(s, count), Address(s.cfg.checksumHigh), Address(s.cfg.checksumLow);
    ShownAfterLoad(s, count, hi);
    ShownAfterLoad(s, count, lo);
    forall a: nat | s.cfg.Summed(a)
      ensures r.View(a) == s.View(a)
    {
      ShownAfterLoad(s, count, a);
    }
    SumDependsOnSummed(s, r, s.cfg.last + 1);
    if r.Coherent() {
      SameWord(r.View(hi), r.View(lo), s.View(hi), s.View(lo));
    }
  }

  lemma SameWord(high: bv8, low: bv8, high': bv8, low': bv8)
    requires Word(high, low) == Word(high', low')
    ensures high == high' && low == low'
  {
    LowOfWord(high, low);
    LowOfWord(high', low');
    ByteIsInjective(low, low');
    ByteIsInjective(high, high');
  }

  lemma LowOfWord(high: bv8, low: bv8)
    ensures Word(high, low) % 256 == low as nat && Word(high, low) / 256 == high as nat
  {
  }

  lemma PlainLoadStaysRight(s: State, count: nat)
    requires s.Valid() && count <= |s.buf| && OptimalDefaultsEnabled !in s.status
    ensures Loaded(s, count).Coherent() <==> CarefulLoad(s, count)
  {
    if ErrorLoadingDefaults !in s.status {
      CheckAfterLoad(s, count);
    } else {
      UnsummedLoad(s, count);
    }
  }

  lemma UnsummedLoad(s: State, count: nat)
    requires s.Valid() && count <= |s.buf| && OptimalDefaultsEnabled !in s.status && ErrorLoadingDefaults in s.status
    ensures Loaded(s, count).Coherent() <==> Stocked(s, count).Coherent()
  {
    hide Loaded, Stocked, CellsKept, State.Coherent, Layout.Valid;
    LoadedCells(s, count);
    LoadedStatus(s, count, OptimalDefaultsEnabled);
    var r := Loaded(s, count);
    HardwareCoherence(Stocked(s, count), r);
    assert OnHardware(r) == r by {
      assert r.status - {OptimalDefaultsEnabled} == r.status;
    }
  }

  lemma WriteStaysRight(s: State, t: Token, v: bv8)
    requires s.Valid() && s.Coherent() && ForceNoChecksum !in s.status
    ensures Written(s, t, v).Coherent() <==> Careful(s, 0, WriteToken(t, v))
  {
    hide State.Update, State.Coherent, State.Drift, Merge, Encode, ClobberBits, Overflows;
    if t in s.cfg.known {
      WriteKeepsCoherenceExactly(s, t, v);
    } else if t < MIN_TOKEN_VALUE {
      FlatStore.RawWriteUnseen(s, t, v);
      DriftTellsCoherence(s);
      DriftTellsCoherence(Written(s, t, v));
    }
  }

  lemma ChangeStaysRight(s: State, bits: Status)
    requires s.Valid()
    ensures s.SetBits(bits).Coherent() <==> s.(status := s.status + bits).Coherent()
    ensures s.ClearBits(bits).Coherent() <==> s.(status := s.status - bits).Coherent()
  {
    hide State.SetBits, State.ClearBits, State.Coherent;
    SetBitsIsQuietOnceSet(s, bits);
    QuietKeepsCoherence(s.(status := s.status + bits), s.SetBits(bits));
    ClearBitsIsQuietOnceCleared(s, bits);
    QuietKeepsCoherence(s.(status := s.status - bits), s.ClearBits(bits));
  }

  lemma SwitchStaysRight(s: State, count: nat, behind: nat -> bv8)
    requires s.Valid() && count <= |s.buf| && s.Coherent()
    ensures SwitchedOn(s, count, behind).Coherent()
  {
    hide BufferedOn, State.Coherent, Layout.Valid;
    var w := Writable(s, count, behind);
    if OptimalDefaultsEnabled in s.status {
      AlreadyOn(w);
    } else {
      BufferedOnFacts(w);
    }
  }

  lemma StoringStaysRight(s: State, sum: nat)
    requires s.Valid() && sum < WORD
    ensures s.PutChecksum(sum).Coherent() <==> sum == s.FullSum()
  {
    hide State.PutChecksum, State.FullSum;
    PutChecksumStores(s, sum);
    StoredSumIsSettled(s, s.PutChecksum(sum));
  }

  /** An operation on a right checksum leaves it right if and only if it is careful. */
  lemma StaysRight(s: State, count: nat, op: Operation)
    requires Ready(s, count) && Typed(op) && s.Coherent() && Settled(s)
    ensures Performed(s, count, op).Coherent() <==> Careful(s, count, op)
  {
    hide Written, State.SetBits, State.ClearBits, State.Checked, State.PutChecksum, Loaded, Saved, TimeSet, SwitchedOn,
      State.Coherent, State.FullSum, Merge, Encode, ClobberBits, Overflows, CarefulLoad, Layout.Valid;
    match op
    case WriteToken(t, v) => WriteStaysRight(s, t, v);
    case SetFlags(bits) => ChangeStaysRight(s, bits);
    case ClearFlags(bits) => ChangeStaysRight(s, bits);
    case Recheck =>
      CheckedFacts(s);
      QuietKeepsCoherence(s, s.Checked());
    case StoreSum(sum) => StoringStaysRight(s, sum);
    case LoadDefaults =>
      if OptimalDefaultsEnabled in s.status {
        BufferedLoadStaysRight(s, count);
      } else {
        PlainLoadStaysRight(s, count);
      }
    case Configure(on, off, behind) =>
      SwitchStaysRight(s, count, behind);
      ChangeStaysRight(s, {OptimalDefaultsEnabled});
    case SavePointer(p) => SavedKeepsCoherence(s, p);
    case SetTime(t) => TimeSetKeeps(s, t);
    case StartAgain =>
      SetBitsIsQuiet(s, {InterfaceAlreadyInstalled});
      QuietKeepsCoherence(s, s.SetBits({InterfaceAlreadyInstalled}));
  }

  ghost predicate AllCareful(s: State, count: nat, ops: seq<Operation>)
    requires Ready(s, count) && AllTyped(ops)
    decreases |ops|
  {
    ops != [] ==>
      && !TurnsUpdatesOff(ops[0]) && Careful(s, count, ops[0])
      && AllCareful(Performed(s, count, ops[0]), count, ops[1..])
  }

  /**
   Any run of writes, status changes, loads, configurations, pointer saves and
   clock settings, each careful where it is made, leaves the incrementally kept
   checksum equal to the full sum of what the manager then shows.
   */
  lemma {:induction false} RunStaysRight(s: State, count: nat, ops: seq<Operation>)
    requires Ready(s, count) && AllTyped(ops) && s.Coherent() && Settled(s) && AllCareful(s, count, ops)
    ensures PerformedAll(s, count, ops).Coherent() && Settled(PerformedAll(s, count, ops))
    ensures InStep(s, PerformedAll(s, count, ops))
    decreases |ops|
  {
    hide Performed, State.Coherent, Careful;
    if ops != [] {
      StaysSettled(s, count, ops[0]);
      StaysRight(s, count, ops[0]);
      RunStaysRight(Performed(s, count, ops[0]), count, ops[1..]);
    }
  }

  // ---------------------------------------------------------------------- the buffer

  /** The operation leaves a buffering manager buffering. */
  predicate LeavesBuffering(op: Operation)
  {
    && {ForceNoChecksum, ErrorLoadingDefaults} !! Raises(op)
    && {OptimalDefaultsEnabled, ValidInterface} !! Lowers(op)
  }

  /** A manager at work on the buffer stays so exactly through such an operation. */
  lemma StaysBuffering(s: State, count: nat, op: Operation)
    requires Ready(s, count) && Typed(op) && Buffering(s) && HobFollows(s)
    ensures Buffering(Performed(s, count, op)) <==> LeavesBuffering(op)
  {
    hide Performed, Layout.Valid;
    StaysSettled(s, count, op);
    FlagsAfter(s, count, op, OptimalDefaultsEnabled);
    FlagsAfter(s, count, op, ValidInterface);
    FlagsAfter(s, count, op, ErrorLoadingDefaults);
  }

  /** The operation does not mark the manager as a duplicate. */
  predicate LeavesUnmarked(op: Operation)
  {
    InterfaceAlreadyInstalled !in Raises(op)
  }

  lemma {:induction false} RunStaysBuffering(s: State, count: nat, ops: seq<Operation>)
    requires Ready(s, count) && AllTyped(ops) && Buffering(s) && HobFollows(s)
    requires forall op :: op in ops ==> LeavesBuffering(op) && LeavesUnmarked(op)
    requires InterfaceAlreadyInstalled !in s.status
    ensures var r := PerformedAll(s, count, ops);
      Buffering(r) && InStep(s, r) && InterfaceAlreadyInstalled !in r.status
    decreases |ops|
  {
    hide Performed, Buffering, LeavesBuffering;
    if ops != [] {
      var op := ops[0];
      assert op in ops;
      BufferingIsSettled(s, op);
      StaysBuffering(s, count, op);
      StaysSettled(s, count, op);
      FlagsAfter(s, count, op, InterfaceAlreadyInstalled);
      RunStaysBuffering(Performed(s, count, op), count, ops[1..]);
    }
  }

  lemma BufferingIsSettled(s: State, op: Operation)
    requires Buffering(s) && HobFollows(s)
    ensures Settled(s) && (LeavesBuffering(op) ==> !TurnsUpdatesOff(op))
  {
  }

  /** The operation does not send accesses to the buffer. */
  predicate LeavesHardware(op: Operation)
  {
    OptimalDefaultsEnabled !in Raises(op)
  }

  /** A flag that is down stays down through operations that do not raise it. */
  lemma {:induction false} RunNeverRaises(s: State, count: nat, ops: seq<Operation>, f: Flag)
    requires Ready(s, count) && AllTyped(ops) && f !in OWN && f !in s.status
    requires forall op :: op in ops ==> f !in Raises(op)
    ensures f !in PerformedAll(s, count, ops).status
    decreases |ops|
  {
    hide Performed, Raises;
    if ops != [] {
      assert ops[0] in ops;
      FlagsAfter(s, count, ops[0], f);
      RunNeverRaises(Performed(s, count, ops[0]), count, ops[1..], f);
    }
  }
}
