/**
 An example layout. The board file puts the checksum at 0x40 and 0x41 and the
 unmanaged API pointer at 0x42 to 0x45. It leaves the place of the unmanaged
 status bits open and declares no data; here the bits stand at 0x46, a data
 register at 0x47 and one that is left out of the checksum at 0x48.
 */
module ShippedLayout {
  import opened TokenCodec
  import opened CmosStore
  import opened StoreLaws
  import opened OptimalDefaults
  import opened Boot
  import opened PeiLaws
  import opened HandOverLaws
  import opened CopyBounds
  import opened MigrationLaws
  import opened Lifecycle

  const FIRST: nat := 0x40
  const STATUS_REGISTER: nat := 0x46
  const DATA_REGISTER: nat := 0x47
  const SCRATCH_REGISTER: nat := 0x48
  /** Four registers are managed. */
  const DEFAULT_COUNT: nat := 5

  function StatusBit(offset: nat): Token
    requires offset < 8
  {
    Pack(offset, STATUS_REGISTER, 1)
  }

  /** One bank of 128 registers. */
  predicate InBank(a: nat)
  {
    a < 0x80
  }

  ghost function Shipped(): Layout
  {
    var high, low := Pack(0, 0x40, 8), Pack(0, 0x41, 8);
    var b, c, d, f := StatusBit(0), StatusBit(1), StatusBit(2), StatusBit(3);
    Layout(FIRST, SCRATCH_REGISTER, 0x80,
           {high, low, b, c, d, f, Pack(0, DATA_REGISTER, 8), Pack(0, SCRATCH_REGISTER, 8)},
           {0x40, 0x41, SCRATCH_REGISTER}, {0x42, 0x43, 0x44, 0x45, STATUS_REGISTER},
           (set a: nat | 0 <= a < 0x80 && InBank(a)), high, low, b, c, d, f, 0x42, 0x32)
  }

  lemma ShippedIsValid()
    ensures Shipped().Valid() && Shipped().ApiValid() && Shipped().ClockValid()
  {
  }

  lemma ShippedBounds()
    ensures var l := Shipped();
      && l.first == FIRST && l.last == SCRATCH_REGISTER && l.Summed(DATA_REGISTER)
      && Address(l.checksumHigh) == 0x40 && Address(l.checksumLow) == 0x41
      && l.noChecksum == {0x40, 0x41, SCRATCH_REGISTER}
      && l.unmanaged == {0x42, 0x43, 0x44, 0x45, STATUS_REGISTER}
      && Address(l.batteryBad) == Address(l.checksumBad) == STATUS_REGISTER
      && Address(l.defaultsLoaded) == Address(l.firstBoot) == STATUS_REGISTER
  {
  }

  /** Five unmanaged registers come before the data registers, the third and the fourth managed ones. */
  lemma ShippedRanks()
    ensures Rank(Shipped(), DATA_REGISTER) == 2 && Rank(Shipped(), SCRATCH_REGISTER) == 3
    ensures OneDefaultEach(Shipped()) == DEFAULT_COUNT
    ensures !NoUnmanagedBelow(Shipped(), DATA_REGISTER)
  {
    hide Shipped;
    ShippedBounds();
    var l := Shipped();
    RankStep(l, 0x40);
    RankStep(l, 0x41);
    RankStep(l, 0x42);
    RankStep(l, 0x43);
    RankStep(l, 0x44);
    RankStep(l, 0x45);
    RankStep(l, 0x46);
    RankStep(l, 0x47);
    RankStep(l, 0x48);
    assert l.first <= 0x42 < DATA_REGISTER && 0x42 in l.unmanaged;
  }

  /** Registers of zeros, but for the scratch register, and a buffer of zeros, but for the data byte. */
  ghost function Sample(flags: Status, data: bv8, scratch: bv8): (q: State)
    ensures q.cfg == Shipped() && |q.buf| == 10 && q.status == flags
  {
    State(Shipped(), seq(REGISTER_SPACE, i => if i == SCRATCH_REGISTER then scratch else 0),
          [0, 0, 0, 0, 0, 0, 0, 0, data, 0], flags, HobRecord(flags, 0), false)
  }

  const BUFFERING: Status := {OptimalDefaultsEnabled, IsUsable, ExecutingInMemory, ValidInterface}
  const RESTRICTED: Status := BUFFERING + {RecoverOnlyChecksummed}

  lemma SampleFacts(flags: Status, data: bv8, scratch: bv8, h: Hooks, count: nat)
    requires h.usable && count <= 10 && flags in {BUFFERING, RESTRICTED}
    ensures var q := Sample(flags, data, scratch);
      && q.Valid() && ToBeFlushed(q, h, count)
      && q.View(DATA_REGISTER) == data && q.phys[SCRATCH_REGISTER] == scratch
      && q.buf[3] == 0 && q.buf[4] == 0
      && Untouched(q, FIRST + 2) && Untouched(q, FIRST + 3)
  {
    ShippedIsValid();
    ShippedBounds();
  }

  /** A data byte of 1, shown in PEI, is not there any more after the hand-over. */
  lemma DataIsLost(h: Hooks, count: nat)
    requires h.usable && 3 < count <= 10
    ensures var q := Sample(BUFFERING, 1, 0);
      && ToBeFlushed(q, h, count) && q.View(DATA_REGISTER) == 1 && !SurvivesHandOver(q, h, count, DATA_REGISTER)
  {
    hide Delivered, Shipped, ToBeFlushed;
    ShippedBounds();
    ShippedRanks();
    SampleFacts(BUFFERING, 1, 0, h, count);
    SampleFlushed(Sample(BUFFERING, 1, 0), DATA_REGISTER);
    DeliveredRegister(Sample(BUFFERING, 1, 0), h, count, DATA_REGISTER);
  }

  lemma SampleFlushed(q: State, a: nat)
    requires q.Valid() && q.cfg == Shipped() && a in {DATA_REGISTER, SCRATCH_REGISTER}
    requires Untouched(q, FIRST + 2) && Untouched(q, FIRST + 3)
    ensures q.cfg.first <= a && Untouched(q, FlushedFrom(q.cfg, a))
  {
    hide Shipped, Untouched;
    ShippedBounds();
    ShippedRanks();
  }

  /** The checksum of the sample: right without a data byte, wrong with one. */
  lemma SampleChecksum(data: bv8, scratch: bv8)
    ensures Sample(RESTRICTED, data, scratch).Valid()
    ensures Sample(RESTRICTED, data, scratch).Coherent() <==> data == 0
  {
    ShippedIsValid();
    SampleStored(data, scratch);
    SampleSum(data, scratch);
  }

  lemma SampleStored(data: bv8, scratch: bv8)
    ensures Sample(RESTRICTED, data, scratch).Valid() && Sample(RESTRICTED, data, scratch).Stored() == 0
  {
    ShippedIsValid();
    ShippedBounds();
  }

  lemma SampleSum(data: bv8, scratch: bv8)
    ensures Sample(RESTRICTED, data, scratch).Valid() && Sample(RESTRICTED, data, scratch).FullSum() == data as nat
  {
    hide Shipped, Sample, ToBeFlushed, State.FullSum, State.View, Layout.Valid, Layout.Excluded;
    ShippedBounds();
    var q := Sample(RESTRICTED, data, scratch);
    var h := Hooks(true, false, false, false, false, false, false, false);
    SampleFacts(RESTRICTED, data, scratch, h, 10);
    forall a: nat | q.cfg.InRegion(a)
      ensures q.cfg.Excluded(a) <==> a != DATA_REGISTER
    {
      ShippedExclusions(a);
    }
    SumOfOne(q, DATA_REGISTER);
  }

  /** With one checksummed register the sum is its byte. */
  lemma SumOfOne(q: State, d: nat)
    requires q.Valid() && q.cfg.InRegion(d)
    requires forall a: nat :: q.cfg.InRegion(a) ==> (q.cfg.Excluded(a) <==> a != d)
    ensures q.FullSum() == q.View(d) as nat
  {
    hide State.SumBelow, State.View, Layout.Valid, Layout.Excluded;
    SumOfNone(q, q.cfg.first, d);
    SumStepOf(q, d);
    SumOfNone(q, d + 1, q.cfg.last + 1);
  }

  lemma ShippedExclusions(a: nat)
    requires FIRST <= a <= SCRATCH_REGISTER
    ensures Shipped().Excluded(a) <==> a != DATA_REGISTER
  {
  }

  lemma SumStepOf(q: State, a: nat)
    requires q.Valid() && q.cfg.InRegion(a)
    ensures q.SumBelow(a + 1) == q.SumBelow(a) + if q.cfg.Summed(a) then q.View(a) as nat else 0
  {
  }

  /** A stretch without checksummed registers adds nothing. */
  lemma {:induction false} SumOfNone(q: State, from: nat, end: nat)
    requires q.Valid() && q.cfg.first <= from <= end <= q.cfg.last + 1
    requires forall a: nat :: from <= a < end ==> !q.cfg.Summed(a)
    ensures q.SumBelow(end) == q.SumBelow(from)
    ensures from == q.cfg.first ==> q.SumBelow(end) == 0
    decreases end
  {
    hide State.View, Layout.Valid;
    if end > from {
      SumOfNone(q, from, end - 1);
      SumStepOf(q, end - 1);
    }
  }

  lemma ScratchIsOffChecksum(data: bv8, scratch: bv8)
    ensures var q := Sample(RESTRICTED, data, scratch);
      q.Valid() && Restricted(q) && OffChecksum(q, SCRATCH_REGISTER)
  {
    ShippedIsValid();
    ShippedBounds();
  }

  /**
   A scratch byte of 1, served by the hardware, is overwritten by the flush of a
   buffer whose checksum is right, and kept when the checksum is wrong.
   */
  lemma ScratchIsLost(h: Hooks, count: nat, data: bv8)
    requires h.usable && !h.firstBoot && 4 < count <= 10
    ensures var q := Sample(RESTRICTED, data, 1);
      && ToBeFlushed(q, h, count) && q.View(SCRATCH_REGISTER) == 1
      && (SurvivesHandOver(q, h, count, SCRATCH_REGISTER) <==> data != 0)
  {
    hide Delivered, Shipped, Sample, ToBeFlushed, State.Coherent, State.View, Restricted, RestrictionHolds;
    ShippedBounds();
    ShippedRanks();
    SampleFacts(RESTRICTED, data, 1, h, count);
    SampleChecksum(data, 1);
    ScratchIsOffChecksum(data, 1);
    SampleFlushed(Sample(RESTRICTED, data, 1), SCRATCH_REGISTER);
    RestrictionSeenInPei(Sample(RESTRICTED, data, 1), h);
    OffChecksumDelivered(Sample(RESTRICTED, data, 1), h, count, SCRATCH_REGISTER);
  }

  /**
   With one default for each managed register, a first phase before permanent
   memory that goes over to the buffer shows, in the data register, not its
   default but the fourth byte that memory holds behind the copy.
   */
  lemma DataIsForeign(s: State, h: Hooks, address: nat, behind: nat -> bv8)
    requires IsNew(s) && s.cfg == Shipped() && ExecutingInMemory !in s.status
    requires Decision(h, s.Coherent()) == UseBuffer
    ensures !InsideCopy(Shipped(), DEFAULT_COUNT, DATA_REGISTER)
    ensures PeiEntered(s, h, DEFAULT_COUNT, address, behind).View(DATA_REGISTER) == behind(3)
  {
    hide PeiEntered, Shipped, State.Coherent;
    ShippedIsValid();
    ShippedBounds();
    ShownFromCopy(s, h, DEFAULT_COUNT, address, behind, DATA_REGISTER);
  }

  // ------------------------------------------------------------------- the migration

  /** On the buffer, the data register is among those that the move does not carry over. */
  lemma DataIsNotCarried(p: State)
    requires p.Valid() && p.cfg == Shipped() && OptimalDefaultsEnabled in p.status
    ensures Counts(p.cfg, DATA_REGISTER) && !Carried(p, DEFAULT_COUNT, DATA_REGISTER)
    ensures !Covered(p, DEFAULT_COUNT)
  {
    hide Shipped;
    ShippedBounds();
  }

  /**
   With one default for each managed register, the move to permanent memory can
   spoil the right checksum of any buffering manager.
   */
  lemma MigrationSpoilsSum(p: State, checksum: nat, address: nat) returns (room: nat -> bv8)
    requires Buffering(p) && p.cfg == Shipped() && p.Coherent() && DEFAULT_COUNT <= |p.buf| && p.cfg.ApiValid()
    ensures !HandedOff(p, DEFAULT_COUNT, checksum, address, room).Coherent()
  {
    hide HandedOff, Shipped, State.Coherent, State.Drift, Covered, Carried, Counts, Layout.Valid, Layout.ApiValid;
    DataIsNotCarried(p);
    room := UncarriedMovesDrift(p, DEFAULT_COUNT, checksum, address, DATA_REGISTER);
    DriftTellsCoherence(p);
    DriftTellsCoherence(HandedOff(p, DEFAULT_COUNT, checksum, address, room));
  }

  /**
   So a boot that goes over to the buffer and asks for nothing at all can reach
   the end of PEI with a wrong checksum.
   */
  lemma IdleBootSpoilsSum(s: State, h: Hooks, address: nat, behind: nat -> bv8, second: Hooks) returns (l: Life)
    requires IsNew(s) && s.cfg == Shipped() && Decision(h, s.Coherent()) == UseBuffer
    ensures Sound(s, DEFAULT_COUNT, l) && Proper(s, DEFAULT_COUNT, l) && CarefulLife(s, DEFAULT_COUNT, l)
    ensures l.first == h && l.second == second && l.before == l.after == []
    ensures Entered(s, DEFAULT_COUNT, l).Coherent() && !EndOfPei(s, DEFAULT_COUNT, l).Coherent()
  {
    hide PeiEntered, HandedOff, Shipped, State.Coherent, ShownAfterPei, Layout.Valid, Layout.ApiValid, Layout.ClockValid;
    ShippedIsValid();
    ShippedTable(s);
    PeiEntryEstablishes(s, h, DEFAULT_COUNT, address, behind);
    var e := PeiEntered(s, h, DEFAULT_COUNT, address, behind);
    l := Life(h, address, behind, [], 0, address, behind, [], second);
    EntryBuffers(s, DEFAULT_COUNT, l);
    var room := MigrationSpoilsSum(e, 0, address);
    l := l.(room := room);
  }

  lemma ShippedTable(s: State)
    requires s.Valid() && s.cfg == Shipped()
    ensures DEFAULT_COUNT <= |s.buf|
  {
    hide Shipped;
    ShippedBounds();
  }
}
