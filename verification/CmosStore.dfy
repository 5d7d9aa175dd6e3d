/**
 The CMOS manager as a value: its layout, the physical
 registers, the buffer of optimal defaults and the status word, with the effect
 of each elementary operation in closed form (no recursion between them).
 */
module CmosStore {
  import opened Bytes
  import opened TokenCodec

  /** Register addresses are 16-bit. */
  const REGISTER_SPACE: nat := 0x1_0000
  const DIAGNOSTIC_STATUS_REGISTER: nat := 0xe
  const CHECKSUM_IS_BAD: bv8 := 0x40
  const RTC_POWER_IS_BAD: bv8 := 0x80

  /** The bits of the manager's status word. */
  datatype Flag =
    | ValidManager
    | InterfaceAlreadyInstalled
    | InstallFailed
    | ValidInterface
    | FirstBootDetected
    | ExecutingInMemory
    | BadChecksum
    | AddressIsChecksummed
    | ErrorLoadingDefaults
    | ForceNoChecksum
    | BadBattery
    | OptimalDefaultsEnabled
    | DefaultsLoaded
    | RecoverOnlyChecksummed
    | ColdBootDetected
    | BspIsExecuting
    | RecoverInPei
    | IsUsable

  type Status = set<Flag>

  /** The bits whose setting is also recorded in a CMOS token. */
  const REPORTED: Status := {BadBattery, BadChecksum, DefaultsLoaded, FirstBootDetected}
  /** The bits mirrored in the legacy diagnostic register. */
  const LEGACY: Status := {BadChecksum, BadBattery}
  /** The bits that decide where an access goes. */
  const ROUTING: Status := {OptimalDefaultsEnabled, IsUsable, RecoverOnlyChecksummed}

  /**
   What the generated tables say, as sets: the managed region, the known tokens,
   the registers left out of the checksum or out of management, the registers
   some bank reaches, and the tokens the manager itself uses.
   */
  datatype Layout = Layout(
    first: nat,
    last: nat,
    limit: nat,               // one past the addresses closed to raw writes
    known: set<Token>,
    noChecksum: set<nat>,
    unmanaged: set<nat>,
    reachable: set<nat>,
    checksumHigh: Token,
    checksumLow: Token,
    batteryBad: Token,
    checksumBad: Token,
    defaultsLoaded: Token,
    firstBoot: Token,
    apiByte3: nat,            // first of the four registers of the API pointer
    century: nat              // clock register of the century
  ) {

    predicate InRegion(a: nat)
    {
      first <= a <= last
    }

    predicate Excluded(a: nat)
    {
      a in noChecksum || a in unmanaged
    }

    /** The registers that the checksum sums. */
    predicate Summed(a: nat)
    {
      InRegion(a) && !Excluded(a)
    }

    predicate IsChecksumRegister(a: nat)
    {
      a == Address(checksumHigh) || a == Address(checksumLow)
    }

    predicate ChecksumToken(t: Token)
    {
      t in known && BitOffset(t) == 0 && Size(t) == 8 && Excluded(Address(t))
    }

    predicate StatusToken(t: Token)
    {
      t in known && Excluded(Address(t)) && !IsChecksumRegister(Address(t))
    }

    /** The API pointer has four registers of its own, outside the checksum. */
    ghost predicate ApiValid()
    {
      forall a :: apiByte3 <= a < apiByte3 + 4 ==> a in reachable && Excluded(a) && !IsChecksumRegister(a)
    }

    /** The clock registers are reachable, apart from each other and outside the managed region. */
    ghost predicate ClockValid()
    {
      && (forall a :: 0 <= a <= 9 || a == 0xb || a == century ==> a in reachable)
      && century !in {0, 2, 4, 7, 8, 9, 0xb} && !InRegion(century)
    }

    /** What the manager takes for granted of its generated tables. */
    ghost predicate Valid()
    {
      && DIAGNOSTIC_STATUS_REGISTER < first <= last < 256 && last < limit
      && (forall t :: t in known ==> Fits(t) && InRegion(Address(t)))
      && (forall a :: a in reachable ==> a < REGISTER_SPACE)
      && DIAGNOSTIC_STATUS_REGISTER in reachable && (forall a :: InRegion(a) ==> a in reachable)
      && ChecksumToken(checksumHigh) && ChecksumToken(checksumLow)
      && Address(checksumHigh) != Address(checksumLow)
      && StatusToken(batteryBad) && StatusToken(checksumBad)
      && StatusToken(defaultsLoaded) && StatusToken(firstBoot)
    }
  }

  /** The part of the hand-off block that the status and checksum code updates. */
  datatype HobRecord = NoHob | HobRecord(status: Status, checksum: nat)

  /** Where an access lands. */
  datatype Place = Hardware | Buffer

  datatype State = State(
    cfg: Layout,
    phys: seq<bv8>,
    buf: seq<bv8>,
    status: Status,
    hob: HobRecord,
    dxe: bool
  ) {

    ghost predicate Valid()
    {
      && cfg.Valid()
      && |phys| == REGISTER_SPACE
      && |buf| == cfg.last - cfg.first + 2
    }

    // ---------------------------------------------------------- the routed view

    ghost function Route(a: nat): Place
      requires Valid()
    {
      if OptimalDefaultsEnabled in status
         && !(IsUsable in status && RecoverOnlyChecksummed in status && a in cfg.noChecksum)
      then Buffer else Hardware
    }

    ghost predicate Has(place: Place, a: nat)
      requires Valid()
    {
      if place == Buffer then cfg.InRegion(a) else a < REGISTER_SPACE
    }

    ghost function At(place: Place, a: nat): bv8
      requires Valid() && Has(place, a)
    {
      if place == Buffer then buf[a - cfg.first + 1] else phys[a]
    }

    ghost function Put(place: Place, a: nat, b: bv8): (s: State)
      requires Valid() && Has(place, a)
      ensures s.Valid() && s.cfg == cfg && s.dxe == dxe && s.status == status
    {
      if place == Buffer then this.(buf := buf[a - cfg.first + 1 := b]) else this.(phys := phys[a := b])
    }

    /** What a routed read of a managed register returns. */
    ghost function View(a: nat): bv8
      requires Valid() && cfg.InRegion(a)
    {
      At(Route(a), a)
    }

    /** The checksum kept in the two checksum registers. */
    ghost function Stored(): (w: nat)
      requires Valid()
      ensures w < WORD
    {
      Word(View(Address(cfg.checksumHigh)), View(Address(cfg.checksumLow)))
    }

    /** The sum of the viewed values of the checksummed registers below `end`. */
    ghost function SumBelow(end: nat): (n: nat)
      requires Valid() && cfg.first <= end <= cfg.last + 1
      decreases end
    {
      if end == cfg.first then 0
      else SumBelow(end - 1) + (if cfg.Summed(end - 1) then View(end - 1) as nat else 0)
    }

    ghost function FullSum(): (n: nat)
      requires Valid()
      ensures n < WORD
    {
      SumBelow(cfg.last + 1) % WORD
    }

    /** The stored checksum is right. */
    ghost predicate Coherent()
      requires Valid()
    {
      Stored() == FullSum()
    }

    /** How far the stored checksum is off. */
    ghost function Drift(): (d: nat)
      requires Valid()
      ensures d < WORD
    {
      (Stored() as int - FullSum()) % WORD
    }

    // ------------------------------------------------------------ status changes

    /** The hand-off block, when there is one, follows the status word. */
    ghost function Synced(): (s: State)
      ensures s.cfg == cfg && s.dxe == dxe && (Valid() ==> s.Valid())
    {
      if hob.NoHob? then this else this.(hob := hob.(status := status))
    }

    /** Note in the status word whether a written register is checksummed. */
    ghost function Noted(a: nat): (s: State)
      ensures s.cfg == cfg && s.dxe == dxe && (Valid() ==> s.Valid())
      ensures AddressIsChecksummed in s.status <==> !cfg.Excluded(a)
      ensures ForceNoChecksum in s.status <==> ForceNoChecksum in status
      ensures s.phys == phys && s.buf == buf
    {
      this.(status := if cfg.Excluded(a) then status - {AddressIsChecksummed}
                      else status + {AddressIsChecksummed}).Synced()
    }

    /** The same, unless checksum updates are off. */
    ghost function NotedIfOn(a: nat): (s: State)
      ensures s.cfg == cfg && s.dxe == dxe && (Valid() ==> s.Valid())
    {
      if ForceNoChecksum in status then this else Noted(a)
    }

    /** Set the one bit of a status token. */
    ghost function Mark(t: Token): (s: State)
      requires Valid() && cfg.StatusToken(t)
      ensures s.Valid() && s.cfg == cfg && s.dxe == dxe
    {
      var a := Address(t);
      NotedIfOn(a).Put(Route(a), a, Merge(View(a), ClobberBits(t), Encode(1, t)))
    }

    ghost function MarkIf(bit: bool, t: Token): (s: State)
      requires Valid() && cfg.StatusToken(t)
      ensures s.Valid() && s.cfg == cfg && s.dxe == dxe
    {
      if bit then Mark(t) else this
    }

    ghost function Report(bits: Status): (s: State)
      requires Valid()
      ensures s.Valid() && s.cfg == cfg && s.dxe == dxe
    {
      MarkIf(BadBattery in bits, cfg.batteryBad)
      .MarkIf(BadChecksum in bits, cfg.checksumBad)
      .MarkIf(DefaultsLoaded in bits, cfg.defaultsLoaded)
      .MarkIf(FirstBootDetected in bits, cfg.firstBoot)
    }

    /** One failure bit of the diagnostic register: clearing it needs the DXE phase. */
    static function LegacyBit(d: bv8, bit: bv8, affected: bool, setting: bool, dxe: bool): bv8
    {
      if !affected then d else if setting then WithBits(d, bit) else if dxe then WithoutBits(d, bit) else d
    }

    ghost function LegacyStep(bit: bv8, affected: bool, setting: bool): (s: State)
      requires Valid()
      ensures s.Valid() && s.cfg == cfg && s.dxe == dxe
    {
      this.(phys := phys[DIAGNOSTIC_STATUS_REGISTER :=
        LegacyBit(phys[DIAGNOSTIC_STATUS_REGISTER], bit, affected, setting, dxe)])
    }

    ghost function Legacy(bits: Status, setting: bool): (s: State)
      requires Valid()
      ensures s.Valid() && s.cfg == cfg && s.dxe == dxe
    {
      LegacyStep(CHECKSUM_IS_BAD, BadChecksum in bits, setting)
      .LegacyStep(RTC_POWER_IS_BAD, BadBattery in bits, setting)
    }

    ghost function SetBits(bits: Status): (s: State)
      requires Valid()
      ensures s.Valid() && s.cfg == cfg && s.dxe == dxe
    {
      var s := this.(status := status + bits);
      (if IsUsable in s.status then s.Report(bits) else s).Legacy(bits, true).Synced()
    }

    ghost function ClearBits(bits: Status): (s: State)
      requires Valid()
      ensures s.Valid() && s.cfg == cfg && s.dxe == dxe
    {
      this.(status := status - bits).Legacy(bits, false).Synced()
    }

    // ------------------------------------------------------------- register writes

    ghost function PutRouted(a: nat, b: bv8): (s: State)
      requires Valid() && cfg.InRegion(a)
      ensures s.Valid() && s.cfg == cfg && s.dxe == dxe && s.status == status
    {
      Put(Route(a), a, b)
    }

    /** Store a checksum; this always leaves the no-checksum flag clear. */
    ghost function PutChecksum(sum: nat): (s: State)
      requires Valid() && sum < WORD
      ensures s.Valid() && s.cfg == cfg && s.dxe == dxe
    {
      var s := this.(hob := if hob.NoHob? then NoHob else hob.(checksum := sum))
               .PutRouted(Address(cfg.checksumLow), Low(sum)).PutRouted(Address(cfg.checksumHigh), High(sum));
      s.(status := status - {ForceNoChecksum}).Synced()
    }

    /** The stored checksum moved by the change of one register. */
    ghost function Adjusted(was: bv8, now: bv8): (w: nat)
      requires Valid()
      ensures w < WORD
    {
      Moved(Stored(), was, now)
    }

    /** A masked write at a given place. */
    ghost function Update(place: Place, a: nat, mask: bv8, v: bv8): (s: State)
      requires Valid() && Has(place, a)
      ensures s.Valid() && s.cfg == cfg && s.dxe == dxe
    {
      var now := Merge(At(place, a), mask, v);
      var s := NotedIfOn(a).Put(place, a, now);
      if ForceNoChecksum in status || cfg.Excluded(a) then s
      else s.PutChecksum(Adjusted(At(place, a), now))
    }

    /** Compare the full sum with the stored one and record the answer. */
    ghost function Checked(): (s: State)
      requires Valid()
      ensures s.Valid() && s.cfg == cfg && s.dxe == dxe
    {
      if Coherent() then ClearBits({BadChecksum}) else SetBits({BadChecksum})
    }
  }
}
