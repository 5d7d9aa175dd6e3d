/** The generated tables the manager scans, and the layout they stand for. */
module CmosTables {
  import opened TokenCodec
  import opened RegisterTables
  import opened CmosStore

  /** A range of registers and how it is reached. */
  datatype Bank = Bank(index: nat, data: nat, low: nat, high: nat, hasBoardFunction: bool) {
    predicate Serves(a: nat)
    {
      low <= a <= high && (hasBoardFunction || (index > 0 && data > 0))
    }
  }

  datatype Config = Config(
    first: nat,               // first and last managed register
    last: nat,
    limit: nat,               // one past the addresses closed to raw writes
    tokens: seq<Token>,       // entry 0 is not a token
    defaultCount: nat,        // one more than the number of default values
    noChecksum: Table,
    unmanaged: Table,
    banks: seq<Bank>,         // entry 0 is not a bank
    checksumHigh: Token,
    checksumLow: Token,
    batteryBad: Token,
    checksumBad: Token,
    defaultsLoaded: Token,
    firstBoot: Token,
    apiByte3: nat,            // first of the four registers of the API pointer
    century: nat              // clock register of the century
  ) {

    ghost function Known(): set<Token>
    {
      set i | 1 <= i < |tokens| :: tokens[i]
    }

    ghost predicate SomeBankServes(a: nat)
    {
      exists i :: 1 <= i < |banks| && banks[i].Serves(a)
    }

    ghost function Reachable(): set<nat>
    {
      set a: nat | 0 <= a < REGISTER_SPACE && SomeBankServes(a)
    }

    ghost function AsLayout(): (l: Layout)
      requires noChecksum.Valid() && unmanaged.Valid()
      ensures l.first == first && l.last == last && l.limit == limit
      ensures l.checksumHigh == checksumHigh && l.checksumLow == checksumLow
      ensures l.batteryBad == batteryBad && l.checksumBad == checksumBad
      ensures l.defaultsLoaded == defaultsLoaded && l.firstBoot == firstBoot
      ensures l.apiByte3 == apiByte3 && l.century == century
    {
      Layout(first, last, limit, Known(), noChecksum.Entries(), unmanaged.Entries(), Reachable(),
             checksumHigh, checksumLow, batteryBad, checksumBad, defaultsLoaded, firstBoot,
             apiByte3, century)
    }

    /**
     The tables as the hand-off block holds them. The count of unmanaged registers
     lies right after the no-checksum table; what lies after the other is not known.
     */
    function InHob(guard: nat): Config
      requires 1 <= noChecksum.count < |noChecksum.cells| && 1 <= unmanaged.count < |unmanaged.cells|
    {
      this.(noChecksum := Relocated(noChecksum, unmanaged.count), unmanaged := Relocated(unmanaged, guard))
    }

    /** What the scans take for granted, and that the layout is sound. */
    ghost predicate Valid()
    {
      && noChecksum.Valid() && GuardInert(noChecksum, first, last)
      && unmanaged.Valid() && GuardInert(unmanaged, first, last)
      && 1 <= |tokens| < 0x1_0000 && 1 <= |banks| < 256
      && AsLayout().Valid()
      && 1 <= defaultCount <= last - first + 2
    }
  }

  /** The copied tables mean the same, as long as the cells after them stay out of the way. */
  lemma InHobIsSame(cfg: Config, guard: nat)
    requires cfg.Valid()
    requires Relocated(cfg.noChecksum, cfg.unmanaged.count).Valid() && Relocated(cfg.unmanaged, guard).Valid()
    requires GuardInert(Relocated(cfg.noChecksum, cfg.unmanaged.count), cfg.first, cfg.last)
    requires GuardInert(Relocated(cfg.unmanaged, guard), cfg.first, cfg.last)
    ensures cfg.InHob(guard).Valid() && cfg.InHob(guard).AsLayout() == cfg.AsLayout()
  {
    RelocatedIsSame(cfg.noChecksum, cfg.unmanaged.count);
    RelocatedIsSame(cfg.unmanaged, guard);
    assert cfg.InHob(guard).AsLayout() == cfg.AsLayout();
  }
}
