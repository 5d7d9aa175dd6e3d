/**
 The CMOS manager itself: an object over the physical registers and the buffer
 of optimal defaults, whose read, write, checksum and status methods call each
 other. Each is proved to have the closed-form effect given in CmosStore.
 */
module CmosManager {
  import opened Bytes
  import opened TokenCodec
  import opened RegisterTables
  import opened CmosStore
  import opened CmosTables
  import opened StoreLaws
  import opened Requests
  import opened MethodSteps
  import opened OptimalDefaults
  import opened LoadingLaws
  import opened ApiPointer
  import opened Clock
  import opened Boot
  import opened BootLaws
  import opened HandOverLaws
  import opened PeiLaws
  import opened PointerLaws
  import opened StatusTokens

  datatype Access = WriteType | ReadType
  datatype BitAccess = SetType | ClearType

  /** The hand-off block: what PEI leaves in memory for DXE. */
  class CmosHob {
    var status: Status
    var checksum: nat
    var cfg: Config
    const defaults: array<bv8>

    constructor (status: Status, checksum: nat, cfg: Config, defaults: array<bv8>)
      ensures this.status == status && this.checksum == checksum && this.cfg == cfg
      ensures this.defaults == defaults
    {
      this.status, this.checksum, this.cfg, this.defaults := status, checksum, cfg, defaults;
    }
  }

  class CmosManager {
    /** The physical registers. */
    const phys: array<bv8>
    /** The table of optimal defaults, read and written as a buffer; entry 0 is unused. */
    var defaults: array<bv8>
    var cfg: Config
    var status: Status
    var hob: CmosHob?
    /** The sum last computed for the manager itself. */
    var checksum: nat
    /** No PEI services. */
    const dxe: bool
    /** Where the access interface is. */
    const address: nat

    ghost predicate Valid()
      reads this, phys, defaults, hob
    {
      && cfg.Valid()
      && phys.Length == REGISTER_SPACE
      && defaults.Length == cfg.last - cfg.first + 2
      && phys != defaults
    }

    /** The manager as a value. */
    ghost function St(): (s: State)
      requires Valid()
      reads this, phys, defaults, hob
      ensures s.Valid()
    {
      State(cfg.AsLayout(), phys[..], defaults[..], status,
            if hob == null then NoHob else HobRecord(hob.status, hob.checksum), dxe)
    }

    /** True if all the bits are set. */
    predicate CheckStatus(bits: Status)
      reads this`status
    {
      bits <= status
    }

    /** The objects an access may change. */
    ghost function Owner(access: Access): set<CmosManager>
    {
      if access == WriteType then {this} else {}
    }

    ghost function Memory(access: Access): set<object?>
      reads this
    {
      if access == ReadType then {} else {phys, defaults, hob}
    }

    ghost function Depth(access: Access): nat
      reads this`status
    {
      if access == ReadType then 1 else if ForceNoChecksum in status then 2 else 5
    }

    lemma TableFacts()
      requires Valid()
      ensures cfg.unmanaged.Valid() && cfg.noChecksum.Valid() && 1 <= cfg.first <= cfg.last
      ensures 1 <= cfg.defaultCount <= defaults.Length
    {
    }

    // ------------------------------------------------------------ single registers

    method BankReadWrite(access: Access, a: nat, value: bv8) returns (outcome: EfiStatus, result: bv8)
      requires Valid() && a < REGISTER_SPACE
      modifies if access == WriteType then {phys} else {}
      ensures Valid()
      ensures outcome == if a in cfg.AsLayout().reachable then Success else NotFound
      ensures outcome == Success <==>
              (exists i :: 1 <= i < |cfg.banks| && cfg.banks[i].low <= a <= cfg.banks[i].high
                 && (cfg.banks[i].hasBoardFunction || (cfg.banks[i].index > 0 && cfg.banks[i].data > 0)))
      ensures result == if outcome == Success && access == ReadType then phys[a] else value
      ensures St() == if outcome == Success && access == WriteType then old(St()).Put(Hardware, a, value) else old(St())
    {
      result := value;
      var i := 1;
      while i < |cfg.banks|
        invariant 1 <= i <= |cfg.banks|
        invariant forall k :: 1 <= k < i ==> !cfg.banks[k].Serves(a)
        invariant phys[..] == old(phys[..])
        invariant result == value
      {
        if cfg.banks[i].Serves(a) {
          if access == ReadType {
            result := phys[a];
          } else {
            phys[a] := value;
          }
          return Success, result;
        }
        i := i + 1;
      }
      return NotFound, result;
    }

    /** Step over the entries below the address, from where an earlier scan stopped. */
    method Scan(t: Table, start: nat, a: nat) returns (i: nat)
      requires t.Valid() && 1 <= start <= t.count && t.Below(start, a)
      ensures t.StopsAt(i, a)
    {
      i := start;
      while i < t.count && a > t.cells[i]
        invariant 1 <= i <= t.count && t.Below(i, a)
      {
        i := i + 1;
      }
    }

    /** Whether the register is listed as not checksummed. */
    method NotChecksummed(a: nat) returns (listed: bool)
      requires Valid() && cfg.AsLayout().InRegion(a)
      ensures listed <==> a in cfg.AsLayout().noChecksum
    {
      var i := Scan(cfg.noChecksum, 1, a);
      NoChecksumScan(i, a);
      listed := a == cfg.noChecksum.cells[i];
    }

    lemma NoChecksumScan(i: nat, a: nat)
      requires Valid() && cfg.AsLayout().InRegion(a) && cfg.noChecksum.StopsAt(i, a)
      ensures a == cfg.noChecksum.cells[i] <==> a in cfg.AsLayout().noChecksum
    {
      ScanDecides(cfg.noChecksum, cfg.first, cfg.last, i, a);
    }

    lemma UnmanagedScan(i: nat, a: nat)
      requires Valid() && cfg.AsLayout().InRegion(a) && cfg.unmanaged.StopsAt(i, a)
      ensures a == cfg.unmanaged.cells[i] <==> a in cfg.AsLayout().unmanaged
    {
      ScanDecides(cfg.unmanaged, cfg.first, cfg.last, i, a);
    }

    /** A masked access to a physical register, with the checksum kept up to date. */
    method PhysicalReadWrite(access: Access, a: nat, bitsToWrite: bv8, value: bv8)
      returns (outcome: EfiStatus, result: bv8)
      requires Valid() && a in cfg.AsLayout().reachable
      requires cfg.AsLayout().InRegion(a) || cfg.AsLayout().Excluded(a)
      modifies Owner(access)`status, Memory(access)
      ensures Valid() && outcome == Success
      ensures result == if access == ReadType then phys[a] else value
      ensures St() == if access == ReadType then old(St()) else old(St()).Update(Hardware, a, bitsToWrite, value)
      decreases Depth(access), 1
    {
      hide State.Put, State.PutChecksum, State.Noted, State.Adjusted, Merge, Config.Valid, Config.AsLayout;
      assert a < REGISTER_SPACE by { assert St().cfg.Valid(); }
      hide Layout.Valid;
      outcome := Success;
      var _, was := BankReadWrite(ReadType, a, 0);
      if access == ReadType {
        result := was;
      } else {
        result := value;
        var now := Merge(was, bitsToWrite, value);
        var newChecksum := 0;
        if !CheckStatus({ForceNoChecksum}) {
          newChecksum := CalculateUpdatedChecksum(a, was, now, newChecksum);
        }
        var _, _ := BankReadWrite(WriteType, a, now);
        FollowWithChecksum(newChecksum);
      }
    }

    /** The same access to the buffer. */
    method BufferReadWrite(access: Access, a: nat, bitsToWrite: bv8, value: bv8)
      returns (outcome: EfiStatus, result: bv8)
      requires Valid()
      modifies Owner(access)`status, Memory(access)
      ensures Valid() && outcome == if cfg.AsLayout().InRegion(a) then Success else InvalidParameter
      ensures result == if outcome == Success && access == ReadType then defaults[a - cfg.first + 1] else value
      ensures St() == if outcome == Success && access == WriteType
                      then old(St()).Update(Buffer, a, bitsToWrite, value) else old(St())
      decreases Depth(access), 1
    {
      hide State.PutChecksum, State.Noted, State.Adjusted, Merge, Config.Valid, Config.AsLayout, Layout.Valid;
      result := value;
      if a < cfg.first || a > cfg.last {
        return InvalidParameter, result;
      }
      outcome := Success;
      var bufferIndex := a - cfg.first + 1;
      var was := defaults[bufferIndex];
      if access == ReadType {
        result := was;
      } else {
        var now := Merge(was, bitsToWrite, value);
        var newChecksum := 0;
        if !CheckStatus({ForceNoChecksum}) {
          newChecksum := CalculateUpdatedChecksum(a, was, now, newChecksum);
        }
        defaults[bufferIndex] := now;
        FollowWithChecksum(newChecksum);
      }
    }

    /** Send an access to the buffer or to the hardware. */
    method ReadWrite(access: Access, a: nat, bitsToWrite: bv8, value: bv8)
      returns (outcome: EfiStatus, result: bv8)
      requires Valid() && cfg.AsLayout().InRegion(a)
      modifies Owner(access)`status, Memory(access)
      ensures Valid() && outcome == Success
      ensures result == if access == ReadType then St().View(a) else value
      ensures access == ReadType ==>
                result == if OptimalDefaultsEnabled in status
                             && !({IsUsable, RecoverOnlyChecksummed} <= status && a in cfg.AsLayout().noChecksum)
                          then defaults[a - cfg.first + 1] else phys[a]
      ensures St() == if access == ReadType then old(St())
                      else old(St()).Update(old(St()).Route(a), a, bitsToWrite, value)
      decreases Depth(access), 2
    {
      hide State.Update, Config.Valid, Config.AsLayout;
      assert St().cfg.Valid();
      var useBufferAccess := false;
      if CheckStatus({OptimalDefaultsEnabled}) {
        useBufferAccess := true;
        if CheckStatus({IsUsable}) && CheckStatus({RecoverOnlyChecksummed}) {
          var listed := NotChecksummed(a);
          if listed {
            useBufferAccess := false;
          }
        }
      }
      if useBufferAccess {
        outcome, result := BufferReadWrite(access, a, bitsToWrite, value);
      } else {
        outcome, result := PhysicalReadWrite(access, a, bitsToWrite, value);
      }
    }

    // ----------------------------------------------------------------------- tokens

    /** The index of the token in the table, or 0. */
    method FindToken(t: Token) returns (index: nat)
      requires Valid()
      ensures index < |cfg.tokens|
      ensures index == 0 <==> t !in cfg.AsLayout().known
      ensures index > 0 ==> cfg.tokens[index] == t
    {
      index := 1;
      while index < |cfg.tokens| && cfg.tokens[index] != t
        invariant 1 <= index <= |cfg.tokens|
        invariant forall k :: 1 <= k < index ==> cfg.tokens[k] != t
      {
        index := index + 1;
      }
      if index >= |cfg.tokens| {
        index := 0;
      }
    }

    method ReadWriteEncodedToken(access: Access, index: nat, value: bv8) returns (outcome: EfiStatus, result: bv8)
      requires Valid() && 1 <= index < |cfg.tokens| && cfg.tokens[index] in cfg.AsLayout().known
      modifies Owner(access)`status, Memory(access)
      ensures Valid()
      ensures outcome == TokenOutcome(cfg.AsLayout(), cfg.tokens[index], access == WriteType, value)
      ensures access == ReadType ==> result == Decode(St().View(Address(cfg.tokens[index])), cfg.tokens[index])
      ensures St() == if access == ReadType then old(St()) else Written(old(St()), cfg.tokens[index], value)
      decreases Depth(access), 3
    {
      hide State.Update, State.View, Decode, Encode, Overflows, ClobberBits, Config.Valid, Config.AsLayout;
      assert St().cfg.Valid();
      var t := cfg.tokens[index];
      var bitsToWrite: bv8 := 0;
      result := value;
      if access == WriteType {
        if Overflows(value, t) {
          return InvalidParameter, result;
        }
        result := Encode(result, t);
        bitsToWrite := ClobberBits(t);
      }
      var _, r := ReadWrite(access, Address(t), bitsToWrite, result);
      result := r;
      if access == ReadType {
        result := Decode(result, t);
      }
      outcome := Success;
    }

    method Read(t: Token, prior: bv8) returns (outcome: EfiStatus, value: bv8)
      requires Valid()
      ensures outcome == ReadOutcome(St(), t)
      ensures value == if outcome == Success then ReadValue(St(), t) else prior
      // By register number: usability matters from 0xf up, and reachability.
      ensures t <= 0xe ==> outcome == if t in cfg.AsLayout().reachable then Success else NotFound
      ensures 0xe < t < 4096 ==> (outcome == DeviceError <==> IsUsable !in status)
      ensures 0xe < t < 4096 && IsUsable in status ==>
                outcome == if t in cfg.AsLayout().reachable then Success else NotFound
      ensures t < 4096 && outcome == Success ==> value == phys[t]
      // By token: an unknown one is refused.
      ensures t >= 4096 ==> outcome == if t in cfg.AsLayout().known then Success else InvalidParameter
      decreases 1, 4
    {
      value := prior;
      if t <= LAST_ALWAYS_REACHABLE {
        outcome, value := BankReadWrite(ReadType, t, value);
      } else if t < MIN_TOKEN_VALUE {
        if !CheckStatus({IsUsable}) {
          outcome := DeviceError;
        } else {
          outcome, value := BankReadWrite(ReadType, t, value);
        }
      } else {
        var index := FindToken(t);
        if index > 0 {
          outcome, value := ReadWriteEncodedToken(ReadType, index, value);
        } else {
          outcome := InvalidParameter;
        }
      }
    }

    method Write(t: Token, value: bv8) returns (outcome: EfiStatus)
      requires Valid()
      modifies this`status, phys, defaults, hob
      ensures Valid()
      ensures outcome == WriteOutcome(old(St()), t, value)
      ensures St() == Written(old(St()), t, value)
      ensures outcome != Success ==> St() == old(St())
      // By register number: as for a read, and the managed addresses are closed.
      ensures t <= 0xe ==> outcome == if t in cfg.AsLayout().reachable then Success else NotFound
      ensures 0xe < t < 4096 ==> (outcome == DeviceError <==> IsUsable !in old(status))
      ensures 0xe < t < 4096 && IsUsable in old(status) ==>
                (outcome == InvalidParameter <==> cfg.first <= t < cfg.limit)
      ensures 0xe < t < 4096 && IsUsable in old(status) && !(cfg.first <= t < cfg.limit) ==>
                outcome == if t in cfg.AsLayout().reachable then Success else NotFound
      // By token: an unknown one or an oversize value is refused.
      ensures t >= 4096 ==>
                outcome == if t in cfg.AsLayout().known && !Overflows(value, t) then Success else InvalidParameter
      decreases Depth(WriteType), 4
    {
      hide State.Update, State.Put, Overflows, Encode, ClobberBits, Bank.Serves, Config.Valid, Config.AsLayout;
      var result;
      if t <= LAST_ALWAYS_REACHABLE {
        outcome, result := BankReadWrite(WriteType, t, value);
      } else if t < MIN_TOKEN_VALUE {
        if !CheckStatus({IsUsable}) {
          outcome := DeviceError;
        } else if cfg.first <= t && t < cfg.limit {
          outcome := InvalidParameter;
        } else {
          outcome, result := BankReadWrite(WriteType, t, value);
        }
      } else {
        var index := FindToken(t);
        if index > 0 {
          outcome, result := ReadWriteEncodedToken(WriteType, index, value);
        } else {
          outcome := InvalidParameter;
        }
      }
    }

    // --------------------------------------------------------------------- checksum

    /** The checksum a one-register change will lead to; notes whether there is one. */
    method CalculateUpdatedChecksum(a: nat, was: bv8, now: bv8, prior: nat) returns (sum: nat)
      requires Valid() && prior < WORD
      requires (cfg.AsLayout().InRegion(a) || cfg.AsLayout().Excluded(a))
      modifies this`status, phys, defaults, hob
      ensures Valid()
      ensures sum == if cfg.AsLayout().Excluded(a) then prior else old(St()).Adjusted(was, now)
      ensures St() == old(St()).Noted(a)
      decreases 4
    {
      hide State.SetBits, State.ClearBits, State.Stored, Moved, Config.Valid, Config.AsLayout, Layout.Valid;
      TableFacts();
      var n, u := cfg.noChecksum, cfg.unmanaged;
      var i := Scan(n, 1, a);
      var j := Scan(u, 1, a);
      BothScansDecide(a, i, j);
      sum := prior;
      if a == n.cells[i] || a == u.cells[j] {
        ClearSilently(St(), {AddressIsChecksummed});
        ClearStatus({AddressIsChecksummed});
      } else {
        sum := ReadChecksum(sum);
        sum := Moved(sum, was, now);
        SetSilently(St(), {AddressIsChecksummed});
        SetStatus({AddressIsChecksummed});
      }
    }

    lemma BothScansDecide(a: nat, i: nat, j: nat)
      requires Valid() && cfg.noChecksum.StopsAt(i, a) && cfg.unmanaged.StopsAt(j, a)
      requires cfg.AsLayout().InRegion(a) || cfg.AsLayout().Excluded(a)
      ensures a == cfg.noChecksum.cells[i] || a == cfg.unmanaged.cells[j] <==> cfg.AsLayout().Excluded(a)
    {
      ScanAnswers(cfg.noChecksum, i, a);
      ScanAnswers(cfg.unmanaged, j, a);
      EntriesAreListed(cfg.noChecksum, a);
      EntriesAreListed(cfg.unmanaged, a);
    }

    /** Both bytes are read into the low byte of the word, the high one first. */
    method ReadChecksum(prior: nat) returns (sum: nat)
      requires Valid() && prior < WORD
      ensures sum == St().Stored()
      decreases 3
    {
      hide State.View, Config.Valid, Config.AsLayout, Word, High, Low;
      assert St().cfg.Valid();
      ChecksumTokenRead(St(), cfg.checksumHigh);
      ChecksumTokenRead(St(), cfg.checksumLow);
      var _, high := Read(cfg.checksumHigh, Low(prior));
      sum := Word(High(prior), high);
      sum := (sum * 256) % WORD;
      var _, low := Read(cfg.checksumLow, Low(sum));
      sum := Word(High(sum), low);
      WordFromReads(prior, high, low);
    }

    /** After a write: store the new checksum, if updates are on and the register counts. */
    method FollowWithChecksum(newChecksum: nat)
      requires Valid() && newChecksum < WORD
      modifies this`status, phys, defaults, hob
      ensures Valid()
      ensures St() == if ForceNoChecksum in old(status) || AddressIsChecksummed !in old(status) then old(St())
                      else old(St()).PutChecksum(newChecksum)
      decreases if ForceNoChecksum in status then 1 else 5, 0
    {
      hide State.PutChecksum, State.SetBits, State.ClearBits, Config.Valid, Config.AsLayout;
      if !CheckStatus({ForceNoChecksum}) {
        if CheckStatus({AddressIsChecksummed}) {
          GuardedPutChecksum(St(), newChecksum);
          SetStatus({ForceNoChecksum});
          WriteChecksum(newChecksum);
          ClearStatus({ForceNoChecksum});
        }
      }
    }

    method RecordChecksum(sum: nat)
      requires Valid()
      modifies hob
      ensures Valid() && St() == HobChecksum(old(St()), sum)
    {
      hide Config.Valid, Config.AsLayout;
      if hob != null {
        hob.checksum := sum;
      }
    }

    method WriteChecksum(sum: nat)
      requires Valid() && sum < WORD
      modifies this`status, phys, defaults, hob
      ensures Valid()
      ensures St() == old(St()).PutChecksum(sum)
      decreases 4, 0
    {
      hide State.PutRouted, State.PutChecksum, State.SetBits, State.ClearBits, Written, WriteOutcome, HobChecksum,
        Low, High, Config.Valid, Config.AsLayout;
      HighIsLow(sum);
      PutChecksumSteps(St(), sum);
      RecordChecksum(sum);
      SetSilently(St(), {ForceNoChecksum});
      SetStatus({ForceNoChecksum});
      ChecksumTokenWrite(St(), cfg.checksumLow, Low(sum));
      var _ := Write(cfg.checksumLow, Low(sum));
      var _ := Write(cfg.checksumHigh, Low(sum / 256));
      ClearStatus({ForceNoChecksum});
    }

    // ----------------------------------------------------------------------- status

    method SetClearStatus(bits: Status, access: BitAccess)
      requires Valid()
      modifies this`status, phys, defaults, hob
      ensures Valid()
      ensures St() == if access == SetType then old(St()).SetBits(bits) else old(St()).ClearBits(bits)
      decreases if access == SetType && bits * REPORTED != {} then 6 else 0, 7
    {
      hide State.Report, State.Legacy, Config.Valid, Config.AsLayout;
      if access == SetType {
        status := status + bits;
        if CheckStatus({IsUsable}) {
          ReportStatus(bits);
        }
      } else {
        status := status - bits;
      }
      if bits * LEGACY != {} {
        SynchronizeLegacyStatusRegisters(bits, access);
      } else {
        LegacyIdle(St(), bits, access == SetType);
      }
      if hob != null {
        hob.status := status;
      }
    }

    /** Record one bit in its token, if it is set. */
    method MarkIfSet(bit: bool, t: Token)
      requires Valid() && cfg.AsLayout().StatusToken(t)
      modifies this`status, phys, defaults, hob
      ensures Valid() && St() == old(St()).MarkIf(bit, t)
      decreases if bit then 6 else 0, 5
    {
      hide State.Mark, Written, WriteOutcome, Config.Valid, Config.AsLayout, Layout.Valid;
      if bit {
        MarkIsWrite(St(), t);
        var _ := Write(t, 1);
      }
    }

    lemma StatusTokenFacts()
      requires Valid()
      ensures var l := cfg.AsLayout();
        l.StatusToken(cfg.batteryBad) && l.StatusToken(cfg.checksumBad)
        && l.StatusToken(cfg.defaultsLoaded) && l.StatusToken(cfg.firstBoot)
    {
      hide Layout.StatusToken;
      assert St().cfg.Valid();
    }

    lemma ReportMeans(bits: Status)
      requires Valid()
      ensures TokensApart(St().cfg) ==> OwnBits(St(), St().Report(bits), bits)
    {
      hide State.Report, TokensApart, OwnBits, Config.Valid, Config.AsLayout, Layout.Valid;
      if TokensApart(St().cfg) {
        ReportOwnBits(St(), bits);
      }
    }

    /** Record the reported bits in their tokens. */
    method ReportStatus(bits: Status)
      requires Valid()
      modifies this`status, phys, defaults, hob
      ensures Valid() && St() == old(St()).Report(bits)
      ensures St().cfg == old(St().cfg) && (TokensApart(St().cfg) ==> OwnBits(old(St()), St(), bits))
      decreases if bits * REPORTED != {} then 6 else 0, 6
    {
      hide State.MarkIf, TokensApart, OwnBits, Config.Valid, Config.AsLayout, Layout.Valid, Layout.StatusToken;
      StatusTokenFacts();
      ReportMeans(bits);
      assert forall f :: f in bits && f in REPORTED ==> f in bits * REPORTED;
      MarkIfSet(BadBattery in bits, cfg.batteryBad);
      MarkIfSet(BadChecksum in bits, cfg.checksumBad);
      MarkIfSet(DefaultsLoaded in bits, cfg.defaultsLoaded);
      MarkIfSet(FirstBootDetected in bits, cfg.firstBoot);
    }

    method SetStatus(bits: Status)
      requires Valid()
      modifies this`status, phys, defaults, hob
      ensures Valid() && St() == old(St()).SetBits(bits)
      decreases if bits * REPORTED != {} then 6 else 0, 8
    {
      SetClearStatus(bits, SetType);
    }

    method ClearStatus(bits: Status)
      requires Valid()
      modifies this`status, phys, defaults, hob
      ensures Valid() && St() == old(St()).ClearBits(bits)
      decreases 0, 8
    {
      SetClearStatus(bits, ClearType);
    }

    /** Failure bits are cleared only in the DXE phase. */
    method SynchronizeLegacyStatusRegisters(bits: Status, access: BitAccess)
      requires Valid()
      modifies phys
      ensures Valid() && St() == old(St()).Legacy(bits, access == SetType)
    {
      hide State.LegacyStep, Config.Valid, Config.AsLayout;
      if BadChecksum in bits {
        UpdateDiagnosticBit(CHECKSUM_IS_BAD, access);
      } else {
        LegacyStepIdle(St(), CHECKSUM_IS_BAD, access == SetType);
      }
      if BadBattery in bits {
        UpdateDiagnosticBit(RTC_POWER_IS_BAD, access);
      } else {
        LegacyStepIdle(St(), RTC_POWER_IS_BAD, access == SetType);
      }
    }

    method UpdateDiagnosticBit(bit: bv8, access: BitAccess)
      requires Valid()
      modifies phys
      ensures Valid() && St() == old(St()).LegacyStep(bit, true, access == SetType)
    {
      hide State.Put, State.LegacyStep, WithBits, WithoutBits, Config.Valid, Config.AsLayout;
      assert St().cfg.Valid();
      LegacyStepIsPut(St(), bit, access == SetType);
      var _, d := BankReadWrite(ReadType, DIAGNOSTIC_STATUS_REGISTER, 0);
      if access == SetType {
        d := WithBits(d, bit);
      } else if dxe {
        d := WithoutBits(d, bit);
      }
      var _, _ := BankReadWrite(WriteType, DIAGNOSTIC_STATUS_REGISTER, d);
    }

    // ---------------------------------------------------------- the full checksum

    method ReadRegister(a: nat) returns (value: bv8)
      requires Valid() && cfg.AsLayout().InRegion(a)
      ensures value == St().View(a)
    {
      var _, v := ReadWrite(ReadType, a, 0, 0);
      value := v;
    }

    /** One pass over the managed registers, with a cursor in each sorted table. */
    method SumManaged() returns (sum: nat)
      requires Valid()
      ensures sum == St().FullSum()
    {
      hide State.View, State.SumBelow, Plus, Config.Valid, Config.AsLayout, Layout.Valid;
      TableFacts();
      var u, n := cfg.unmanaged, cfg.noChecksum;
      var i, j := 1, 1;
      sum := 0;
      var r := cfg.first;
      assert St().SumBelow(r) == 0 by { SumBelowFirst(St()); }
      while r <= cfg.last
        invariant cfg.first <= r <= cfg.last + 1
        invariant 1 <= i <= u.count && u.Below(i, r)
        invariant 1 <= j <= n.count && n.Below(j, r)
        invariant sum == St().SumBelow(r) % WORD
      {
        SumStep(St(), r);
        i := Scan(u, i, r);
        UnmanagedScan(i, r);
        if r != u.cells[i] {
          j := Scan(n, j, r);
          NoChecksumScan(j, r);
          if r != n.cells[j] {
            var value := ReadRegister(r);
            sum := Plus(sum, value);
          }
        }
        r := r + 1;
      }
    }

    method CalculateChecksum() returns (sum: nat)
      requires Valid()
      modifies this`status, phys, defaults, hob
      ensures Valid() && sum == old(St()).FullSum() && St() == old(St()).Checked()
    {
      hide State.FullSum, State.SetBits, State.ClearBits, Config.Valid, Config.AsLayout;
      sum := SumManaged();
      var current := ReadChecksum(0);
      if sum != current {
        SetStatus({BadChecksum});
      } else {
        ClearStatus({BadChecksum});
      }
    }

    // ------------------------------------------------------------- optimal defaults

    method WriteDefault(r: nat, defaultIndex: nat)
      requires Valid() && cfg.AsLayout().InRegion(r) && 1 <= defaultIndex < defaults.Length
      requires OptimalDefaultsEnabled !in status && ForceNoChecksum in status
      modifies this`status, phys, defaults, hob
      ensures Valid()
      ensures var s := old(St()); St() == s.(phys := s.phys[r := s.buf[defaultIndex]])
    {
      hide State.Update, Config.Valid, Config.AsLayout;
      var curValue := defaults[defaultIndex];
      PlainStore(St(), r, curValue);
      var _, _ := ReadWrite(WriteType, r, ALL_BITS, curValue);
    }

    /** The manager is part way through a load: the registers below `r` are done. */
    ghost predicate Loading(s: State, r: nat, i: nat, j: nat, defaultIndex: nat)
      reads this, phys, defaults, hob
    {
      && Valid() && s.Valid() && cfg.defaultCount <= |s.buf| && cfg.first <= r <= cfg.last + 1
      && OptimalDefaultsEnabled !in s.status && ForceNoChecksum in s.status
      && 1 <= i <= cfg.unmanaged.count && cfg.unmanaged.Below(i, r)
      && 1 <= j <= cfg.noChecksum.count && cfg.noChecksum.Below(j, r)
      && s.cfg == cfg.AsLayout() && defaultIndex == 1 + Rank(s.cfg, r)
      && St() == s.(phys := Filled(s, cfg.defaultCount, Skipping(s), r))
    }

    /** One turn of the loop: skip an unmanaged or unchecksummed register, or write its default. */
    method LoadRegister(ghost s: State, r: nat, i: nat, j: nat, defaultIndex: nat)
      returns (i': nat, j': nat, next: nat)
      requires Loading(s, r, i, j, defaultIndex) && r <= cfg.last && defaultIndex < cfg.defaultCount
      modifies this`status, phys, defaults, hob
      ensures Loading(s, r + 1, i', j', next)
    {
      hide Filled, Rank, Config.Valid, Config.AsLayout, Layout.Valid, State.Valid;
      TableFacts();
      var u, n := cfg.unmanaged, cfg.noChecksum;
      FilledStep(s, cfg.defaultCount, Skipping(s), r);
      RankStep(s.cfg, r);
      i' := Scan(u, i, r);
      j', next := j, defaultIndex;
      UnmanagedScan(i', r);
      if r == u.cells[i'] {
        return;
      }
      next := next + 1;
      if CheckStatus({BadChecksum, RecoverOnlyChecksummed}) {
        j' := Scan(n, j, r);
        NoChecksumScan(j', r);
        if r == n.cells[j'] {
          return;
        }
      }
      WriteDefault(r, defaultIndex);
    }

    /** Write each default to the next managed register, with a cursor in each table. */
    method WriteDefaults()
      requires Valid() && OptimalDefaultsEnabled !in status && ForceNoChecksum in status
      modifies this`status, phys, defaults, hob
      ensures Valid()
      ensures var s := old(St());
        St() == s.(phys := Filled(s, cfg.defaultCount, Skipping(s), cfg.last + 1))
    {
      hide Filled, Config.Valid, Config.AsLayout, Layout.Valid;
      TableFacts();
      ghost var s := St();
      var i: nat, j: nat, defaultIndex: nat := 1, 1, 1;
      var r: nat := cfg.first;
      FilledStart(s, cfg.defaultCount, Skipping(s));
      while r <= cfg.last
        invariant Loading(s, r, i, j, defaultIndex)
      {
        if defaultIndex >= cfg.defaultCount {
          FilledDone(s, cfg.defaultCount, Skipping(s), r);
          return;
        }
        i, j, defaultIndex := LoadRegister(s, r, i, j, defaultIndex);
        r := r + 1;
      }
    }

    /** Section 1: hardware routing, checksum updates off, a first boot overrides. */
    method PrepareLoad()
      requires Valid()
      modifies this`status, phys, defaults, hob
      ensures Valid() && St() == Prepared(old(St()))
    {
      hide State.SetBits, State.ClearBits, Config.Valid, Config.AsLayout, Layout.Valid;
      ClearStatus({OptimalDefaultsEnabled});
      SetStatus({ForceNoChecksum});
      if CheckStatus({FirstBootDetected}) {
        ClearStatus({BadChecksum});
      }
    }

    /** Section 3: sum, store, approve. */
    method ApproveLoad()
      requires Valid()
      modifies this`status, phys, defaults, hob
      ensures Valid() && St() == Approved(old(St()))
    {
      hide State.Checked, State.PutChecksum, State.ClearBits, Config.Valid, Config.AsLayout, Layout.Valid;
      var newChecksum := CalculateChecksum();
      WriteChecksum(newChecksum);
      ClearStatus({BadChecksum});
    }

    /** A write never reports an error, so neither does a load, unless one was on record. */
    method LoadOptimalDefaults() returns (outcome: EfiStatus)
      requires Valid()
      modifies this`status, phys, defaults, hob
      ensures Valid()
      ensures outcome == LoadOutcome(old(St())) && St() == Loaded(old(St()), cfg.defaultCount)
      ensures outcome == Success <==> ErrorLoadingDefaults !in old(status)
    {
      hide State.SetBits, State.ClearBits, Prepared, Approved, Filled, Config.Valid, Config.AsLayout, State.Valid, Layout.Valid;
      TableFacts();
      PreparedFacts(St());
      var saved := status * {OptimalDefaultsEnabled};
      PrepareLoad();
      WriteDefaults();
      if CheckStatus({ErrorLoadingDefaults}) {
        outcome := Unsupported;
      } else {
        outcome := Success;
        ApproveLoad();
      }
      status := status + saved;
      ClearStatus({ForceNoChecksum});
      SetStatus({DefaultsLoaded});
    }

    // ---------------------------------------------------------------- configuration

    /** Switch the buffer on or off; asking for both is an error. */
    method ConfigureManager(on: bool, off: bool, behind: nat -> bv8) returns (outcome: EfiStatus)
      requires Valid()
      modifies this`status, this`defaults, this`checksum, phys, defaults, hob
      ensures Valid() && (defaults == old(defaults) || fresh(defaults))
      ensures outcome == if on && off then InvalidParameter else Success
      // In memory, or when the buffer is on already or not asked for, the table stays where it is.
      ensures !on || off || ExecutingInMemory in old(status) || OptimalDefaultsEnabled in old(status) ==>
                defaults == old(defaults)
      // The sum the manager keeps is of what it shows once it went over to the buffer, else the one it had.
      ensures checksum == if on && !off && OptimalDefaultsEnabled !in old(status) then St().FullSum() else old(checksum)
      ensures St() == if on && off then old(St())
                      else if on then SwitchedOn(old(St()), cfg.defaultCount, behind)
                      else if off then old(St()).ClearBits({OptimalDefaultsEnabled}) else old(St())
    {
      hide State.SetBits, State.ClearBits, State.Checked, State.PutChecksum, State.FullSum, State.Stored, Config.Valid,
        Config.AsLayout, Layout.Valid;
      outcome := Success;
      if on && off {
        return InvalidParameter;
      }
      if on {
        if CheckStatus({OptimalDefaultsEnabled}) {
          return;
        }
        if !CheckStatus({ExecutingInMemory}) {
          CopyDefaults(behind);
        }
        SetStatus({OptimalDefaultsEnabled});
        ResummedSum(St());
        checksum := CalculateChecksum();
        WriteChecksum(checksum);
      }
      if off {
        ClearStatus({OptimalDefaultsEnabled});
      }
    }

    /**
     Move to a writable copy of the table. The cells after the entries that there
     are stand for what the memory behind the copy holds.
     */
    method CopyDefaults(behind: nat -> bv8)
      requires Valid() && !CheckStatus({ExecutingInMemory}) && !CheckStatus({OptimalDefaultsEnabled})
      modifies this`defaults
      ensures Valid() && fresh(defaults) && St() == Writable(old(St()), cfg.defaultCount, behind)
    {
      hide Config.Valid, Config.AsLayout;
      TableFacts();
      var temp := CopiedCells(behind);
      defaults := temp;
    }

    method CopiedCells(behind: nat -> bv8) returns (table: array<bv8>)
      requires Valid()
      ensures fresh(table) && table.Length == defaults.Length && table != phys
      ensures cfg.defaultCount <= defaults.Length && table[..] == CopiedTable(defaults[..], cfg.defaultCount, behind)
    {
      hide Config.Valid, Config.AsLayout;
      TableFacts();
      table := new bv8[defaults.Length];
      forall i | 0 <= i < defaults.Length {
        table[i] := if i < cfg.defaultCount then defaults[i] else behind(i - cfg.defaultCount);
      }
    }

    // ------------------------------------------------------------------- API pointer

    /** Save the pointer, or this interface's own address when it is null. */
    method SaveApiPointer(pointer: nat) returns (outcome: EfiStatus)
      requires Valid() && cfg.AsLayout().ApiValid()
      modifies this`status, phys, defaults, hob
      ensures Valid() && outcome == if IsUsable in old(status) then Success else DeviceError
      ensures var p := if pointer != 0 then pointer else if ValidInterface in old(status) then address else 0;
        St() == if IsUsable in old(status) then Saved(old(St()), p, 4) else old(St())
    {
      hide State.Update, Config.Valid, Config.AsLayout, Layout.Valid;
      var p := pointer;
      if p == 0 && CheckStatus({ValidInterface}) {
        p := address;
      }
      if !CheckStatus({IsUsable}) {
        return DeviceError;
      }
      var offset := 0;
      while offset < 4
        invariant 0 <= offset <= 4 && Valid() && St().cfg.ApiValid()
        invariant St() == Saved(old(St()), p, offset)
      {
        SaveByte(p, offset);
        offset := offset + 1;
      }
      outcome := Success;
    }

    method SaveByte(p: nat, offset: nat)
      requires Valid() && cfg.AsLayout().ApiValid() && offset < 4
      modifies this`status, phys, defaults, hob
      ensures Valid() && cfg.apiByte3 + offset < REGISTER_SPACE
      ensures St() == old(St()).Update(Hardware, cfg.apiByte3 + offset, ALL_BITS, PointerByte(p, offset))
    {
      hide State.Update, PointerByte, Config.Valid, Config.AsLayout;
      ApiRegisterFacts(St().cfg, offset);
      assert cfg.apiByte3 + offset in St().cfg.reachable;
      var _, _ := PhysicalReadWrite(WriteType, cfg.apiByte3 + offset, ALL_BITS, PointerByte(p, offset));
    }

    method GetApiPointer(prior: nat) returns (outcome: EfiStatus, pointer: nat)
      requires Valid() && cfg.AsLayout().ApiValid()
      ensures outcome == if IsUsable in status then Success else DeviceError
      ensures pointer == if IsUsable in status then Assembled(St(), 4) else prior
    {
      hide Config.Valid, Config.AsLayout;
      if !CheckStatus({IsUsable}) {
        return DeviceError, prior;
      }
      pointer := 0;
      var offset := 0;
      while offset < 4
        invariant 0 <= offset <= 4
        invariant pointer == Assembled(St(), offset)
      {
        ApiRegisterFacts(St().cfg, offset);
        assert cfg.apiByte3 + offset in St().cfg.reachable;
        var _, temp := PhysicalReadWrite(ReadType, cfg.apiByte3 + offset, 0, 0);
        pointer := ShiftedIn(pointer, temp);
        offset := offset + 1;
      }
      outcome := Success;
    }

    // ------------------------------------------------------------------------- clock

    method WriteRtcIndex(register: nat, value: nat)
      requires Valid() && register in cfg.AsLayout().reachable && value < 256
      modifies phys
      ensures Valid() && register < REGISTER_SPACE && St() == WithField(old(St()), register, value)
    {
      hide DecToBcd, Low, Config.Valid, Config.AsLayout;
      assert register < REGISTER_SPACE by { assert St().cfg.Valid(); }
      var _, _ := BankReadWrite(WriteType, register, Low(DecToBcd(value)));
    }

    method ReadRtcIndex(register: nat) returns (value: nat)
      requires Valid() && register in cfg.AsLayout().reachable
      ensures register < REGISTER_SPACE && value == FieldOf(St(), register)
    {
      hide BcdToDec, Config.Valid, Config.AsLayout;
      assert register < REGISTER_SPACE by { assert St().cfg.Valid(); }
      var _, v := BankReadWrite(ReadType, register, 0);
      value := BcdToDec(v as nat);
    }

    /** Set or clear the bit that stops the clock. */
    method StopOrStartTime(stop: bool)
      requires Valid() && CONTROL in cfg.AsLayout().reachable
      modifies phys
      ensures Valid()
      ensures St() == old(St()).Put(Hardware, CONTROL,
        if stop then WithBits(old(St()).phys[CONTROL], STOPPED) else WithoutBits(old(St()).phys[CONTROL], STOPPED))
      ensures phys[CONTROL] ==
              if stop then WithBits(old(phys[CONTROL]), STOPPED) else WithoutBits(old(phys[CONTROL]), STOPPED)
    {
      hide WithBits, WithoutBits, Config.Valid, Config.AsLayout;
      var _, v := BankReadWrite(ReadType, CONTROL, 0);
      if stop {
        v := WithBits(v, STOPPED);
      } else {
        v := WithoutBits(v, STOPPED);
      }
      var _, _ := BankReadWrite(WriteType, CONTROL, v);
    }

    /** The fields, which are written while the clock stands still. */
    method WriteFields(t: Time)
      requires Valid() && cfg.AsLayout().ClockValid() && InWidth(t) && phys[0xb] & 0x80 != 0
      modifies phys
      ensures Valid() && St() == FieldsWritten(old(St()), t)
    {
      hide WithField, Config.Valid, Config.AsLayout;
      WriteRtcIndex(cfg.century, (t.year / 100) % 256);
      WriteRtcIndex(9, t.year % 100);
      WriteRtcIndex(8, t.month);
      WriteRtcIndex(7, t.day);
      WriteRtcIndex(4, t.hour);
      WriteRtcIndex(2, t.minute);
      WriteRtcIndex(0, t.second);
    }

    method SetDateTime(t: Time)
      requires Valid() && cfg.AsLayout().ClockValid() && InWidth(t)
      modifies phys
      ensures Valid() && St() == TimeSet(old(St()), t) && phys[0xb] & 0x80 == 0
    {
      hide FieldsWritten, State.Put, WithBits, WithoutBits, Config.Valid, Config.AsLayout;
      StoppedOrNot(phys[CONTROL]);
      StopOrStartTime(true);
      WriteFields(t);
      StoppedOrNot(phys[CONTROL]);
      StopOrStartTime(false);
    }

    method GetDateTime() returns (t: Time)
      requires Valid() && cfg.AsLayout().ClockValid()
      ensures t == TimeRead(St())
    {
      hide FieldOf, Config.Valid, Config.AsLayout;
      var century := ReadRtcIndex(cfg.century);
      var year := ReadRtcIndex(9);
      var month := ReadRtcIndex(8);
      var day := ReadRtcIndex(7);
      var hour := ReadRtcIndex(4);
      var minute := ReadRtcIndex(2);
      var second := ReadRtcIndex(0);
      t := Time(century * 100 + year, month, day, hour, minute, second, 0);
    }

    // ------------------------------------------------------------------------- boot

    /** A new manager in PEI, on the tables in flash. */
    constructor InPei(phys: array<bv8>, defaults: array<bv8>, cfg: Config, inMemory: bool, address: nat)
      requires cfg.Valid() && phys.Length == REGISTER_SPACE && phys != defaults
      requires defaults.Length == cfg.last - cfg.first + 2
      ensures Valid() && IsNew(St()) && this.phys == phys && this.defaults == defaults && this.cfg == cfg
      ensures St().phys == phys[..] && St().buf == defaults[..] && hob == null && this.address == address
      ensures ExecutingInMemory in status <==> inMemory
    {
      this.phys, this.defaults, this.cfg, this.hob := phys, defaults, cfg, null;
      this.dxe, this.address, this.checksum := false, address, 0;
      this.status := {ValidInterface} + if inMemory then {ExecutingInMemory} else {};
    }

    /** A new manager in DXE, on the tables and the status of the hand-off block. */
    constructor InDxe(phys: array<bv8>, block: CmosHob, address: nat)
      requires block.cfg.Valid() && phys.Length == REGISTER_SPACE && phys != block.defaults
      requires block.defaults.Length == block.cfg.last - block.cfg.first + 2
      ensures Valid() && this.phys == phys && defaults == block.defaults && cfg == block.cfg && hob == null
      ensures St() == State(block.cfg.AsLayout(), phys[..], block.defaults[..], block.status, NoHob, true)
      ensures this.address == address && checksum == block.checksum
    {
      this.phys, this.defaults, this.cfg, this.hob := phys, block.defaults, block.cfg, null;
      this.dxe, this.address, this.checksum := true, address, block.checksum;
      this.status := block.status;
    }

    method SetIfAsked(condition: bool, flag: Flag)
      requires Valid()
      modifies this`status, phys, defaults, hob
      ensures Valid() && St() == SetIf(old(St()), condition, flag)
    {
      hide State.SetBits, Config.Valid, Config.AsLayout;
      if condition {
        SetStatus({flag});
      }
    }

    method SetOrClearAsAsked(condition: bool, flag: Flag)
      requires Valid()
      modifies this`status, phys, defaults, hob
      ensures Valid() && St() == SetOrClear(old(St()), condition, flag)
    {
      hide State.SetBits, State.ClearBits, Config.Valid, Config.AsLayout;
      if condition {
        SetStatus({flag});
      } else {
        ClearStatus({flag});
      }
    }

    /** Ask a list of hooks; any yes sets the flag. */
    method SetIfAnyAsked(answers: seq<bool>, flag: Flag)
      requires Valid() && flag in {FirstBootDetected, ColdBootDetected, BspIsExecuting}
      modifies this`status, phys, defaults, hob
      ensures Valid() && St() == SetIf(old(St()), true in answers, flag)
    {
      hide SetIf, Config.Valid, Config.AsLayout;
      var i := 0;
      NotAsked(St(), flag);
      while i < |answers|
        invariant 0 <= i <= |answers| && Valid()
        invariant St() == SetIf(old(St()), true in answers[..i], flag)
      {
        SetIfTwice(old(St()), true in answers[..i], answers[i], flag);
        assert answers[..i + 1] == answers[..i] + [answers[i]];
        SetIfAsked(answers[i], flag);
        i := i + 1;
      }
      assert answers[..i] == answers;
    }

    /** Ask whether the registers are usable; the last answer stands. */
    method AskUsable(answers: seq<bool>)
      requires Valid() && hob == null
      modifies this`status, phys, defaults, hob
      ensures Valid()
      ensures St() == SetOrClear(old(St()), if answers == [] then IsUsable in old(status) else answers[|answers| - 1], IsUsable)
    {
      hide SetOrClear, Config.Valid, Config.AsLayout;
      var i := 0;
      ghost var last := IsUsable in status;
      UsableAsItIs(St());
      while i < |answers|
        invariant 0 <= i <= |answers| && Valid()
        invariant last == if i == 0 then IsUsable in old(status) else answers[i - 1]
        invariant St() == SetOrClear(old(St()), last, IsUsable)
      {
        UsableTwice(old(St()), last, answers[i]);
        SetOrClearAsAsked(answers[i], IsUsable);
        last := answers[i];
        i := i + 1;
      }
    }

    /** Ask the hooks and set the recovery policy. */
    method Poll(h: Answers)
      requires Valid() && hob == null
      modifies this`status, phys, defaults, hob
      ensures Valid() && St() == Polled(old(St()), h.Combined(old(status)))
    {
      hide SetIf, SetOrClear, CmosManager.Valid, CmosManager.St;
      StatusOfValue();
      AskUsable(h.usable);
      SetIfAnyAsked(h.firstBoot, FirstBootDetected);
      SetIfAnyAsked(h.coldBoot, ColdBootDetected);
      SetIfAnyAsked(h.bsp, BspIsExecuting);
      SetIfAsked(h.recoverOnlyChecksummed, RecoverOnlyChecksummed);
      SetIfAsked(h.recoverInPei, RecoverInPei);
    }

    lemma StatusOfValue()
      requires Valid()
      ensures St().status == status
    {
    }

    /** The rest of making a manager: hooks, policy, checksum, battery. */
    method Detect(h: Answers)
      requires Valid() && hob == null
      modifies this`status, this`checksum, phys, defaults, hob
      ensures Valid() && St() == Detected(old(St()), h.Combined(old(status))) && checksum == St().FullSum()
    {
      hide Polled, SetOrClear, State.Checked, State.FullSum, Config.Valid, Config.AsLayout, Layout.Valid;
      Poll(h);
      DetectedSum(St(), h.Combined(old(status)));
      checksum := CalculateChecksum();
      var isGood := false;
      var i := 0;
      while i < |h.batteryGood|
        invariant 0 <= i <= |h.batteryGood|
        invariant isGood == (i > 0 && h.batteryGood[i - 1])
      {
        isGood := h.batteryGood[i];
        i := i + 1;
      }
      SetOrClearAsAsked(!isGood, BadBattery);
    }

    /** A second start of the first phase: the manager is found, marked and left alone. */
    method StartAgain() returns (outcome: EfiStatus)
      requires Valid()
      modifies this`status, phys, defaults, hob
      ensures Valid() && St() == StartedAgain(old(St())) && InterfaceAlreadyInstalled in status
      ensures outcome == if ValidInterface in old(status) then Success else Unsupported
    {
      hide State.SetBits, Config.Valid, Config.AsLayout;
      SetBitsStatus(St(), {InterfaceAlreadyInstalled});
      SetStatus({InterfaceAlreadyInstalled});
      if !CheckStatus({ValidInterface}) {
        return Unsupported;
      }
      assert CheckStatus({InterfaceAlreadyInstalled});
      outcome := Success;
    }

    method InstallAccessInterface(installs: bool)
      requires Valid()
      modifies this`status, phys, defaults, hob
      ensures Valid() && St() == Installed(old(St()), installs)
    {
      hide State.SetBits, State.ClearBits, Config.Valid, Config.AsLayout;
      if installs {
        SetStatus({ValidManager});
      } else {
        SetStatus({InstallFailed});
        ClearStatus({ValidManager});
      }
    }

    /** First boot on the boot processor. */
    method HandleFirstBoot()
      requires Valid() && cfg.AsLayout().ApiValid() && ValidInterface in status
      modifies this`status, phys, defaults, hob
      ensures Valid() && St() == FirstBootHandled(old(St()), cfg.defaultCount, address)
    {
      hide Loaded, Saved, Config.Valid, Config.AsLayout, Layout.Valid;
      if CheckStatus({IsUsable}) && CheckStatus({BspIsExecuting}) {
        if CheckStatus({FirstBootDetected}) && CheckStatus({ColdBootDetected}) {
          TableFacts();
          LoadedStatus(St(), cfg.defaultCount, ValidInterface);
          LoadedStatus(St(), cfg.defaultCount, IsUsable);
          var _ := LoadOptimalDefaults();
        }
        var _ := SaveApiPointer(0);
      }
    }

    /** A bad checksum or battery. */
    method Recover(behind: nat -> bv8)
      requires Valid()
      modifies this`status, this`defaults, this`checksum, phys, defaults, hob
      ensures Valid() && (defaults == old(defaults) || fresh(defaults))
      ensures St() == Recovered(old(St()), cfg.defaultCount, behind)
    {
      hide Loaded, SwitchedOn, State.ClearBits, Config.Valid, Config.AsLayout, Layout.Valid;
      TableFacts();
      if CheckStatus({BadChecksum}) || CheckStatus({BadBattery}) {
        if CheckStatus({IsUsable}) && CheckStatus({RecoverInPei}) {
          var _ := LoadOptimalDefaults();
          var _ := ConfigureManager(false, true, behind);
        } else {
          var _ := ConfigureManager(true, false, behind);
        }
      }
    }

    /** The PEI entry point, for a manager that was not installed before. */
    method PeiEntry(h: Answers, behind: nat -> bv8) returns (outcome: EfiStatus)
      requires Valid() && hob == null && IsNew(St()) && cfg.AsLayout().ApiValid()
      modifies this`status, this`defaults, this`checksum, phys, defaults, hob
      ensures Valid() && (defaults == old(defaults) || fresh(defaults))
      ensures var hooks := h.Combined(old(status));
        && St() == PeiEntered(old(St()), hooks, cfg.defaultCount, address, behind)
        && (OptimalDefaultsEnabled in status <==> Decision(hooks, old(St()).Coherent()) == UseBuffer)
      ensures St().Coherent() && ForceNoChecksum !in status
      // The interface's address is in its registers, unless recovery reloads one with another byte.
      ensures var hooks := h.Combined(old(status));
        PointerApart(cfg.AsLayout()) && address < POINTER_SPACE && hooks.usable && hooks.bsp ==>
          (Assembled(St(), 4) == address <==> !PointerOverwritten(old(St()), hooks, cfg.defaultCount, address))
      ensures outcome == if h.installs then Success else Unsupported
    {
      hide Detected, FirstBootHandled, Recovered, State.Coherent, Assembled, PointerOverwritten, PointerApart, Config.Valid,
        Config.AsLayout, State.Valid, Layout.Valid;
      TableFacts();
      ghost var hooks := h.Combined(status);
      PeiEntryEstablishes(St(), hooks, cfg.defaultCount, address, behind);
      if PointerApart(cfg.AsLayout()) && address < POINTER_SPACE && hooks.usable && hooks.bsp {
        EntrySavesPointer(St(), hooks, cfg.defaultCount, address, behind);
      }
      DetectedFlags(St(), hooks);
      Detect(h);
      HandleFirstBoot();
      Recover(behind);
      InstallAccessInterface(h.installs);
      outcome := if CheckStatus({ValidManager}) then Success else Unsupported;
    }

    /**
     Permanent memory: everything moves into a hand-off block, which holds room
     for a default per register of the region but is given only those there are.
     */
    method AfterMemoryEntry(guard: nat, room: nat -> bv8) returns (block: CmosHob)
      requires Valid() && cfg.AsLayout().ApiValid() && hob == null && ValidInterface in status
      // The cells that come to lie after the copied tables stay out of the way.
      requires GuardInert(Relocated(cfg.noChecksum, cfg.unmanaged.count), cfg.first, cfg.last)
      requires GuardInert(Relocated(cfg.unmanaged, guard), cfg.first, cfg.last)
      modifies this`status, this`defaults, this`hob, this`cfg, phys, defaults
      ensures Valid() && fresh(block) && hob == block && fresh(defaults) && block.defaults == defaults
      ensures block.cfg == cfg == old(cfg).InHob(guard) && cfg.AsLayout() == old(cfg.AsLayout())
      ensures St() == HandedOff(old(St()), cfg.defaultCount, checksum, address, room)
      // From here on the manager works on the block's table and takes no copy of its own.
      ensures ExecutingInMemory in status && ExecutingInMemory in block.status && block.checksum == checksum
      ensures address < POINTER_SPACE && IsUsable in old(status) ==> Assembled(St(), 4) == address
    {
      hide Saved, Assembled, State.SetBits, InBlock, State.Valid, Layout.Valid;
      TableFacts();
      HandedOffFacts(St(), cfg.defaultCount, checksum, address, room);
      if address < POINTER_SPACE {
        MigrationSavesPointer(St(), cfg.defaultCount, checksum, address, room);
      }

      SavedFacts(St(), address, 4);
      if CheckStatus({IsUsable}) {
        var _ := SaveApiPointer(address);
      }
      SetSilently(St(), {ExecutingInMemory});
      SetStatus({ExecutingInMemory});
      block := CreateDataHob(guard, room);
    }

    method CreateDataHob(guard: nat, room: nat -> bv8) returns (block: CmosHob)
      requires Valid()
      requires GuardInert(Relocated(cfg.noChecksum, cfg.unmanaged.count), cfg.first, cfg.last)
      requires GuardInert(Relocated(cfg.unmanaged, guard), cfg.first, cfg.last)
      modifies this`defaults, this`hob, this`cfg
      ensures Valid() && fresh(block) && hob == block && fresh(defaults) && block.defaults == defaults
      ensures block.cfg == cfg == old(cfg).InHob(guard) && cfg.AsLayout() == old(cfg.AsLayout())
      ensures St() == InBlock(old(St()), cfg.defaultCount, checksum, room)
    {
      hide Layout.Valid;
      InHobIsSame(cfg, guard);
      var table := CopiedCells(room);
      block := new CmosHob(status, checksum, cfg.InHob(guard), table);
      hob := block;
      cfg := block.cfg;
      defaults := block.defaults;
    }

    /** Write the buffer to the registers and stop using it. */
    method FlushBuffer()
      requires Valid()
      modifies this`status, this`defaults, this`checksum, phys, defaults, hob
      ensures Valid() && defaults == old(defaults)
      ensures St() == Flushed(old(St()), cfg.defaultCount)
    {
      hide Loaded, State.ClearBits, Config.Valid, Config.AsLayout, Layout.Valid;
      TableFacts();
      var _ := LoadOptimalDefaults();
      if CheckStatus({OptimalDefaultsEnabled}) {
        var _ := ConfigureManager(false, true, _ => 0);
      }
    }

    /** The DXE entry point, for a manager just made from the hand-off block. */
    method DxeEntry(h: Answers) returns (outcome: EfiStatus)
      requires Valid() && hob == null
      modifies this`status, this`defaults, this`checksum, phys, defaults, hob
      ensures Valid() && defaults == old(defaults)
      ensures St() == DxeEntered(old(St()), h.Combined(old(status)), cfg.defaultCount)
      ensures var d := Detected(old(St()), h.Combined(old(status)));
        outcome == if ValidInterface in d.status && (InterfaceAlreadyInstalled in d.status || h.installs) then Success
                   else Unsupported
    {
      hide Detected, Flushed, Config.Valid, Config.AsLayout, State.Valid, Layout.Valid;
      TableFacts();
      Detect(h);
      if !CheckStatus({ValidInterface}) {
        return Unsupported;
      }
      if CheckStatus({InterfaceAlreadyInstalled}) {
        return Success;
      }
      if !CheckStatus({IsUsable}) {
      } else if CheckStatus({OptimalDefaultsEnabled}) {
        FlushBuffer();
      }
      InstallAccessInterface(h.installs);
      outcome := if CheckStatus({ValidManager}) then Success else Unsupported;
    }
  }

  /** A second manager on the same registers and the first one's hand-off block. */
  method MakeSuccessor(first: CmosManager, block: CmosHob, address: nat) returns (second: CmosManager)
    requires first.Valid() && first.hob == block && block.cfg == first.cfg && block.defaults == first.defaults
    ensures fresh(second) && second.Valid() && second.phys == first.phys && second.defaults == first.defaults
    ensures second.St() == TakenOver(first.St())
  {
    second := new CmosManager.InDxe(first.phys, block, address);
  }
}
