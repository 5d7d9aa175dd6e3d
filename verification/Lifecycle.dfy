/** A whole boot: power-on, the first phase, permanent memory, and the second phase. */
module Lifecycle {
  import opened TokenCodec
  import opened CmosStore
  import opened StoreLaws
  import opened StatusLaws
  import opened Requests
  import opened OptimalDefaults
  import opened Boot
  import opened PeiLaws
  import opened HandOverLaws
  import opened Operations
  import opened MigrationLaws

  /**
   All that a boot does not decide itself: the hooks' answers in either phase, the
   addresses of the interface, what memory holds behind a copied table, the sum
   last computed at the migration, and what is asked before and after it.
   */
  datatype Life = Life(
    first: Hooks,
    address: nat,
    behind: nat -> bv8,
    before: seq<Operation>,
    checksum: nat,
    moved: nat,
    room: nat -> bv8,
    after: seq<Operation>,
    second: Hooks
  )

  ghost predicate Sound(s: State, count: nat, l: Life)
  {
    IsNew(s) && Ready(s, count) && AllTyped(l.before) && AllTyped(l.after)
  }

  ghost function Entered(s: State, count: nat, l: Life): (r: State)
    requires Sound(s, count, l)
    ensures Ready(r, count) && r.cfg == s.cfg
  {
    PeiEntered(s, l.first, count, l.address, l.behind)
  }

  ghost function BeforeMemory(s: State, count: nat, l: Life): (r: State)
    requires Sound(s, count, l)
    ensures Ready(r, count) && r.cfg == s.cfg
  {
    PerformedAll(Entered(s, count, l), count, l.before)
  }

  ghost function Migrated(s: State, count: nat, l: Life): (r: State)
    requires Sound(s, count, l)
    ensures Ready(r, count) && r.cfg == s.cfg
  {
    HandedOff(BeforeMemory(s, count, l), count, l.checksum, l.moved, l.room)
  }

  /** What PEI leaves. */
  ghost function EndOfPei(s: State, count: nat, l: Life): (q: State)
    requires Sound(s, count, l)
    ensures Ready(q, count) && q.cfg == s.cfg
  {
    PerformedAll(Migrated(s, count, l), count, l.after)
  }

  /** Which phase-one operations a life may hold: none breaks what the flush relies on. */
  ghost predicate Proper(s: State, count: nat, l: Life)
    requires Sound(s, count, l)
  {
    if Decision(l.first, s.Coherent()) == UseBuffer then
      forall op :: op in l.before || op in l.after ==> LeavesBuffering(op) && LeavesUnmarked(op)
    else
      && (forall op :: op in l.before || op in l.after ==> LeavesHardware(op))
      && AllCareful(Entered(s, count, l), count, l.before) && AllCareful(Migrated(s, count, l), count, l.after)
  }

  // ------------------------------------------------------------------ on the buffer

  lemma EntryFollows(s: State, count: nat, l: Life)
    requires Sound(s, count, l)
    ensures HobFollows(Entered(s, count, l))
  {
    hide Recovered, FirstBootHandled, Detected, State.SetBits, State.ClearBits;
    var v := Recovered(FirstBootHandled(Detected(s, l.first), count, l.address), count, l.behind);
    ChangeSettles(v, Set({ValidManager}));
    ChangeSettles(v.SetBits({InstallFailed}), Clear({ValidManager}));
  }

  /** The first entry reaches the state that the hand-over starts from, when it goes over to the buffer. */
  lemma EntryBuffers(s: State, count: nat, l: Life)
    requires Sound(s, count, l) && Decision(l.first, s.Coherent()) == UseBuffer
    ensures Buffering(Entered(s, count, l)) && InterfaceAlreadyInstalled !in Entered(s, count, l).status
  {
    hide PeiEntered, State.Coherent, ShownAfterPei, Layout.Valid;
    PeiEntryEstablishes(s, l.first, count, l.address, l.behind);
    PeiEntryFlags(s, l.first, count, l.address, l.behind);
  }

  lemma EndsBuffering(s: State, count: nat, l: Life)
    requires Sound(s, count, l) && Decision(l.first, s.Coherent()) == UseBuffer && Proper(s, count, l)
    ensures AtHandOver(EndOfPei(s, count, l)) && InterfaceAlreadyInstalled !in EndOfPei(s, count, l).status
  {
    hide Entered, State.Coherent, HandedOff, PerformedAll, Layout.Valid;
    EntryFollows(s, count, l);
    EntryBuffers(s, count, l);
    RunStaysBuffering(Entered(s, count, l), count, l.before);
    HandedOffFacts(BeforeMemory(s, count, l), count, l.checksum, l.moved, l.room);
    RunStaysBuffering(Migrated(s, count, l), count, l.after);
  }

  // ---------------------------------------------------------------- on the hardware

  lemma MigrationStaysRight(p: State, count: nat, checksum: nat, address: nat, room: nat -> bv8)
    requires Ready(p, count) && Settled(p) && Covered(p, count)
    ensures var q := HandedOff(p, count, checksum, address, room);
      && (q.Coherent() <==> p.Coherent()) && Settled(q) && q.hob.HobRecord? && AgreeOnSummed(p, q)
      && (OptimalDefaultsEnabled in q.status <==> OptimalDefaultsEnabled in p.status)
  {
    hide State.Coherent, Layout.Valid, HandedOff, Covered;
    HandedOffFacts(p, count, checksum, address, room);
    CoveredKeepsDrift(p, count, checksum, address, room);
  }

  lemma HardwareIsCovered(p: State, count: nat)
    requires p.Valid() && OptimalDefaultsEnabled !in p.status
    ensures Covered(p, count)
  {
    hide Layout.Valid, Counts;
  }

  lemma EndsOnHardware(s: State, count: nat, l: Life)
    requires Sound(s, count, l) && Decision(l.first, s.Coherent()) != UseBuffer && Proper(s, count, l)
    ensures var q := EndOfPei(s, count, l);
      q.Coherent() && Settled(q) && q.hob.HobRecord? && OptimalDefaultsEnabled !in q.status
  {
    hide PeiEntered, State.Coherent, HandedOff, AllCareful, Layout.Valid, ShownAfterPei;
    PeiEntryEstablishes(s, l.first, count, l.address, l.behind);
    EntryFollows(s, count, l);
    RunStaysRight(Entered(s, count, l), count, l.before);
    RunNeverRaises(Entered(s, count, l), count, l.before, OptimalDefaultsEnabled);
    HardwareIsCovered(BeforeMemory(s, count, l), count);
    MigrationStaysRight(BeforeMemory(s, count, l), count, l.checksum, l.moved, l.room);
    RunStaysRight(Migrated(s, count, l), count, l.after);
    RunNeverRaises(Migrated(s, count, l), count, l.after, OptimalDefaultsEnabled);
  }

  // ------------------------------------------------------------- right up to the end of PEI

  /** Every operation of the first phase is careful where it is made. */
  ghost predicate CarefulLife(s: State, count: nat, l: Life)
    requires Sound(s, count, l)
  {
    AllCareful(Entered(s, count, l), count, l.before) && AllCareful(Migrated(s, count, l), count, l.after)
  }

  /**
   From power-on to the end of PEI, on the hardware or on the buffer, careful
   operations and a move that carries over every register that counts leave the
   checksum right.
   */
  lemma RightToEndOfPei(s: State, count: nat, l: Life)
    requires Sound(s, count, l) && CarefulLife(s, count, l) && Covered(BeforeMemory(s, count, l), count)
    ensures EndOfPei(s, count, l).Coherent() && Settled(EndOfPei(s, count, l))
  {
    hide PeiEntered, State.Coherent, HandedOff, AllCareful, Covered, Layout.Valid, ShownAfterPei;
    PeiEntryEstablishes(s, l.first, count, l.address, l.behind);
    EntryFollows(s, count, l);
    RunStaysRight(Entered(s, count, l), count, l.before);
    MigrationStaysRight(BeforeMemory(s, count, l), count, l.checksum, l.moved, l.room);
    RunStaysRight(Migrated(s, count, l), count, l.after);
  }

  // ------------------------------------------------------------------- the whole boot

  /** The state in which DXE can be entered. */
  lemma EndOfPeiFacts(s: State, count: nat, l: Life)
    requires Sound(s, count, l) && Proper(s, count, l)
    ensures var q := EndOfPei(s, count, l);
      && q.hob.HobRecord? && Settled(q)
      && if Decision(l.first, s.Coherent()) == UseBuffer
         then AtHandOver(q) && InterfaceAlreadyInstalled !in q.status && (l.second.usable ==> ToBeFlushed(q, l.second, count))
         else q.Coherent() && OptimalDefaultsEnabled !in q.status
  {
    hide EndOfPei, Proper, State.Coherent;
    if Decision(l.first, s.Coherent()) == UseBuffer {
      EndsBuffering(s, count, l);
    } else {
      EndsOnHardware(s, count, l);
    }
  }

  ghost function Outcome(s: State, count: nat, l: Life): (r: State)
    requires Sound(s, count, l) && Proper(s, count, l)
    ensures Ready(r, count) && r.cfg == s.cfg
  {
    EndOfPeiFacts(s, count, l);
    Delivered(EndOfPei(s, count, l), l.second, count)
  }

  /** DXE goes on with the buffer: the first phase went over to it, and the registers are unusable. */
  ghost predicate StaysBuffered(s: State, l: Life)
    requires s.Valid()
  {
    Decision(l.first, s.Coherent()) == UseBuffer && !l.second.usable
  }

  /** The register reaches DXE with its value: nothing is flushed, or the flush finds it. */
  ghost predicate Reaches(s: State, count: nat, l: Life, a: nat)
    requires s.Valid() && s.cfg.Summed(a)
  {
    Decision(l.first, s.Coherent()) == UseBuffer && l.second.usable
    ==> NoUnmanagedBelow(s.cfg, a) && 1 + Rank(s.cfg, a) < count
  }

  /**
   A whole boot. From any register contents and through any proper operations
   before and after the migration, DXE ends on the hardware with the right
   checksum; or, if it has to stay on the buffer, with one that is right exactly
   if it was at the end of PEI under DXE's routing. Every checksummed register,
   in the first case every one that a flush reaches, reads what it read at the end
   of PEI.
   */
  lemma BootDelivers(s: State, count: nat, l: Life)
    requires Sound(s, count, l) && Proper(s, count, l)
    ensures var r, q := Outcome(s, count, l), EndOfPei(s, count, l);
      && (OptimalDefaultsEnabled in r.status <==> StaysBuffered(s, l)) && ForceNoChecksum !in r.status
      && (r.Coherent() <==> !StaysBuffered(s, l) || Rerouted(q, l.second).Coherent())
      && forall a: nat {:trigger r.View(a)} :: s.cfg.Summed(a) && Reaches(s, count, l, a) ==> r.View(a) == q.View(a)
  {
    hide EndOfPei, Proper, State.Coherent, Delivered, Rank, NoUnmanagedBelow, Rerouted, Layout.Valid, AtHandOver;
    EndOfPeiFacts(s, count, l);
    var q := EndOfPei(s, count, l);
    if Decision(l.first, s.Coherent()) != UseBuffer {
      NothingToFlush(q, l.second, count);
    } else if l.second.usable {
      FlushesUnlessDuplicate(q, l.second, count);
      forall a: nat | s.cfg.Summed(a) && Reaches(s, count, l, a)
        ensures Outcome(s, count, l).View(a) == q.View(a)
      {
        AlignedRegisterSurvives(q, l.second, count, a);
      }
    } else {
      UnflushedKeepsBuffer(q, l.second, count);
    }
  }

  /** What a token shows at the end of PEI it shows in DXE. */
  lemma TokenReachesDxe(s: State, count: nat, l: Life, t: Token)
    requires Sound(s, count, l) && Proper(s, count, l)
    requires t in s.cfg.known && s.cfg.Summed(Address(t)) && Reaches(s, count, l, Address(t))
    ensures ReadOutcome(Outcome(s, count, l), t) == Success
    ensures ReadValue(Outcome(s, count, l), t) == ReadValue(EndOfPei(s, count, l), t)
  {
    hide EndOfPei, Proper, State.Coherent, Outcome, Rank, Reaches, StaysBuffered, Rerouted;
    BootDelivers(s, count, l);
  }

  /** The checksum is right in DXE: always on the hardware, and on the buffer under DXE's routing. */
  ghost predicate RightInDxe(s: State, count: nat, l: Life)
    requires Sound(s, count, l)
  {
    StaysBuffered(s, l) ==> Rerouted(EndOfPei(s, count, l), l.second).Coherent()
  }

  /** From there any run of careful operations keeps the checksum right. */
  lemma RightThroughBoot(s: State, count: nat, l: Life, ops: seq<Operation>)
    requires Sound(s, count, l) && Proper(s, count, l) && RightInDxe(s, count, l)
    requires AllTyped(ops) && AllCareful(Outcome(s, count, l), count, ops)
    ensures PerformedAll(Outcome(s, count, l), count, ops).Coherent()
    ensures Settled(PerformedAll(Outcome(s, count, l), count, ops))
  {
    hide EndOfPei, Proper, State.Coherent, Outcome, AllCareful, Reaches, StaysBuffered, Rerouted;
    BootDelivers(s, count, l);
    OutcomeHasNoBlock(s, count, l);
    RunStaysRight(Outcome(s, count, l), count, ops);
  }

  /**
   The boot without a battery: unusable registers in both phases, careful
   operations, and a move that carries over every register that counts. DXE works
   on the buffer with the right checksum.
   */
  lemma DeadBatteryIsRight(s: State, count: nat, l: Life)
    requires Sound(s, count, l) && Proper(s, count, l) && StaysBuffered(s, l)
    requires CarefulLife(s, count, l) && Covered(BeforeMemory(s, count, l), count)
    requires !l.first.usable && forall op :: op in l.before || op in l.after ==> IsUsable !in Raises(op)
    ensures RightInDxe(s, count, l) && Outcome(s, count, l).Coherent()
  {
    hide EndOfPei, Proper, CarefulLife, Covered, State.Coherent, Outcome, Reaches, BeforeMemory, Rerouted, Layout.Valid;
    RightToEndOfPei(s, count, l);
    EndOfPeiFacts(s, count, l);
    StaysUnusable(s, count, l);
    var q := EndOfPei(s, count, l);
    ChecksumRegisters(q.cfg);
    BufferedChecksumStays(q, l.second);
    BootDelivers(s, count, l);
  }

  lemma StaysUnusable(s: State, count: nat, l: Life)
    requires Sound(s, count, l) && !l.first.usable
    requires forall op :: op in l.before || op in l.after ==> IsUsable !in Raises(op)
    ensures IsUsable !in EndOfPei(s, count, l).status
  {
    hide PeiEntered, HandedOff, PerformedAll, Raises, Layout.Valid;
    PeiEntryFlags(s, l.first, count, l.address, l.behind);
    RunNeverRaises(Entered(s, count, l), count, l.before, IsUsable);
    HandedOffFacts(BeforeMemory(s, count, l), count, l.checksum, l.moved, l.room);
    RunNeverRaises(Migrated(s, count, l), count, l.after, IsUsable);
  }

  lemma OutcomeHasNoBlock(s: State, count: nat, l: Life)
    requires Sound(s, count, l) && Proper(s, count, l)
    ensures HobFollows(Outcome(s, count, l))
  {
    hide EndOfPei, Proper, Detected, Flushed, State.SetBits, State.ClearBits, State.Coherent, Polled, State.Checked;
    EndOfPeiFacts(s, count, l);
    EntryFollowsInDxe(TakenOver(EndOfPei(s, count, l)), l.second, count);
  }

  lemma EntryFollowsInDxe(s: State, h: Hooks, count: nat)
    requires s.Valid() && count <= |s.buf|
    ensures HobFollows(DxeEntered(s, h, count))
  {
    hide Flushed, Polled, State.Checked, State.SetBits, State.ClearBits;
    var c := Polled(s, h).Checked();
    ChangeSettles(c, Set({BadBattery}));
    ChangeSettles(c, Clear({BadBattery}));
    var d := Detected(s, h);
    var v := if IsUsable in d.status && OptimalDefaultsEnabled in d.status then Flushed(d, count) else d;
    ChangeSettles(v, Set({ValidManager}));
    ChangeSettles(v, Set({InstallFailed}));
    ChangeSettles(v.SetBits({InstallFailed}), Clear({ValidManager}));
  }

  // ------------------------------------------------------------------ a second start

  /**
   A second start of PEI, made last, undoes this: DXE goes on showing the buffer,
   and no checksummed register ever gets its byte.
   */
  lemma SecondStartLosesBuffer(q: State, h: Hooks, count: nat, a: nat)
    requires Ready(q, count) && ToBeFlushed(q, h, count) && q.cfg.Summed(a)
    ensures var r := Performed(q, count, StartAgain);
      && AtHandOver(r) && a < REGISTER_SPACE
      && OptimalDefaultsEnabled in Delivered(r, h, count).status
      && Delivered(r, h, count).View(a) == q.View(a) && Delivered(r, h, count).phys[a] == q.phys[a]
  {
    hide Performed, Delivered, Buffering, Layout.Valid;
    FlushIsBuffering(q, h, count);
    var r := Performed(q, count, StartAgain);
    StaysBuffering(q, count, StartAgain);
    StaysSettled(q, count, StartAgain);
    FlagsAfter(q, count, StartAgain, InterfaceAlreadyInstalled);
    StartKeepsRegister(q, count, a);
    UnflushedKeepsBuffer(r, h, count);
    UnflushedWritesNothing(r, h, count, a);
  }

  lemma FlushIsBuffering(q: State, h: Hooks, count: nat)
    requires ToBeFlushed(q, h, count)
    ensures Buffering(q) && HobFollows(q) && Settled(q)
  {
  }

  lemma StartKeepsRegister(q: State, count: nat, a: nat)
    requires Ready(q, count) && Buffering(q) && q.cfg.Summed(a)
    ensures var r := Performed(q, count, StartAgain);
      a < REGISTER_SPACE && r.View(a) == q.View(a) && r.phys[a] == q.phys[a]
  {
    hide State.SetBits;
    SetBitsIsQuiet(q, {InterfaceAlreadyInstalled});
    SetBitsKeepsCells(q, {InterfaceAlreadyInstalled});
    CellsKeptAt(q, q.SetBits({InterfaceAlreadyInstalled}), a);
  }
}
