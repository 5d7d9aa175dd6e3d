/** The entry points of the two boot phases and the hand-over between them. */
module Boot {
  import opened CmosStore
  import opened OptimalDefaults
  import opened ApiPointer

  /** What the board hooks answer, the build's recovery policy, and whether installation works. */
  datatype Hooks = Hooks(
    usable: bool,
    firstBoot: bool,
    coldBoot: bool,
    bsp: bool,
    batteryGood: bool,
    recoverOnlyChecksummed: bool,
    recoverInPei: bool,
    installs: bool
  )

  /** What the lists of hooks answer, in order. */
  datatype Answers = Answers(
    usable: seq<bool>,
    firstBoot: seq<bool>,
    coldBoot: seq<bool>,
    bsp: seq<bool>,
    batteryGood: seq<bool>,
    recoverOnlyChecksummed: bool,
    recoverInPei: bool,
    installs: bool
  ) {
    /**
     What the lists come to: the last word on usability and on the battery, any
     yes for the others. Without a hook the flag stays and the battery is bad.
     */
    function Combined(status: Status): Hooks
    {
      Hooks(if usable == [] then IsUsable in status else usable[|usable| - 1],
            true in firstBoot, true in coldBoot, true in bsp,
            batteryGood != [] && batteryGood[|batteryGood| - 1],
            recoverOnlyChecksummed, recoverInPei, installs)
    }
  }

  ghost function SetIf(s: State, condition: bool, flag: Flag): (r: State)
    requires s.Valid()
    ensures r.Valid() && r.cfg == s.cfg && r.dxe == s.dxe
  {
    if condition then s.SetBits({flag}) else s
  }

  ghost function SetOrClear(s: State, condition: bool, flag: Flag): (r: State)
    requires s.Valid()
    ensures r.Valid() && r.cfg == s.cfg && r.dxe == s.dxe
  {
    if condition then s.SetBits({flag}) else s.ClearBits({flag})
  }

  /** The hooks consulted and the policy set, before the checksum is looked at. */
  ghost function Polled(s: State, h: Hooks): (r: State)
    requires s.Valid()
    ensures r.Valid() && r.cfg == s.cfg && r.dxe == s.dxe
  {
    var s1 := SetOrClear(s, h.usable, IsUsable);
    var s2 := SetIf(SetIf(s1, h.firstBoot, FirstBootDetected), h.coldBoot, ColdBootDetected);
    var s3 := SetIf(SetIf(s2, h.bsp, BspIsExecuting), h.recoverOnlyChecksummed, RecoverOnlyChecksummed);
    SetIf(s3, h.recoverInPei, RecoverInPei)
  }

  /** A new manager: hooks, checksum, battery. */
  ghost function Detected(s: State, h: Hooks): (r: State)
    requires s.Valid()
    ensures r.Valid() && r.cfg == s.cfg && r.dxe == s.dxe
  {
    SetOrClear(Polled(s, h).Checked(), !h.batteryGood, BadBattery)
  }

  ghost function Installed(s: State, installs: bool): (r: State)
    requires s.Valid()
    ensures r.Valid() && r.cfg == s.cfg && r.dxe == s.dxe
  {
    if installs then s.SetBits({ValidManager}) else s.SetBits({InstallFailed}).ClearBits({ValidManager})
  }

  // --------------------------------------------------------------------------- PEI

  /** On the boot processor, with usable registers: defaults on a first cold boot, and the pointer. */
  ghost function FirstBootHandled(s: State, count: nat, address: nat): (r: State)
    requires s.Valid() && s.cfg.ApiValid() && count <= |s.buf|
    ensures r.Valid() && r.cfg == s.cfg && r.dxe == s.dxe
  {
    if IsUsable in s.status && BspIsExecuting in s.status then
      Saved(if FirstBootDetected in s.status && ColdBootDetected in s.status then Loaded(s, count) else s, address, 4)
    else s
  }

  /**
   A copy of the table's entries, and behind it what the memory there happens to
   hold. Buffered accesses index the whole region, so they reach behind the copy
   when it has fewer entries.
   */
  ghost function CopiedTable(buf: seq<bv8>, count: nat, behind: nat -> bv8): (copy: seq<bv8>)
    requires count <= |buf|
    ensures |copy| == |buf|
    ensures forall i: nat {:trigger copy[i]} :: i < |buf| ==> copy[i] == if i < count then buf[i] else behind(i - count)
  {
    seq(|buf|, i requires 0 <= i < |buf| => if i < count then buf[i] else behind(i - count))
  }

  /** Before permanent memory the buffer is a copy of the table in flash. */
  ghost function Writable(s: State, count: nat, behind: nat -> bv8): (r: State)
    requires s.Valid() && count <= |s.buf|
    ensures r.Valid() && r.cfg == s.cfg && r.dxe == s.dxe && r.status == s.status && r.phys == s.phys
  {
    if ExecutingInMemory in s.status || OptimalDefaultsEnabled in s.status then s
    else s.(buf := CopiedTable(s.buf, count, behind))
  }

  /** The buffer is switched on. */
  ghost function SwitchedOn(s: State, count: nat, behind: nat -> bv8): (r: State)
    requires s.Valid() && count <= |s.buf|
    ensures r.Valid() && r.cfg == s.cfg && r.dxe == s.dxe
  {
    BufferedOn(Writable(s, count, behind))
  }

  /** A bad checksum or battery: reload the registers, or go over to the buffer. */
  ghost function Recovered(s: State, count: nat, behind: nat -> bv8): (r: State)
    requires s.Valid() && count <= |s.buf|
    ensures r.Valid() && r.cfg == s.cfg && r.dxe == s.dxe
  {
    if BadChecksum !in s.status && BadBattery !in s.status then s
    else if IsUsable in s.status && RecoverInPei in s.status then
      Loaded(s, count).ClearBits({OptimalDefaultsEnabled})
    else SwitchedOn(s, count, behind)
  }

  ghost function PeiEntered(s: State, h: Hooks, count: nat, address: nat, behind: nat -> bv8): (r: State)
    requires s.Valid() && s.cfg.ApiValid() && count <= |s.buf|
    ensures r.Valid() && r.cfg == s.cfg && r.dxe == s.dxe
  {
    Installed(Recovered(FirstBootHandled(Detected(s, h), count, address), count, behind), h.installs)
  }

  /** A second start finds the first manager, marks it and does nothing else. */
  ghost function StartedAgain(s: State): (r: State)
    requires s.Valid()
    ensures r.Valid() && r.cfg == s.cfg && r.dxe == s.dxe
  {
    s.SetBits({InterfaceAlreadyInstalled})
  }

  /** A manager just made in PEI: nothing known but that the interface is valid and where it runs. */
  ghost predicate IsNew(s: State)
  {
    s.Valid() && {ValidInterface} <= s.status <= {ValidInterface, ExecutingInMemory} && !s.dxe
  }

  // ------------------------------------------------------------------- the hand-over

  /** Permanent memory: save the pointer again, and move to a hand-off block. */
  ghost function HandedOff(s: State, count: nat, checksum: nat, address: nat, room: nat -> bv8): (r: State)
    requires s.Valid() && s.cfg.ApiValid() && count <= |s.buf|
    ensures r.Valid() && r.cfg == s.cfg && r.dxe == s.dxe
  {
    InBlock(Remembered(s, address), count, checksum, room)
  }

  ghost function Remembered(s: State, address: nat): (r: State)
    requires s.Valid() && s.cfg.ApiValid()
    ensures r.Valid() && r.cfg == s.cfg && r.dxe == s.dxe && |r.buf| == |s.buf|
  {
    (if IsUsable in s.status then Saved(s, address, 4) else s).SetBits({ExecutingInMemory})
  }

  /** The block has room for an entry per register, and gets those there are. */
  ghost function InBlock(s: State, count: nat, checksum: nat, room: nat -> bv8): (r: State)
    requires s.Valid() && count <= |s.buf|
    ensures r.Valid() && r.cfg == s.cfg && r.dxe == s.dxe
  {
    s.(buf := CopiedTable(s.buf, count, room), hob := HobRecord(s.status, checksum))
  }

  /** The DXE manager starts from the block and keeps no link to it. */
  ghost function TakenOver(s: State): (r: State)
    requires s.Valid() && s.hob.HobRecord?
    ensures r.Valid() && r.cfg == s.cfg
  {
    s.(status := s.hob.status, hob := NoHob, dxe := true)
  }

  /** Flush the buffer and stop using it. */
  ghost function Flushed(s: State, count: nat): (r: State)
    requires s.Valid() && count <= |s.buf|
    ensures r.Valid() && r.cfg == s.cfg && r.dxe == s.dxe
  {
    var s1 := Loaded(s, count);
    if OptimalDefaultsEnabled in s1.status then s1.ClearBits({OptimalDefaultsEnabled}) else s1
  }

  ghost function DxeEntered(s: State, h: Hooks, count: nat): (r: State)
    requires s.Valid() && count <= |s.buf|
    ensures r.Valid() && r.cfg == s.cfg && r.dxe == s.dxe
  {
    var d := Detected(s, h);
    if ValidInterface !in d.status || InterfaceAlreadyInstalled in d.status then d
    else Installed(
      if IsUsable in d.status && OptimalDefaultsEnabled in d.status then Flushed(d, count) else d,
      h.installs)
  }
}
