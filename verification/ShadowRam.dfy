/** Opening and closing the shadow RAM segments for writing, on every socket. */
module ShadowRam {

  /** The read and write enable bits set in the two attribute registers. */
  const PAM0123_DRAM_RW_ENABLE: bv32 := 0x30
  const PAM456_DRAM_RW_ENABLE: bv32 := 0x333333

  /** The two attribute registers of one socket, and the values saved for them. */
  datatype Socket = Socket(pam0123: bv32, pam456: bv32, saved0123: bv32, saved456: bv32)

  /** What one call does to a valid socket. */
  function Stepped(s: Socket, enable: bool, enabled: bool): Socket
  {
    if enable && !enabled then
      Socket(s.pam0123 | PAM0123_DRAM_RW_ENABLE, s.pam456 | PAM456_DRAM_RW_ENABLE, s.pam0123, s.pam456)
    else if !enable && enabled then
      Socket(s.saved0123, s.saved456, s.saved0123, s.saved456)
    else s
  }

  function SteppedIf(s: Socket, valid: bool, enable: bool, enabled: bool): Socket
  {
    if valid then Stepped(s, enable, enabled) else s
  }

  datatype Call = Call(enable: bool, valid: seq<bool>)

  /** One socket over a run of calls, and the flag the run leaves. */
  function Run(s: Socket, socket: nat, enabled: bool, calls: seq<Call>): (r: (Socket, bool))
    requires forall c :: c in calls ==> socket < |c.valid|
    decreases |calls|
  {
    if calls == [] then (s, enabled)
    else
      var c := calls[0];
      Run(SteppedIf(s, c.valid[socket], c.enable, enabled), socket, c.enable, calls[1..])
  }

  /** The registers are as given when the segments are closed, and opened over that when open. */
  predicate Shows(s: Socket, original0123: bv32, original456: bv32, enabled: bool)
  {
    if enabled then
      && s.pam0123 == original0123 | 0x30 && s.pam456 == original456 | 0x333333
      && s.saved0123 == original0123 && s.saved456 == original456
    else s.pam0123 == original0123 && s.pam456 == original456
  }

  /**
   Over any run of calls that finds the socket valid each time, both registers
   are the original ones when the last call closed, and those with the enable
   bits when it opened, however often it was asked for the same.
   */
  lemma {:induction false} RunShows(s: Socket, socket: nat, enabled: bool, calls: seq<Call>, o0123: bv32, o456: bv32)
    requires forall c :: c in calls ==> socket < |c.valid| && c.valid[socket]
    requires Shows(s, o0123, o456, enabled)
    ensures var (r, now) := Run(s, socket, enabled, calls);
      Shows(r, o0123, o456, now) && now == if calls == [] then enabled else calls[|calls| - 1].enable
    decreases |calls|
  {
    if calls != [] {
      var c := calls[0];
      RunShows(Stepped(s, c.enable, enabled), socket, c.enable, calls[1..], o0123, o456);
    }
  }

  /** A socket that no call finds valid is left alone. */
  lemma {:induction false} RunSkips(s: Socket, socket: nat, enabled: bool, calls: seq<Call>)
    requires forall c :: c in calls ==> socket < |c.valid| && !c.valid[socket]
    ensures Run(s, socket, enabled, calls).0 == s
    decreases |calls|
  {
    if calls != [] {
      RunSkips(s, socket, calls[0].enable, calls[1..]);
    }
  }

  ghost predicate Restores(opening: bool, closing: bool)
  {
    forall s: Socket :: SameRegisters(SteppedIf(SteppedIf(s, opening, true, false), closing, false, true), s)
  }

  predicate SameRegisters(r: Socket, s: Socket)
  {
    r.pam0123 == s.pam0123 && r.pam456 == s.pam456
  }

  /**
   Opening and closing restores a socket's registers, whatever they held, if and
   only if the socket was as valid at the closing as at the opening.
   */
  lemma RestoresExactly(opening: bool, closing: bool)
    ensures Restores(opening, closing) <==> opening == closing
  {
    var s := Socket(0, 0, 1, 1);
    if opening != closing {
      assert !SameRegisters(SteppedIf(SteppedIf(s, opening, true, false), closing, false, true), s);
    }
  }

  class ShadowRamControl {
    const pam0123: array<bv32>
    const pam456: array<bv32>
    const saved0123: array<bv32>
    const saved456: array<bv32>
    var enabled: bool

    ghost predicate Valid()
      reads this
    {
      && pam0123.Length == pam456.Length == saved0123.Length == saved456.Length
      && pam0123 != pam456 && pam0123 != saved0123 && pam0123 != saved456
      && pam456 != saved0123 && pam456 != saved456 && saved0123 != saved456
    }

    ghost function SocketAt(i: nat): Socket
      requires Valid() && i < pam0123.Length
      reads this, pam0123, pam456, saved0123, saved456
    {
      Socket(pam0123[i], pam456[i], saved0123[i], saved456[i])
    }

    constructor (pam0123: array<bv32>, pam456: array<bv32>)
      requires pam0123 != pam456 && pam0123.Length == pam456.Length
      ensures Valid() && this.pam0123 == pam0123 && this.pam456 == pam456 && !enabled
    {
      this.pam0123, this.pam456, this.enabled := pam0123, pam456, false;
      this.saved0123, this.saved456 := new bv32[pam0123.Length](_ => 0), new bv32[pam0123.Length](_ => 0);
    }

    /** Open or close the segments on every valid socket. */
    method RuntimeShadowRamWrite(enable: bool, valid: seq<bool>)
      requires Valid() && |valid| == pam0123.Length
      modifies this, pam0123, pam456, saved0123, saved456
      ensures Valid() && enabled == enable
      ensures forall i: nat :: i < |valid| ==> SocketAt(i) == SteppedIf(old(SocketAt(i)), valid[i], enable, old(enabled))
    {
      var socket := 0;
      while socket < |valid|
        invariant 0 <= socket <= |valid| && enabled == old(enabled)
        invariant forall i: nat :: i < socket ==> SocketAt(i) == SteppedIf(old(SocketAt(i)), valid[i], enable, old(enabled))
        invariant forall i: nat :: socket <= i < |valid| ==> SocketAt(i) == old(SocketAt(i))
      {
        if valid[socket] {
          if enable && !enabled {
            saved0123[socket] := pam0123[socket];
            saved456[socket] := pam456[socket];
            pam0123[socket] := saved0123[socket] | PAM0123_DRAM_RW_ENABLE;
            pam456[socket] := saved456[socket] | PAM456_DRAM_RW_ENABLE;
          } else if !enable && enabled {
            pam0123[socket] := saved0123[socket];
            pam456[socket] := saved456[socket];
          }
        }
        socket := socket + 1;
      }
      enabled := enable;
    }
  }
}
