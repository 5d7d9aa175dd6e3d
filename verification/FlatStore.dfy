/**
 The reference for the whole access stack: one flat array of managed registers,
 no routing and no status word, with a checksum summed afresh after every write,
 beside the file of registers that only a register number reaches.
 */
module FlatStore {
  import opened Bytes
  import opened TokenCodec
  import opened CmosStore
  import opened StoreLaws
  import opened Requests

  /** One byte for each managed register. */
  type Cells = map<nat, bv8>

  /** `file` holds the registers outside the region, and those of the region that something hides. */
  datatype Flat = Flat(cells: Cells, file: map<nat, bv8>)

  ghost predicate Shaped(l: Layout, c: Cells)
  {
    l.Valid() && forall a :: a in c <==> l.InRegion(a)
  }

  ghost predicate Complete(l: Layout, m: Flat)
  {
    Shaped(l, m.cells) && forall a: nat :: a < REGISTER_SPACE && !l.InRegion(a) ==> a in m.file
  }

  ghost function SumFrom(l: Layout, c: Cells, a: nat): (n: nat)
    requires Shaped(l, c) && l.first <= a <= l.last + 1
    decreases l.last + 1 - a
  {
    if a > l.last then 0 else (if l.Summed(a) then c[a] as nat else 0) + SumFrom(l, c, a + 1)
  }

  ghost function FreshSum(l: Layout, c: Cells): (n: nat)
    requires Shaped(l, c)
    ensures n < WORD
  {
    SumFrom(l, c, l.first) % WORD
  }

  ghost function StoredSum(l: Layout, c: Cells): (n: nat)
    requires Shaped(l, c)
    ensures n < WORD
  {
    Word(c[Address(l.checksumHigh)], c[Address(l.checksumLow)])
  }

  /** How far the stored checksum is off the fresh sum. */
  ghost function Off(l: Layout, c: Cells): (d: nat)
    requires Shaped(l, c)
    ensures d < WORD
  {
    (StoredSum(l, c) as int - FreshSum(l, c)) % WORD
  }

  ghost function WithSum(l: Layout, c: Cells, sum: nat): (c': Cells)
    requires Shaped(l, c) && sum < WORD
    ensures Shaped(l, c')
  {
    c[Address(l.checksumLow) := Low(sum)][Address(l.checksumHigh) := High(sum)]
  }

  /** A masked write; on a summed register the checksum is summed afresh, as far off as it was. */
  ghost function CellsWritten(l: Layout, c: Cells, t: Token, v: bv8): (c': Cells)
    requires Shaped(l, c)
    ensures Shaped(l, c')
  {
    if TokenOutcome(l, t, true, v) != Success then c
    else
      var a := Address(t);
      var c' := c[a := Merge(c[a], ClobberBits(t), Encode(v, t))];
      if l.Summed(a) then WithSum(l, c', (FreshSum(l, c') + Off(l, c)) % WORD) else c'
  }

  // ------------------------------------------------------------------ what it promises

  /** From a right checksum the reference keeps no account of anything: it just sums. */
  lemma FreshWhenRight(l: Layout, c: Cells, t: Token, v: bv8)
    requires Shaped(l, c) && Off(l, c) == 0 && TokenOutcome(l, t, true, v) == Success && l.Summed(Address(t))
    ensures var a := Address(t);
      var c' := c[a := Merge(c[a], ClobberBits(t), Encode(v, t))];
      CellsWritten(l, c, t, v) == WithSum(l, c', FreshSum(l, c'))
  {
    hide FreshSum, Off, Low, High, Merge, Layout.Valid;
  }

  lemma {:induction false} SumOverSummed(l: Layout, c: Cells, c': Cells, a: nat)
    requires Shaped(l, c) && Shaped(l, c') && l.first <= a <= l.last + 1
    requires forall b: nat {:trigger c'[b]} :: l.Summed(b) ==> c'[b] == c[b]
    ensures SumFrom(l, c', a) == SumFrom(l, c, a)
    decreases l.last + 1 - a
  {
    if a <= l.last {
      SumOverSummed(l, c, c', a + 1);
    }
  }

  lemma WithSumIsOff(l: Layout, c: Cells, d: nat)
    requires Shaped(l, c) && d < WORD
    ensures Off(l, WithSum(l, c, (FreshSum(l, c) + d) % WORD)) == d
  {
    hide SumFrom, Word, Low, High;
    var sum := (FreshSum(l, c) + d) % WORD;
    SumOverSummed(l, c, WithSum(l, c, sum), l.first);
    WordRoundTrip(sum);
    DriftBack(FreshSum(l, c), d);
  }

  /** A write off the checksum registers leaves the checksum right if it was, and off if it was. */
  lemma FlatWriteKeepsOff(l: Layout, c: Cells, t: Token, v: bv8)
    requires Shaped(l, c) && (t in l.known ==> !l.IsChecksumRegister(Address(t)))
    ensures Off(l, CellsWritten(l, c, t, v)) == Off(l, c)
  {
    hide SumFrom, Word, Low, High, Merge, Encode, ClobberBits, Overflows;
    if TokenOutcome(l, t, true, v) == Success {
      var a := Address(t);
      var c' := c[a := Merge(c[a], ClobberBits(t), Encode(v, t))];
      if l.Summed(a) {
        WithSumIsOff(l, c', Off(l, c));
      } else {
        SumOverSummed(l, c, c', l.first);
      }
    }
  }

  // --------------------------------------------------------------- the manager, shown flat

  /** The routed view. */
  ghost function Shown(s: State): (c: Cells)
    requires s.Valid()
    ensures Shaped(s.cfg, c)
  {
    map a: nat | s.cfg.first <= a <= s.cfg.last :: s.View(a)
  }

  /** A register number reaches the hardware: outside the region, or under the buffer. */
  ghost predicate Beneath(s: State, a: nat)
    requires s.Valid()
  {
    !s.cfg.InRegion(a) || s.Route(a) == Buffer
  }

  ghost function Image(s: State): (m: Flat)
    requires s.Valid()
    ensures Complete(s.cfg, m)
  {
    Flat(Shown(s), map a: nat | a < REGISTER_SPACE && Beneath(s, a) :: s.phys[a])
  }

  lemma {:induction false} SumsAgree(s: State, c: Cells, a: nat)
    requires s.Valid() && Shaped(s.cfg, c) && s.cfg.first <= a <= s.cfg.last + 1
    requires forall b: nat {:trigger s.View(b)} :: s.cfg.Summed(b) ==> c[b] == s.View(b)
    ensures s.SumBelow(a) + SumFrom(s.cfg, c, a) == s.SumBelow(s.cfg.last + 1)
    decreases s.cfg.last + 1 - a
  {
    if a <= s.cfg.last {
      SumsAgree(s, c, a + 1);
    }
  }

  /** The reference is off by the manager's drift. */
  lemma OffIsDrift(s: State)
    requires s.Valid()
    ensures FreshSum(s.cfg, Shown(s)) == s.FullSum() && Off(s.cfg, Shown(s)) == s.Drift()
  {
    hide Word;
    SumsAgree(s, Shown(s), s.cfg.first);
  }

  // -------------------------------------------------------------- requests and runs

  datatype Request = Write(token: Token, value: bv8) | Read(token: Token)

  datatype Reply = Reply(outcome: EfiStatus, value: bv8)

  ghost function Serve(s: State, r: Request): (out: (State, Reply))
    requires s.Valid()
    ensures out.0.Valid() && out.0.cfg == s.cfg
  {
    match r
    case Write(t, v) => (Written(s, t, v), Reply(WriteOutcome(s, t, v), 0))
    case Read(t) => (s, Reply(ReadOutcome(s, t), if ReadOutcome(s, t) == Success then ReadValue(s, t) else 0))
  }

  /** A register number is looked up in the file first: in the region that finds what is hidden. */
  ghost function RawValue(l: Layout, m: Flat, a: nat): bv8
    requires Complete(l, m) && a < REGISTER_SPACE
  {
    if a in m.file then m.file[a] else m.cells[a]
  }

  ghost function ServeFlat(l: Layout, m: Flat, usable: bool, r: Request): (out: (Flat, Reply))
    requires Complete(l, m)
    ensures Complete(l, out.0)
  {
    match r
    case Write(t, v) =>
      if t < MIN_TOKEN_VALUE then
        var outcome := RawOutcome(l, usable, t, true);
        (if outcome == Success then m.(file := m.file[t := v]) else m, Reply(outcome, 0))
      else (m.(cells := CellsWritten(l, m.cells, t, v)), Reply(TokenOutcome(l, t, true, v), 0))
    case Read(t) =>
      if t < MIN_TOKEN_VALUE then
        var outcome := RawOutcome(l, usable, t, false);
        (m, Reply(outcome, if outcome == Success then RawValue(l, m, t) else 0))
      else if t in l.known then (m, Reply(Success, Decode(m.cells[Address(t)], t)))
      else (m, Reply(InvalidParameter, 0))
  }

  ghost function Run(s: State, rs: seq<Request>): (out: (State, seq<Reply>))
    requires s.Valid()
    ensures out.0.Valid() && out.0.cfg == s.cfg
    decreases |rs|
  {
    if rs == [] then (s, [])
    else
      var (s1, reply) := Serve(s, rs[0]);
      var (s2, replies) := Run(s1, rs[1..]);
      (s2, [reply] + replies)
  }

  ghost function RunFlat(l: Layout, m: Flat, usable: bool, rs: seq<Request>): (out: (Flat, seq<Reply>))
    requires Complete(l, m)
    ensures Complete(l, out.0)
    decreases |rs|
  {
    if rs == [] then (m, [])
    else
      var (m1, reply) := ServeFlat(l, m, usable, rs[0]);
      var (m2, replies) := RunFlat(l, m1, usable, rs[1..]);
      (m2, [reply] + replies)
  }

  // -------------------------------------------------------------------- refinement

  /** Requests may be served: checksum updates are on. The checksum itself may be wrong. */
  ghost predicate Ready(s: State)
  {
    s.Valid() && ForceNoChecksum !in s.status
  }

  /** Nothing beneath the view changed, and neither did the routing. */
  ghost predicate BeneathKept(s: State, r: State)
    requires s.Valid() && r.Valid()
  {
    SameRouting(s, r) && forall a: nat {:trigger r.phys[a]} :: a < REGISTER_SPACE && Beneath(s, a) ==> r.phys[a] == s.phys[a]
  }

  lemma SameFile(s: State, r: State)
    requires s.Valid() && r.Valid() && BeneathKept(s, r)
    ensures Image(r).file == Image(s).file
  {
    hide Layout.Valid;
  }

  lemma PutKeepsBeneath(s: State, a: nat, b: bv8)
    requires s.Valid() && s.cfg.InRegion(a)
    ensures BeneathKept(s, s.PutRouted(a, b))
  {
  }

  lemma BeneathKeptTransitive(s: State, r: State, q: State)
    requires s.Valid() && r.Valid() && q.Valid() && BeneathKept(s, r) && BeneathKept(r, q)
    ensures BeneathKept(s, q)
  {
    hide Layout.Valid;
  }

  lemma PutChecksumKeepsBeneath(s: State, sum: nat)
    requires s.Valid() && sum < WORD
    ensures BeneathKept(s, s.PutChecksum(sum))
  {
    hide Layout.Valid, Address, Low, High, State.Put, State.Route;
    ChecksumRegisters(s.cfg);
    var lo, hi := Address(s.cfg.checksumLow), Address(s.cfg.checksumHigh);
    var s1 := s.(hob := if s.hob.NoHob? then NoHob else s.hob.(checksum := sum));
    var s2 := s1.PutRouted(lo, Low(sum));
    SameBeneath(s, s1);
    PutKeepsBeneath(s1, lo, Low(sum));
    PutKeepsBeneath(s2, hi, High(sum));
    BeneathKeptTransitive(s, s1, s2);
    BeneathKeptTransitive(s, s2, s2.PutRouted(hi, High(sum)));
    SameBeneath(s2.PutRouted(hi, High(sum)), s.PutChecksum(sum));
    BeneathKeptTransitive(s, s2.PutRouted(hi, High(sum)), s.PutChecksum(sum));
  }

  lemma SameBeneath(s: State, r: State)
    requires s.Valid() && r.Valid() && SameRouting(s, r) && r.phys == s.phys
    ensures BeneathKept(s, r)
  {
  }

  lemma UpdateKeepsBeneath(s: State, a: nat, mask: bv8, v: bv8)
    requires s.Valid() && s.cfg.InRegion(a)
    ensures BeneathKept(s, s.Update(s.Route(a), a, mask, v))
  {
    hide State.PutChecksum, State.Put, State.Adjusted, Merge, State.View, Layout.Valid, BeneathKept;
    InSpace(s.cfg, a);
    var now := Merge(s.At(s.Route(a), a), mask, v);
    var n := s.NotedIfOn(a);
    NotingIsQuiet(s, a);
    SameBeneath(s, n);
    PutKeepsBeneath(n, a, now);
    var p := n.Put(s.Route(a), a, now);
    BeneathKeptTransitive(s, n, p);
    PutChecksumKeepsBeneath(p, s.Adjusted(s.At(s.Route(a), a), now));
    BeneathKeptTransitive(s, p, p.PutChecksum(s.Adjusted(s.At(s.Route(a), a), now)));
  }

  /** The view after a summed write is the array, written and summed. */
  lemma SummedCells(s: State, r: State, t: Token, v: bv8)
    requires s.Valid() && r.Valid() && r.cfg == s.cfg
    requires t in s.cfg.known && !Overflows(v, t) && s.cfg.Summed(Address(t))
    requires r.View(Address(t)) == Merge(s.View(Address(t)), ClobberBits(t), Encode(v, t))
    requires AgreeOff(s, r, {Address(t), Address(s.cfg.checksumHigh), Address(s.cfg.checksumLow)})
    requires r.View(Address(s.cfg.checksumLow)) == Low((r.FullSum() + s.Drift()) % WORD)
    requires r.View(Address(s.cfg.checksumHigh)) == High((r.FullSum() + s.Drift()) % WORD)
    ensures Shown(r) == CellsWritten(s.cfg, Shown(s), t, v)
  {
    hide State.FullSum, State.Drift, SumFrom, Low, High, Layout.Valid, Off, FreshSum, State.View;
    var c := Shown(s)[Address(t) := r.View(Address(t))];
    OffIsDrift(s);
    PatchedSum(s, r, Address(t));
    assert Shown(r) == WithSum(s.cfg, c, (FreshSum(s.cfg, c) + Off(s.cfg, Shown(s))) % WORD);
  }

  lemma PatchedSum(s: State, r: State, a: nat)
    requires s.Valid() && r.Valid() && r.cfg == s.cfg && s.cfg.Summed(a)
    requires AgreeOff(s, r, {a, Address(s.cfg.checksumHigh), Address(s.cfg.checksumLow)})
    ensures FreshSum(s.cfg, Shown(s)[a := r.View(a)]) == r.FullSum()
  {
    SumsAgree(r, Shown(s)[a := r.View(a)], s.cfg.first);
  }

  lemma QuietCells(s: State, r: State, t: Token, v: bv8)
    requires s.Valid() && r.Valid() && r.cfg == s.cfg
    requires t in s.cfg.known && !Overflows(v, t) && s.cfg.Excluded(Address(t))
    requires r.View(Address(t)) == Merge(s.View(Address(t)), ClobberBits(t), Encode(v, t))
    requires AgreeOff(s, r, {Address(t)})
    ensures Shown(r) == CellsWritten(s.cfg, Shown(s), t, v)
  {
  }

  /** A token write that succeeds is the flat write, be the checksum right or wrong. */
  lemma TokenWriteRefines(s: State, t: Token, v: bv8)
    requires Ready(s) && t in s.cfg.known && !Overflows(v, t)
    ensures Ready(Written(s, t, v)) && BeneathKept(s, Written(s, t, v))
    ensures Shown(Written(s, t, v)) == CellsWritten(s.cfg, Shown(s), t, v)
  {
    hide State.Update, Shown, CellsWritten, Merge, Encode, ClobberBits, Overflows, BeneathKept, State.View, State.Adjusted, State.FullSum, State.Drift;
    var a, mask, e := Address(t), ClobberBits(t), Encode(v, t);
    UpdateKeepsBeneath(s, a, mask, e);
    if s.cfg.Summed(a) {
      SummedUpdateOnView(s, a, mask, e);
      AdjustedKeepsDrift(s, Written(s, t, v), a);
      SummedCells(s, Written(s, t, v), t, v);
    } else {
      QuietUpdateOnView(s, a, mask, e);
      QuietCells(s, Written(s, t, v), t, v);
    }
  }

  /** Writes by register number reach only registers outside the managed region. */
  lemma RawWriteUnseen(s: State, t: Token, v: bv8)
    requires s.Valid() && t < MIN_TOKEN_VALUE
    ensures SameRouting(s, Written(s, t, v)) && Written(s, t, v).status == s.status
    ensures Shown(Written(s, t, v)) == Shown(s) && Written(s, t, v).Drift() == s.Drift()
    ensures WriteOutcome(s, t, v) == Success ==>
              !s.cfg.InRegion(t) && t < REGISTER_SPACE && Written(s, t, v).phys == s.phys[t := v]
  {
    var r := Written(s, t, v);
    if WriteOutcome(s, t, v) == Success {
      PutAgrees(s, Hardware, t, v);
      assert AgreeOff(s, r, {});
      CoherentFollowsViews(s, r);
    }
  }

  lemma RawWriteRefines(s: State, t: Token, v: bv8)
    requires Ready(s) && t < MIN_TOKEN_VALUE && WriteOutcome(s, t, v) == Success
    ensures Ready(Written(s, t, v)) && SameRouting(s, Written(s, t, v))
    ensures Image(Written(s, t, v)) == Image(s).(file := Image(s).file[t := v])
  {
    hide Layout.Valid, Shown, RawOutcome, Written;
    RawWriteUnseen(s, t, v);
  }

  /** What a register number reads: the hardware, which is the view unless the buffer hides it. */
  lemma RawReadRefines(s: State, t: Token)
    requires s.Valid() && t < MIN_TOKEN_VALUE && ReadOutcome(s, t) == Success
    ensures t < REGISTER_SPACE && ReadValue(s, t) == RawValue(s.cfg, Image(s), t)
  {
  }

  lemma ServeRefines(s: State, r: Request)
    requires Ready(s)
    ensures var (s', reply) := Serve(s, r);
      && Ready(s') && SameRouting(s, s')
      && (Image(s'), reply) == ServeFlat(s.cfg, Image(s), IsUsable in s.status, r)
  {
    hide Written, Layout.Valid, RawOutcome, RawValue, Shown, CellsWritten;
    match r
    case Read(t) =>
      if t < MIN_TOKEN_VALUE {
        if ReadOutcome(s, t) == Success {
          RawReadRefines(s, t);
        }
      } else if t in s.cfg.known {
        ShownAt(s, t);
      }
    case Write(t, v) =>
      if WriteOutcome(s, t, v) != Success {
        NothingWritten(s, t, v);
      } else if t < MIN_TOKEN_VALUE {
        RawWriteRefines(s, t, v);
      } else {
        TokenWriteRefines(s, t, v);
        SameFile(s, Written(s, t, v));
      }
  }

  lemma ShownAt(s: State, t: Token)
    requires s.Valid() && t in s.cfg.known
    ensures s.cfg.InRegion(Address(t)) && Shown(s)[Address(t)] == s.View(Address(t))
  {
  }

  lemma NothingWritten(s: State, t: Token, v: bv8)
    requires s.Valid() && WriteOutcome(s, t, v) != Success
    ensures Written(s, t, v) == s
    ensures t >= MIN_TOKEN_VALUE ==> CellsWritten(s.cfg, Shown(s), t, v) == Shown(s)
  {
  }

  /**
   Any run of reads and writes, by token or by register number, with the registers
   served by hardware, by the buffer or by both, and with the checksum right or
   wrong, replies and ends like the flat array.
   */
  lemma {:induction false} RunRefines(s: State, rs: seq<Request>)
    requires Ready(s)
    ensures var (s', replies) := Run(s, rs);
      && Ready(s') && SameRouting(s, s')
      && (Image(s'), replies) == RunFlat(s.cfg, Image(s), IsUsable in s.status, rs)
    decreases |rs|
  {
    hide Serve, ServeFlat, Image;
    if rs != [] {
      ServeRefines(s, rs[0]);
      RunRefines(Serve(s, rs[0]).0, rs[1..]);
    }
  }

  /** The request is not an accepted write on a checksum register. */
  ghost predicate OffChecksumRegisters(l: Layout, r: Request)
  {
    r.Write? && r.token in l.known ==> !l.IsChecksumRegister(Address(r.token))
  }

  lemma {:induction false} FlatRunKeepsOff(l: Layout, m: Flat, usable: bool, rs: seq<Request>)
    requires Complete(l, m) && forall r :: r in rs ==> OffChecksumRegisters(l, r)
    ensures Off(l, RunFlat(l, m, usable, rs).0.cells) == Off(l, m.cells)
    decreases |rs|
  {
    hide Off, CellsWritten, RawOutcome;
    if rs != [] {
      assert OffChecksumRegisters(l, rs[0]);
      if rs[0].Write? && rs[0].token >= MIN_TOKEN_VALUE {
        FlatWriteKeepsOff(l, m.cells, rs[0].token, rs[0].value);
      }
      FlatRunKeepsOff(l, ServeFlat(l, m, usable, rs[0]).0, usable, rs[1..]);
    }
  }

  /**
   No run of requests off the checksum registers repairs a wrong checksum or
   spoils a right one: the stored sum stays exactly as far off as it was.
   */
  lemma RunKeepsDrift(s: State, rs: seq<Request>)
    requires Ready(s) && forall r :: r in rs ==> OffChecksumRegisters(s.cfg, r)
    ensures Run(s, rs).0.Drift() == s.Drift()
    ensures Run(s, rs).0.Coherent() <==> s.Coherent()
  {
    hide Run, RunFlat, Off, Shown, State.Drift, State.Coherent, OffChecksumRegisters;
    var r := Run(s, rs).0;
    RunRefines(s, rs);
    FlatRunKeepsOff(s.cfg, Image(s), IsUsable in s.status, rs);
    OffIsDrift(s);
    OffIsDrift(r);
    DriftTellsCoherence(s);
    DriftTellsCoherence(r);
  }
}
