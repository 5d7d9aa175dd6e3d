/** What the move to permanent memory does to the view and the checksum. */
module MigrationLaws {
  import opened Bytes
  import opened TokenCodec
  import opened CmosStore
  import opened StoreLaws
  import opened Requests
  import opened ApiPointer
  import opened Boot
  import opened HandOverLaws
  import opened CopyBounds

  /** The register is shown from the hardware, or its cell is among those copied. */
  ghost predicate Carried(p: State, count: nat, a: nat)
    requires p.Valid()
  {
    p.Route(a) == Hardware || InsideCopy(p.cfg, count, a)
  }

  /** The registers that the checksum and its check go by. */
  ghost predicate Counts(l: Layout, a: nat)
  {
    l.Summed(a) || l.IsChecksumRegister(a)
  }

  /** All of them are carried over. */
  ghost predicate Covered(p: State, count: nat)
    requires p.Valid()
  {
    forall a: nat :: Counts(p.cfg, a) ==> Carried(p, count, a)
  }

  /** What a register shows after the move: from the block, its copied cell or what the block's room held. */
  lemma ShownAfterMigration(p: State, count: nat, checksum: nat, address: nat, room: nat -> bv8, a: nat)
    requires p.Valid() && p.cfg.ApiValid() && count <= |p.buf|
    requires p.cfg.InRegion(a) && !IsApiRegister(p.cfg, a)
    ensures HandedOff(p, count, checksum, address, room).View(a) ==
            var i := a - p.cfg.first + 1;
            if p.Route(a) == Buffer && i >= count then room(i - count) else p.View(a)
  {
    hide HandedOff, Layout.Valid;
    InSpace(p.cfg, a);
    HandedOffFacts(p, count, checksum, address, room);
  }

  /** A register keeps what it shows, whatever the block's room held, if and only if it is carried over. */
  lemma ViewKeptExactly(p: State, count: nat, checksum: nat, address: nat, a: nat)
    requires p.Valid() && p.cfg.ApiValid() && count <= |p.buf|
    requires p.cfg.InRegion(a) && !IsApiRegister(p.cfg, a)
    ensures (forall room: nat -> bv8 :: HandedOff(p, count, checksum, address, room).View(a) == p.View(a))
            <==> Carried(p, count, a)
  {
    hide HandedOff, State.View, Layout.Valid;
    forall room: nat -> bv8
      ensures HandedOff(p, count, checksum, address, room).View(a) ==
              if Carried(p, count, a) then p.View(a) else room(a - p.cfg.first + 1 - count)
    {
      ShownAfterMigration(p, count, checksum, address, room, a);
    }
    if !Carried(p, count, a) {
      var other := !p.View(a);
      var foreign: nat -> bv8 := i => other;
      ComplementDiffers(p.View(a));
      ShownAfterMigration(p, count, checksum, address, foreign, a);
      assert HandedOff(p, count, checksum, address, foreign).View(a) == other;
    }
  }

  lemma CountingIsAside(l: Layout, a: nat)
    requires l.Valid() && l.ApiValid() && Counts(l, a)
    ensures l.InRegion(a) && !IsApiRegister(l, a)
  {
    ChecksumRegisters(l);
  }

  /** With every register that counts carried over, the checksum stays as far off as it was. */
  lemma CoveredKeepsDrift(p: State, count: nat, checksum: nat, address: nat, room: nat -> bv8)
    requires p.Valid() && p.cfg.ApiValid() && count <= |p.buf| && Covered(p, count)
    ensures var q := HandedOff(p, count, checksum, address, room);
      && q.Drift() == p.Drift() && (q.Coherent() <==> p.Coherent()) && AgreeOnSummed(p, q)
  {
    hide HandedOff, State.View, Layout.Valid, Layout.ApiValid, Carried;
    var q := HandedOff(p, count, checksum, address, room);
    forall a: nat | Counts(p.cfg, a)
      ensures p.cfg.InRegion(a) && q.View(a) == p.View(a)
    {
      CountingIsAside(p.cfg, a);
      assert Carried(p, count, a);
      CarriedIsShown(p, count, checksum, address, room, a);
    }
    ChecksumCounts(p.cfg);
    CoherentFollowsViews(p, q);
  }

  lemma ChecksumCounts(l: Layout)
    requires l.Valid()
    ensures Counts(l, Address(l.checksumHigh)) && Counts(l, Address(l.checksumLow))
    ensures l.InRegion(Address(l.checksumHigh)) && l.InRegion(Address(l.checksumLow))
  {
    ChecksumRegisters(l);
  }

  lemma CarriedIsShown(p: State, count: nat, checksum: nat, address: nat, room: nat -> bv8, a: nat)
    requires p.Valid() && p.cfg.ApiValid() && count <= |p.buf| && Carried(p, count, a)
    requires p.cfg.InRegion(a) && !IsApiRegister(p.cfg, a)
    ensures HandedOff(p, count, checksum, address, room).View(a) == p.View(a)
  {
    hide HandedOff, State.View, Layout.Valid;
    ShownAfterMigration(p, count, checksum, address, room, a);
  }

  /** The buffer's own bytes, with one changed: a room that shows one register's complement and all else as before. */
  function OneChanged(buf: seq<bv8>, count: nat, i: nat): (room: nat -> bv8)
    requires count <= i < |buf|
    ensures forall k: nat :: k + count < |buf| ==> room(k) == if k + count == i then !buf[i] else buf[k + count]
  {
    (k: nat) => if k + count == i then !buf[i] else if k + count < |buf| then buf[k + count] else 0
  }

  /** A byte that counts and is not carried over can move the checksum off. */
  lemma UncarriedMovesDrift(p: State, count: nat, checksum: nat, address: nat, a: nat) returns (room: nat -> bv8)
    requires p.Valid() && p.cfg.ApiValid() && count <= |p.buf|
    requires Counts(p.cfg, a) && !Carried(p, count, a)
    ensures HandedOff(p, count, checksum, address, room).Drift() != p.Drift()
  {
    hide HandedOff, State.View, State.Drift, Layout.Valid, Layout.ApiValid, Layout.Summed, Layout.IsChecksumRegister;
    CountingIsAside(p.cfg, a);
    UncarriedCell(p, count, a);
    room := OneChanged(p.buf, count, a - p.cfg.first + 1);
    var q := HandedOff(p, count, checksum, address, room);
    forall c: nat | Counts(p.cfg, c) && p.cfg.InRegion(c)
      ensures q.View(c) == if c == a then !p.View(c) else p.View(c)
    {
      CountingIsAside(p.cfg, c);
      CellFromRoom(p, count, checksum, address, a, c);
    }
    OneByteMovesDrift(p, q, a);
  }

  lemma UncarriedCell(p: State, count: nat, a: nat)
    requires p.Valid() && p.cfg.InRegion(a) && !Carried(p, count, a)
    ensures p.Route(a) == Buffer && count <= a - p.cfg.first + 1 < |p.buf|
    ensures p.View(a) == p.buf[a - p.cfg.first + 1]
  {
  }

  lemma CellFromRoom(p: State, count: nat, checksum: nat, address: nat, a: nat, c: nat)
    requires p.Valid() && p.cfg.ApiValid() && count <= |p.buf|
    requires p.cfg.InRegion(a) && count <= a - p.cfg.first + 1 < |p.buf| && p.Route(a) == Buffer
    requires p.cfg.InRegion(c) && !IsApiRegister(p.cfg, c)
    ensures var room := OneChanged(p.buf, count, a - p.cfg.first + 1);
      HandedOff(p, count, checksum, address, room).View(c) == if c == a then !p.View(c) else p.View(c)
  {
    hide HandedOff, Layout.Valid, Layout.ApiValid, OneChanged;
    var room := OneChanged(p.buf, count, a - p.cfg.first + 1);
    ShownAfterMigration(p, count, checksum, address, room, c);
    assert p.Route(c) == Buffer ==> p.View(c) == p.buf[c - p.cfg.first + 1];
  }

  /** Of the registers that count, one shows the complement and the others what they did. */
  ghost predicate ByteOff(p: State, q: State, a: nat)
    requires p.Valid() && q.Valid() && q.cfg == p.cfg
  {
    forall c: nat :: Counts(p.cfg, c) && p.cfg.InRegion(c) ==> q.View(c) == if c == a then !p.View(c) else p.View(c)
  }

  /** One byte that counts, replaced by its complement, moves the drift. */
  lemma OneByteMovesDrift(p: State, q: State, a: nat)
    requires p.Valid() && q.Valid() && q.cfg == p.cfg && Counts(p.cfg, a) && ByteOff(p, q, a)
    ensures q.Drift() != p.Drift()
  {
    hide State.View, State.FullSum, Layout.Valid, Word;
    ChecksumCounts(p.cfg);
    ComplementDiffers(p.View(a));
    var hi, lo := Address(p.cfg.checksumHigh), Address(p.cfg.checksumLow);
    if p.cfg.Summed(a) {
      SummedIsNotChecksum(p.cfg, a);
      SummedByteMovesDrift(p, q, a);
    } else {
      SameSums(p, q, a);
      ChecksumRegisters(p.cfg);
      if q.Stored() == p.Stored() {
        WordIsInjective(p.View(hi), p.View(lo), q.View(hi), q.View(lo));
      }
      SameDistance(p.Stored(), q.Stored(), p.FullSum());
    }
  }

  lemma SummedIsNotChecksum(l: Layout, a: nat)
    requires l.Valid() && l.Summed(a)
    ensures a != Address(l.checksumHigh) && a != Address(l.checksumLow)
  {
  }

  lemma SameSums(p: State, q: State, a: nat)
    requires p.Valid() && q.Valid() && q.cfg == p.cfg && !p.cfg.Summed(a) && ByteOff(p, q, a)
    ensures q.FullSum() == p.FullSum()
  {
    hide State.View;
    forall c: nat | p.cfg.Summed(c)
      ensures q.View(c) == p.View(c)
    {
      assert Counts(p.cfg, c);
    }
    SumDependsOnSummed(p, q, p.cfg.last + 1);
  }

  lemma SummedByteMovesDrift(p: State, q: State, a: nat)
    requires p.Valid() && q.Valid() && q.cfg == p.cfg && p.cfg.Summed(a) && q.View(a) != p.View(a)
    requires q.Stored() == p.Stored() && ByteOff(p, q, a)
    ensures q.Drift() != p.Drift()
  {
    hide State.View, State.Stored, Layout.Valid;
    forall c | p.cfg.Summed(c) && c != a
      ensures q.View(c) == p.View(c)
    {
      assert Counts(p.cfg, c);
    }
    SumMovesByChange(p, q, a, p.cfg.last + 1);
    DifferentBytes(q.View(a), p.View(a));
    SmallChangeShows(p.SumBelow(p.cfg.last + 1), q.SumBelow(p.cfg.last + 1), p.Stored());
  }

  lemma DifferentBytes(b: bv8, c: bv8)
    requires b != c
    ensures b as int != c as int
  {
    if b as nat == c as nat {
      ByteIsInjective(b, c);
    }
  }

  lemma SmallChangeShows(before: nat, now: nat, w: nat)
    requires before != now && -256 < now - before < 256 && w < WORD
    ensures (w as int - now % WORD) % WORD != (w as int - before % WORD) % WORD
  {
    assert now - before == (now / WORD - before / WORD) * WORD + (now % WORD - before % WORD);
    SameRemainders(w, now % WORD, before % WORD);
  }

  lemma SameRemainders(w: nat, x: nat, y: nat)
    requires w < WORD && x < WORD && y < WORD
    ensures (w as int - x) % WORD == (w as int - y) % WORD <==> x == y
  {
  }

  /**
   The move leaves the checksum as far off as it was, whatever the block's room
   held, if and only if every register that counts is shown from the hardware or
   has its cell among those copied.
   */
  lemma DriftKeptExactly(p: State, count: nat, checksum: nat, address: nat)
    requires p.Valid() && p.cfg.ApiValid() && count <= |p.buf|
    ensures (forall room: nat -> bv8 :: HandedOff(p, count, checksum, address, room).Drift() == p.Drift())
            <==> Covered(p, count)
  {
    hide HandedOff, State.Drift, Carried, Counts, Layout.Valid, Layout.ApiValid;
    if Covered(p, count) {
      forall room: nat -> bv8
        ensures HandedOff(p, count, checksum, address, room).Drift() == p.Drift()
      {
        CoveredKeepsDrift(p, count, checksum, address, room);
      }
    } else {
      var a: nat :| Counts(p.cfg, a) && !Carried(p, count, a);
      var room := UncarriedMovesDrift(p, count, checksum, address, a);
    }
  }

  /** In particular a right checksum stays right, whatever the room held, under the same condition. */
  lemma CoherenceKeptExactly(p: State, count: nat, checksum: nat, address: nat)
    requires p.Valid() && p.cfg.ApiValid() && count <= |p.buf| && p.Coherent()
    ensures (forall room: nat -> bv8 :: HandedOff(p, count, checksum, address, room).Coherent())
            <==> Covered(p, count)
  {
    hide HandedOff, State.Drift, State.Coherent, Covered, Layout.Valid, Layout.ApiValid;
    DriftTellsCoherence(p);
    DriftKeptExactly(p, count, checksum, address);
    forall room: nat -> bv8
      ensures var q := HandedOff(p, count, checksum, address, room); q.Coherent() <==> q.Drift() == p.Drift()
    {
      DriftTellsCoherence(HandedOff(p, count, checksum, address, room));
    }
  }
}
