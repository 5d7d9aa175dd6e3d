/** The 32-bit pointer to the access interface, kept in four CMOS registers. */
module ApiPointer {
  import opened Bytes
  import opened TokenCodec
  import opened CmosStore
  import opened StoreLaws

  const POINTER_SPACE: nat := 0x1_0000_0000

  /** The byte written at this offset: the highest first. */
  function PointerByte(p: nat, offset: nat): (b: bv8)
    requires offset < 4
  {
    Low(if offset == 0 then p / 0x100_0000 else if offset == 1 then p / 0x1_0000 else if offset == 2 then p / 0x100 else p)
  }

  /** One more byte shifted into a 32-bit word. */
  function ShiftedIn(p: nat, b: bv8): (q: nat)
    ensures q < POINTER_SPACE
  {
    (p * 256 + b as nat) % POINTER_SPACE
  }

  /** The pointer's bytes below this offset written to the hardware, in order. */
  ghost function Saved(s: State, p: nat, n: nat): (r: State)
    requires s.Valid() && s.cfg.ApiValid() && n <= 4
    ensures r.Valid() && r.cfg == s.cfg && r.dxe == s.dxe
    decreases n
  {
    if n == 0 then s
    else
      assert s.cfg.apiByte3 + n - 1 in s.cfg.reachable;
      Saved(s, p, n - 1).Update(Hardware, s.cfg.apiByte3 + n - 1, ALL_BITS, PointerByte(p, n - 1))
  }

  /** The word made of the pointer's bytes below this offset. */
  ghost function Assembled(s: State, n: nat): (p: nat)
    requires s.Valid() && s.cfg.ApiValid() && n <= 4
    ensures p < POINTER_SPACE
  {
    if n == 0 then 0
    else
      assert s.cfg.apiByte3 + n - 1 in s.cfg.reachable;
      ShiftedIn(Assembled(s, n - 1), s.phys[s.cfg.apiByte3 + n - 1])
  }

  ghost predicate IsApiRegister(l: Layout, a: nat)
  {
    l.apiByte3 <= a < l.apiByte3 + 4
  }

  /** A full write to an excluded hardware register. */
  lemma ExcludedStore(s: State, a: nat, b: bv8)
    requires s.Valid() && s.cfg.Excluded(a) && a < REGISTER_SPACE
    ensures var r := s.Update(Hardware, a, ALL_BITS, b);
      && r.phys == s.phys[a := b] && r.buf == s.buf && SameRouting(s, r) && r.dxe == s.dxe
      && r.status - {AddressIsChecksummed} == s.status - {AddressIsChecksummed}
  {
    assert Merge(s.phys[a], ALL_BITS, b) == b;
  }

  lemma ApiRegisterFacts(l: Layout, k: nat)
    requires l.Valid() && l.ApiValid() && k < 4
    ensures l.Excluded(l.apiByte3 + k) && l.apiByte3 + k < REGISTER_SPACE
  {
    assert l.apiByte3 + k in l.reachable;
  }

  /** The registers hold the pointer's bytes below this offset, and the rest is as it was. */
  ghost predicate HoldsBytes(s: State, r: State, p: nat, n: nat)
    requires s.Valid() && r.Valid() && n <= 4
  {
    && r.cfg == s.cfg && s.cfg.apiByte3 + 4 <= REGISTER_SPACE
    && (forall k: nat :: k < n ==> r.phys[s.cfg.apiByte3 + k] == PointerByte(p, k))
    && (forall a: nat {:trigger r.phys[a]} :: a < REGISTER_SPACE && !IsApiRegister(s.cfg, a) ==> r.phys[a] == s.phys[a])
    && r.buf == s.buf && SameRouting(s, r) && r.dxe == s.dxe
    && r.status - {AddressIsChecksummed} == s.status - {AddressIsChecksummed}
  }

  lemma OneMoreByte(s: State, q: State, r: State, p: nat, n: nat)
    requires s.Valid() && q.Valid() && r.Valid() && n < 4 && HoldsBytes(s, q, p, n) && r.cfg == s.cfg
    requires r.phys == q.phys[s.cfg.apiByte3 + n := PointerByte(p, n)] && r.buf == q.buf
    requires SameRouting(q, r) && r.dxe == q.dxe
    requires r.status - {AddressIsChecksummed} == q.status - {AddressIsChecksummed}
    ensures HoldsBytes(s, r, p, n + 1)
  {
    hide PointerByte, Layout.Valid;
  }

  /** Saving changes the four registers and leaves everything else of note alone. */
  lemma {:induction false} SavedFacts(s: State, p: nat, n: nat)
    requires s.Valid() && s.cfg.ApiValid() && n <= 4
    ensures HoldsBytes(s, Saved(s, p, n), p, n)
  {
    hide HoldsBytes, PointerByte, Layout.Valid;
    if n == 0 {
      NothingSaved(s, p);
    } else {
      SavedFacts(s, p, n - 1);
      AppendByte(s, Saved(s, p, n - 1), p, n - 1);
    }
  }

  lemma NothingSaved(s: State, p: nat)
    requires s.Valid() && s.cfg.ApiValid()
    ensures HoldsBytes(s, s, p, 0)
  {
    ApiRegisterFacts(s.cfg, 3);
  }

  lemma AppendByte(s: State, q: State, p: nat, n: nat)
    requires s.Valid() && s.cfg.ApiValid() && q.Valid() && n < 4 && HoldsBytes(s, q, p, n)
    ensures HoldsBytes(s, q.Update(Hardware, s.cfg.apiByte3 + n, ALL_BITS, PointerByte(p, n)), p, n + 1)
  {
    hide State.Update, PointerByte;
    ApiRegisterFacts(s.cfg, n);
    ExcludedStore(q, s.cfg.apiByte3 + n, PointerByte(p, n));
    OneMoreByte(s, q, q.Update(Hardware, s.cfg.apiByte3 + n, ALL_BITS, PointerByte(p, n)), p, n);
  }

  lemma SavedKeepsCoherence(s: State, p: nat)
    requires s.Valid() && s.cfg.ApiValid()
    ensures Saved(s, p, 4).Coherent() <==> s.Coherent()
    ensures AgreeOnSummed(s, Saved(s, p, 4))
  {
    hide Saved, PointerByte, Address, State.Coherent;
    SavedFacts(s, p, 4);
    CoherentFollowsViews(s, Saved(s, p, 4));
  }

  function Shifted(p: nat, b: nat): nat
  {
    (p * 256 + b) % POINTER_SPACE
  }

  /** A word is its high part with the low byte shifted in. */
  lemma ShiftedBack(w: nat)
    requires w < POINTER_SPACE
    ensures Shifted(w / 256, w % 256) == w
  {
  }

  lemma Quotients(p: nat)
    ensures p / 0x1_0000 == p / 0x100 / 256 && p / 0x100_0000 == p / 0x1_0000 / 256
  {
  }

  lemma Base256(p: nat)
    requires p < POINTER_SPACE
    ensures p / 0x100_0000 < 256 && Shifted(0, p / 0x100_0000) == p / 0x100_0000
    ensures Shifted(p / 0x100_0000, p / 0x1_0000 % 256) == p / 0x1_0000
    ensures Shifted(p / 0x1_0000, p / 0x100 % 256) == p / 0x100
    ensures Shifted(p / 0x100, p % 256) == p
  {
    Quotients(p);
    ShiftedBack(p / 0x1_0000);
    ShiftedBack(p / 0x100);
    ShiftedBack(p);
  }

  lemma PointerFromBytes(p: nat)
    requires p < POINTER_SPACE
    ensures ShiftedIn(ShiftedIn(ShiftedIn(ShiftedIn(0,
              PointerByte(p, 0)), PointerByte(p, 1)), PointerByte(p, 2)), PointerByte(p, 3)) == p
  {
    hide Shifted, ShiftedIn, PointerByte, Low;
    Base256(p);
    TopByte(p);
    BytesOfPointer(p);
    ShiftInNumber(0, p / 0x100_0000);
    ShiftInNumber(p / 0x100_0000, p / 0x1_0000);
    ShiftInNumber(p / 0x1_0000, p / 0x100);
    ShiftInNumber(p / 0x100, p);
  }

  lemma TopByte(p: nat)
    requires p < POINTER_SPACE
    ensures (p / 0x100_0000) % 256 == p / 0x100_0000
  {
  }

  lemma BytesOfPointer(p: nat)
    ensures PointerByte(p, 0) == Low(p / 0x100_0000) && PointerByte(p, 1) == Low(p / 0x1_0000)
    ensures PointerByte(p, 2) == Low(p / 0x100) && PointerByte(p, 3) == Low(p)
  {
    hide Low;
  }

  lemma ShiftInNumber(p: nat, w: nat)
    ensures ShiftedIn(p, Low(w)) == Shifted(p, w % 256)
  {
    ByteRoundTrip(w % 256);
  }

  lemma AssembledUnfolds(s: State)
    requires s.Valid() && s.cfg.ApiValid()
    ensures s.cfg.apiByte3 + 4 <= REGISTER_SPACE
    ensures Assembled(s, 4) == ShiftedIn(ShiftedIn(ShiftedIn(ShiftedIn(0, s.phys[s.cfg.apiByte3]),
              s.phys[s.cfg.apiByte3 + 1]), s.phys[s.cfg.apiByte3 + 2]), s.phys[s.cfg.apiByte3 + 3])
  {
    hide ShiftedIn, Layout.Valid;
    ApiRegisterFacts(s.cfg, 3);
    var a := s.cfg.apiByte3;
    assert Assembled(s, 1) == ShiftedIn(0, s.phys[a]);
    assert Assembled(s, 2) == ShiftedIn(Assembled(s, 1), s.phys[a + 1]);
    assert Assembled(s, 3) == ShiftedIn(Assembled(s, 2), s.phys[a + 2]);
  }

  /** Any 32-bit pointer is read back as it was saved. */
  lemma SavedPointerIsRead(s: State, p: nat)
    requires s.Valid() && s.cfg.ApiValid() && p < POINTER_SPACE
    ensures Assembled(Saved(s, p, 4), 4) == p
  {
    hide Saved, Assembled, PointerByte, ShiftedIn;
    SavedFacts(s, p, 4);
    PointerFromBytes(p);
    var r, a := Saved(s, p, 4), s.cfg.apiByte3;
    AssembledUnfolds(r);
    assert r.phys[a + 0] == PointerByte(p, 0);
  }

  /** The pointer's bytes as numbers: its base-256 digits, the highest first. */
  lemma PointerByteIsDigit(p: nat, k: nat)
    requires p < POINTER_SPACE && k < 4
    ensures PointerByte(p, k) as nat ==
            if k == 0 then p / 0x100_0000 else if k == 1 then p / 0x1_0000 % 256 else if k == 2 then p / 0x100 % 256
            else p % 256
  {
    hide PointerByte;
    BytesOfPointer(p);
    TopByte(p);
    ByteRoundTrip(p / 0x100_0000);
    ByteRoundTrip(p / 0x1_0000 % 256);
    ByteRoundTrip(p / 0x100 % 256);
    ByteRoundTrip(p % 256);
  }

  lemma ShiftsInto(b0: bv8, b1: bv8, b2: bv8, b3: bv8)
    ensures ShiftedIn(ShiftedIn(ShiftedIn(ShiftedIn(0, b0), b1), b2), b3) ==
            FromDigits(b0 as nat, b1 as nat, b2 as nat, b3 as nat)
  {
    hide ShiftedIn, FromDigits;
    var n0, n1, n2, n3: nat := b0 as nat, b1 as nat, b2 as nat, b3 as nat;
    SmallDigits(n0, n1, n2, n3);
    NoOverflow(0, b0);
    NoOverflow(n0, b1);
    NoOverflow(n0 * 256 + n1, b2);
    NoOverflow((n0 * 256 + n1) * 256 + n2, b3);
  }

  lemma SmallDigits(b0: nat, b1: nat, b2: nat, b3: nat)
    requires b0 < 256 && b1 < 256 && b2 < 256
    ensures (b0 * 256 + b1) * 256 + b2 < 0x100_0000
    ensures ((b0 * 256 + b1) * 256 + b2) * 256 + b3 == FromDigits(b0, b1, b2, b3)
  {
  }

  lemma NoOverflow(p: nat, b: bv8)
    requires p < 0x100_0000
    ensures ShiftedIn(p, b) == p * 256 + b as nat
  {
    BelowSpace(p * 256 + b as nat);
  }

  lemma BelowSpace(w: nat)
    requires w < POINTER_SPACE
    ensures w % POINTER_SPACE == w
  {
  }

  /** The word read is the number with the registers as its digits. */
  lemma AssembledIsNumber(s: State)
    requires s.Valid() && s.cfg.ApiValid()
    ensures s.cfg.apiByte3 + 4 <= REGISTER_SPACE
    ensures Assembled(s, 4) == FromDigits(s.phys[s.cfg.apiByte3] as nat, s.phys[s.cfg.apiByte3 + 1] as nat,
                                          s.phys[s.cfg.apiByte3 + 2] as nat, s.phys[s.cfg.apiByte3 + 3] as nat)
  {
    hide ShiftedIn, Assembled, FromDigits;
    AssembledUnfolds(s);
    var a := s.cfg.apiByte3;
    ShiftsInto(s.phys[a], s.phys[a + 1], s.phys[a + 2], s.phys[a + 3]);
  }

  function FromDigits(b0: nat, b1: nat, b2: nat, b3: nat): nat
  {
    b0 * 0x100_0000 + b1 * 0x1_0000 + b2 * 0x100 + b3
  }

  lemma DigitsOf(b0: nat, b1: nat, b2: nat, b3: nat)
    requires b0 < 256 && b1 < 256 && b2 < 256 && b3 < 256
    ensures var w := FromDigits(b0, b1, b2, b3);
      w / 0x100_0000 == b0 && w / 0x1_0000 % 256 == b1 && w / 0x100 % 256 == b2 && w % 256 == b3
  {
    var w := FromDigits(b0, b1, b2, b3);
    assert w / 0x100 == b0 * 0x1_0000 + b1 * 0x100 + b2;
    assert w / 0x1_0000 == b0 * 0x100 + b1;
  }

  lemma DigitsDecide(b0: nat, b1: nat, b2: nat, b3: nat, p: nat)
    requires b0 < 256 && b1 < 256 && b2 < 256 && b3 < 256 && p < POINTER_SPACE
    ensures FromDigits(b0, b1, b2, b3) == p <==>
            b0 == p / 0x100_0000 && b1 == p / 0x1_0000 % 256 && b2 == p / 0x100 % 256 && b3 == p % 256
  {
    DigitsOf(b0, b1, b2, b3);
    Recomposed(p);
  }

  lemma SameByte(b: bv8, c: bv8)
    ensures b == c <==> b as nat == c as nat
  {
    if b as nat == c as nat {
      ByteIsInjective(b, c);
    }
  }

  lemma Recomposed(p: nat)
    requires p < POINTER_SPACE
    ensures FromDigits(p / 0x100_0000, p / 0x1_0000 % 256, p / 0x100 % 256, p % 256) == p
  {
    Quotients(p);
  }

  /** The register holds the pointer's byte. */
  ghost predicate HoldsByte(s: State, p: nat, k: nat)
    requires s.Valid() && s.cfg.ApiValid()
  {
    k < 4 && s.cfg.apiByte3 + k < REGISTER_SPACE && s.phys[s.cfg.apiByte3 + k] == PointerByte(p, k)
  }

  /** The word read is a given pointer exactly when each register holds that pointer's byte. */
  lemma AssembledExactly(s: State, p: nat)
    requires s.Valid() && s.cfg.ApiValid() && p < POINTER_SPACE
    ensures Assembled(s, 4) == p <==> HoldsByte(s, p, 0) && HoldsByte(s, p, 1) && HoldsByte(s, p, 2) && HoldsByte(s, p, 3)
  {
    hide PointerByte, FromDigits, Assembled, Layout.Valid, Layout.ApiValid;
    AssembledIsNumber(s);
    var a := s.cfg.apiByte3;
    DigitsDecide(s.phys[a] as nat, s.phys[a + 1] as nat, s.phys[a + 2] as nat, s.phys[a + 3] as nat, p);
    ByteDecides(s, p, 0);
    ByteDecides(s, p, 1);
    ByteDecides(s, p, 2);
    ByteDecides(s, p, 3);
  }

  lemma ByteDecides(s: State, p: nat, k: nat)
    requires s.Valid() && s.cfg.ApiValid() && p < POINTER_SPACE && k < 4
    requires s.cfg.apiByte3 + 4 <= REGISTER_SPACE
    ensures HoldsByte(s, p, k) <==>
            s.phys[s.cfg.apiByte3 + k] as nat ==
            if k == 0 then p / 0x100_0000 else if k == 1 then p / 0x1_0000 % 256 else if k == 2 then p / 0x100 % 256
            else p % 256
  {
    hide PointerByte, Layout.Valid, Layout.ApiValid;
    PointerByteIsDigit(p, k);
    SameByte(s.phys[s.cfg.apiByte3 + k], PointerByte(p, k));
  }
}
