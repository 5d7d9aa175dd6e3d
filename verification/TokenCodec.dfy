/**
 CMOS tokens: a 16-bit code naming a bit field of one register, and the
 encoding of a value into, and out of, that field.
 */
module TokenCodec {

  /** The smallest code that denotes a token; smaller ones are raw registers. */
  const MIN_TOKEN_VALUE: nat := 4096

  /** A token code: bits 2..0 the offset, 11..3 the register, 15..12 the size. */
  type Token = t: nat | t < 0x1_0000 witness 0

  function BitOffset(t: Token): (r: nat)
    ensures r < 8
  {
    t % 8
  }

  function Address(t: Token): (r: nat)
    ensures r < 512
  {
    (t / 8) % 512
  }

  function Size(t: Token): (r: nat)
    ensures r < 16
  {
    t / 4096
  }

  function Pack(offset: nat, address: nat, size: nat): (t: Token)
    requires offset < 8 && address < 512 && size < 16
    ensures BitOffset(t) == offset && Address(t) == address && Size(t) == size
  {
    offset + 8 * address + 4096 * size
  }

  /** The ones a field of this size can hold, at bit position zero. */
  function SizeMask(size: nat): (m: bv8)
    requires size <= 8
  {
    (0xff as bv8) >> (8 - size)
  }

  function Encode(v: bv8, t: Token): bv8
  {
    v << BitOffset(t)
  }

  function Decode(r: bv8, t: Token): bv8
    requires Size(t) <= 8
  {
    (r >> BitOffset(t)) & SizeMask(Size(t))
  }

  predicate Overflows(v: bv8, t: Token)
    requires Size(t) <= 8
  {
    v & !SizeMask(Size(t)) != 0
  }

  function ClobberBits(t: Token): bv8
    requires Size(t) <= 8
  {
    SizeMask(Size(t)) << BitOffset(t)
  }

  /** The register after a masked write: cleared under the mask, then or-ed. */
  function Merge(r: bv8, mask: bv8, v: bv8): bv8
  {
    (r & !mask) | v
  }

  /** The field lies inside the register. */
  predicate Fits(t: Token)
  {
    1 <= Size(t) && BitOffset(t) + Size(t) <= 8
  }

  predicate Disjoint(t: Token, u: Token)
    requires Fits(t) && Fits(u)
  {
    Address(t) != Address(u) || ClobberBits(t) & ClobberBits(u) == 0
  }

  /** The parts of a token code, and the smallest code: exactly those with a size. */
  lemma TokenParts(t: Token)
    ensures t == BitOffset(t) + 8 * Address(t) + 4096 * Size(t)
    ensures t >= 4096 <==> Size(t) > 0
  {
    assert t / 8 == t / 4096 * 512 + t / 8 % 512;
  }

  predicate BitOf(b: bv8, i: nat)
    requires i < 8
  {
    b & ((1 as bv8) << i) != 0
  }

  /** A field covers as many bits as its size says, from its offset up. */
  lemma FieldBits(t: Token, i: nat)
    requires Fits(t) && i < 8
    ensures BitOf(ClobberBits(t), i) <==> BitOffset(t) <= i < BitOffset(t) + Size(t)
  {
    hide Address;
  }

  lemma BitsBeyond(v: bv8, n: nat)
    requires 1 <= n <= 8
    ensures v & !SizeMask(n) != 0 <==>
            (n <= 1 && BitOf(v, 1)) || (n <= 2 && BitOf(v, 2)) || (n <= 3 && BitOf(v, 3)) || (n <= 4 && BitOf(v, 4))
            || (n <= 5 && BitOf(v, 5)) || (n <= 6 && BitOf(v, 6)) || (n <= 7 && BitOf(v, 7))
  {
  }

  /** A value is too big for a field exactly when it has a bit beyond the field's size. */
  lemma OverflowsExactly(v: bv8, t: Token)
    requires Fits(t)
    ensures Overflows(v, t) <==> exists i: nat :: Size(t) <= i < 8 && BitOf(v, i)
  {
    hide Size, BitOffset, SizeMask, BitOf;
    BitsBeyond(v, Size(t));
  }

  lemma ShiftedUp(v: bv8, n: nat, i: nat)
    requires n <= i < 8
    ensures BitOf(v << n, i) <==> BitOf(v, i - n)
  {
  }

  lemma ShiftedBelow(v: bv8, n: nat, i: nat)
    requires i < n < 8
    ensures !BitOf(v << n, i)
  {
  }

  lemma MergedBits(r: bv8, mask: bv8, v: bv8, i: nat)
    requires i < 8
    ensures BitOf(Merge(r, mask, v), i) <==> (BitOf(r, i) && !BitOf(mask, i)) || BitOf(v, i)
  {
    var bit := (1 as bv8) << i;
    assert bit & (bit - 1) == 0;
    MergedBit(r, mask, v, bit);
  }

  lemma MergedBit(r: bv8, mask: bv8, v: bv8, bit: bv8)
    requires bit & (bit - 1) == 0
    ensures Merge(r, mask, v) & bit != 0 <==> (r & bit != 0 && mask & bit == 0) || v & bit != 0
  {
  }

  lemma EncodedBit(v: bv8, t: Token, i: nat)
    requires BitOffset(t) <= i < 8
    ensures BitOf(Encode(v, t), i) <==> BitOf(v, i - BitOffset(t))
  {
    hide BitOf, BitOffset;
    ShiftedUp(v, BitOffset(t), i);
  }

  lemma NoBitBelow(v: bv8, t: Token)
    ensures forall i: nat :: i < BitOffset(t) ==> !BitOf(Encode(v, t), i)
  {
    hide BitOf, BitOffset;
    forall i: nat | i < BitOffset(t)
      ensures !BitOf(Encode(v, t), i)
    {
      ShiftedBelow(v, BitOffset(t), i);
    }
  }

  /** A written value's bits go to the field in order, from its offset up; the other bits stay. */
  lemma WrittenBits(r: bv8, v: bv8, t: Token, i: nat)
    requires Fits(t) && !Overflows(v, t) && i < 8
    ensures BitOf(Merge(r, ClobberBits(t), Encode(v, t)), i) <==>
            if BitOffset(t) <= i < BitOffset(t) + Size(t) then BitOf(v, i - BitOffset(t)) else BitOf(r, i)
  {
    hide Merge, Encode, ClobberBits, Overflows, BitOf, BitOffset, Size;
    FieldBits(t, i);
    NoBitBelow(v, t);
    if BitOffset(t) <= i {
      EncodedBit(v, t, i);
    }
    MergedBits(r, ClobberBits(t), Encode(v, t), i);
    OverflowsExactly(v, t);
  }

  /** An accepted value fills only its own field. */
  lemma EncodedInField(v: bv8, t: Token)
    requires Fits(t) && !Overflows(v, t)
    ensures Encode(v, t) & !ClobberBits(t) == 0
  {
  }

  /** Decoding looks at nothing but the bits of the field. */
  lemma DecodeSeesField(r: bv8, t: Token)
    requires Fits(t)
    ensures Decode(r, t) == (r & ClobberBits(t)) >> BitOffset(t)
  {
  }

  lemma DecodeAfterMerge(r: bv8, v: bv8, t: Token)
    requires Fits(t) && !Overflows(v, t)
    ensures Decode(Merge(r, ClobberBits(t), Encode(v, t)), t) == v
  {
  }

  lemma MergeOutside(r: bv8, mask: bv8, v: bv8, other: bv8)
    requires v & !mask == 0 && mask & other == 0
    ensures Merge(r, mask, v) & other == r & other
  {
  }

  /** A write through one field leaves every disjoint field of the register alone. */
  lemma DisjointFieldKept(r: bv8, v: bv8, t: Token, u: Token)
    requires Fits(t) && Fits(u) && !Overflows(v, t)
    requires ClobberBits(t) & ClobberBits(u) == 0
    ensures Decode(Merge(r, ClobberBits(t), Encode(v, t)), u) == Decode(r, u)
  {
    EncodedInField(v, t);
    MergeOutside(r, ClobberBits(t), Encode(v, t), ClobberBits(u));
    DecodeSeesField(r, u);
    DecodeSeesField(Merge(r, ClobberBits(t), Encode(v, t)), u);
  }

  /** The value whose bits a field that sticks out of its register loses. */
  lemma OverhangLosesBits(r: bv8, t: Token)
    requires Size(t) <= 8 && BitOffset(t) + Size(t) > 8
    ensures !Overflows(SizeMask(Size(t)), t)
    ensures Decode(Merge(r, ClobberBits(t), Encode(SizeMask(Size(t)), t)), t) != SizeMask(Size(t))
  {
  }

  ghost predicate ReadsBackEverything(t: Token)
    requires Size(t) <= 8
  {
    forall r: bv8, v: bv8 :: !Overflows(v, t) ==> Decode(Merge(r, ClobberBits(t), Encode(v, t)), t) == v
  }

  /**
   The codec accepts any offset and size; it reads back all it accepts exactly
   when the field ends inside the register.
   */
  lemma ReadsBackExactlyWhenInside(t: Token)
    requires 1 <= Size(t) <= 8
    ensures ReadsBackEverything(t) <==> BitOffset(t) + Size(t) <= 8
  {
    if BitOffset(t) + Size(t) <= 8 {
      forall r: bv8, v: bv8 | !Overflows(v, t)
        ensures Decode(Merge(r, ClobberBits(t), Encode(v, t)), t) == v
      {
        DecodeAfterMerge(r, v, t);
      }
    } else {
      OverhangLosesBits(0, t);
    }
  }
}
