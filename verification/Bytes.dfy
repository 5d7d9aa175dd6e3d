/** Eight-bit registers, and 16-bit words made of two of them. */
module Bytes {

  const ALL_BITS: bv8 := 0xff
  const WORD: nat := 0x1_0000

  function WithBits(b: bv8, bits: bv8): bv8
  {
    b | bits
  }

  function WithoutBits(b: bv8, bits: bv8): bv8
  {
    b & !bits
  }

  function Low(w: nat): (b: bv8)
  {
    (w % 256) as bv8
  }

  function High(w: nat): (b: bv8)
  {
    ((w / 256) % 256) as bv8
  }

  lemma HighIsLow(w: nat)
    ensures High(w) == Low(w / 256)
  {
  }

  function Word(high: bv8, low: bv8): (w: nat)
    ensures w < WORD
  {
    (high as nat) * 256 + (low as nat)
  }

  /** A 16-bit sum after one of its bytes changed. */
  function Moved(sum: nat, was: bv8, now: bv8): (w: nat)
    ensures w < WORD
  {
    (sum - was as nat + now as nat) % WORD
  }

  /** A 16-bit sum with one more byte in it. */
  function Plus(sum: nat, b: bv8): (w: nat)
    ensures w < WORD
  {
    (sum + b as nat) % WORD
  }

  lemma NextByte(b: bv8)
    requires b as nat < 255
    ensures (b + 1) as nat == b as nat + 1
  {
  }

  /** Every number below 256 is some byte's. */
  lemma {:induction false} ByteOf(n: nat) returns (b: bv8)
    requires n < 256
    ensures b as nat == n
  {
    if n == 0 {
      b := 0;
    } else {
      var c := ByteOf(n - 1);
      NextByte(c);
      b := c + 1;
    }
  }

  lemma ByteRoundTrip(n: nat)
    requires n < 256
    ensures (n as bv8) as nat == n
  {
    var b := ByteOf(n);
    assert (b as nat) as bv8 == b;
  }

  lemma WordRoundTrip(w: nat)
    requires w < WORD
    ensures Word(High(w), Low(w)) == w
  {
    ByteRoundTrip(w % 256);
    ByteRoundTrip(w / 256);
  }

  lemma ByteIsInjective(a: bv8, b: bv8)
    requires a as nat == b as nat
    ensures a == b
  {
    assert (a as nat) as bv8 == a;
    assert (b as nat) as bv8 == b;
  }

  /** Words that agree in one byte are equal only when they agree in the other. */
  lemma WordIsInjective(high: bv8, low: bv8, high': bv8, low': bv8)
    requires high == high' || low == low'
    requires Word(high, low) == Word(high', low')
    ensures high == high' && low == low'
  {
    if high == high' {
      ByteIsInjective(low, low');
    } else {
      ByteIsInjective(high, high');
    }
  }
}
