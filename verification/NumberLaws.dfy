/** A number has one text only, for each width and choice of flags. */
module NumberLaws {
  import opened NumberText

  /** A plain numeral is the numeral of its value. */
  lemma {:induction false} NumeralIsUnique(s: seq<char>, base: nat)
    requires (base == 10 || base == 16) && IsNumeral(s, base)
    ensures s == Numeral(NumeralValue(s, base), base)
    ensures s[0] != '0' ==> NumeralValue(s, base) > 0
    decreases |s|
  {
    hide DigitValue, Digit, NumeralValue, Numeral;
    var k := |s| - 1;
    var front, d := s[..k], DigitValue(s[k]);
    assert s == front + [s[k]];
    ValueOfAppended(front, s[k], base);
    ProperDigit(s[k], base);
    if k == 0 {
      NoDigits(base);
      assert front == [];
      assert NumeralValue(s, base) == d;
      NumeralStep(d, base);
      SmallQuotient(d, base);
    } else {
      assert front[0] == s[0];
      NumeralIsUnique(front, base);
      FrontAndLast(front, NumeralValue(front, base), s[k], d, base);
    }
  }

  /** One more digit behind a numeral that is not zero. */
  lemma FrontAndLast(front: seq<char>, q: nat, c: char, d: nat, base: nat)
    requires (base == 10 || base == 16) && q > 0 && front == Numeral(q, base) && d < base && c == Digit(d)
    ensures Numeral(q * base + d, base) == front + [c] && q * base + d > 0
  {
    hide Digit, Numeral;
    DivisionBack(q, d, base);
    NumeralStep(q * base + d, base);
  }

  lemma ProperDigit(c: char, base: nat)
    requires base <= 16 && DigitValue(c) < base && c == HEX[DigitValue(c)]
    ensures c == Digit(DigitValue(c)) && (c != '0' ==> DigitValue(c) > 0)
  {
  }

  lemma DivisionBack(q: nat, d: nat, base: nat)
    requires (base == 10 || base == 16) && d < base && q > 0
    ensures q * base + d >= base && (q * base + d) / base == q && (q * base + d) % base == d
  {
    if base == 10 {
      assert q * base == q * 10;
    } else {
      assert q * base == q * 16;
    }
  }

  lemma {:induction false} WithoutLast(s: seq<char>, c: char)
    ensures WithoutCommas(s + [c]) == WithoutCommas(s) + if c == ',' then [] else [c]
    decreases |s|
  {
    hide WithoutCommas;
    if s == [] {
      NothingWithout();
      WithoutFirst(c, []);
      assert s + [c] == [c] + [];
    } else {
      WithoutLast(s[1..], c);
      WithoutFirst(s[0], s[1..]);
      WithoutFirst(s[0], s[1..] + [c]);
      assert s == [s[0]] + s[1..];
      assert s + [c] == [s[0]] + (s[1..] + [c]);
    }
  }

  /** Commas stand where they should, counted from the right and from `o` on, and none leads. */
  ghost predicate WellSeparated(g: seq<char>, size: nat, o: nat)
  {
    && (g == [] || g[0] != ',')
    && forall j: nat :: j < |g| ==> (FromRight(g, j) == ',' <==> CommaPlace(j + o, size))
  }

  lemma {:induction false} GroupingIsUnique(g: seq<char>, h: seq<char>, size: nat, o: nat)
    requires WellSeparated(g, size, o) && WellSeparated(h, size, o) && WithoutCommas(g) == WithoutCommas(h)
    ensures g == h
    decreases |g|
  {
    hide WithoutCommas, CommaPlace;
    if g == [] || h == [] {
      LeadingDigitStays(g);
      LeadingDigitStays(h);
    } else {
      var m, n := |g| - 1, |h| - 1;
      assert g == g[..m] + [g[m]] && h == h[..n] + [h[n]];
      WithoutLast(g[..m], g[m]);
      WithoutLast(h[..n], h[n]);
      ShorterSeparated(g, size, o);
      ShorterSeparated(h, size, o);
      assert FromRight(g, 0) == ',' <==> FromRight(h, 0) == ',';
      SameEnds(WithoutCommas(g[..m]), WithoutCommas(h[..n]), g[m], h[n]);
      GroupingIsUnique(g[..m], h[..n], size, o + 1);
    }
  }

  lemma LeadingDigitStays(g: seq<char>)
    requires g == [] || g[0] != ','
    ensures WithoutCommas(g) == [] <==> g == []
  {
  }

  lemma ShorterSeparated(g: seq<char>, size: nat, o: nat)
    requires WellSeparated(g, size, o) && g != []
    ensures WellSeparated(g[..|g| - 1], size, o + 1)
  {
    hide CommaPlace;
    var f := g[..|g| - 1];
    forall j: nat | j < |f|
      ensures FromRight(f, j) == ',' <==> CommaPlace(j + (o + 1), size)
    {
      assert FromRight(f, j) == FromRight(g, j + 1);
      assert j + (o + 1) == (j + 1) + o;
    }
  }

  lemma SameEnds(a: seq<char>, b: seq<char>, c: char, d: char)
    requires (c == ',' <==> d == ',')
    requires a + (if c == ',' then [] else [c]) == b + if d == ',' then [] else [d]
    ensures a == b && c == d
  {
    if c == ',' {
      assert a + [] == a && b + [] == b;
    } else {
      assert (a + [c])[|a|] == c && (b + [d])[|b|] == d;
      assert a == (a + [c])[..|a|] && b == (b + [d])[..|b|];
    }
  }

  /** Padding, sign, digits and commas are all determined: two texts of a number are the same. */
  lemma TextIsUnique(a: seq<char>, b: seq<char>, v: nat, width: nat, f: Flags, base: nat)
    requires v < U32 && (base == 10 || base == 16)
    requires IsText(a, v, width, f, base) && IsText(b, v, width, f, base)
    ensures a == b
  {
    hide IsTextOf, WithoutCommas, IsNumeral, NumeralValue, Numeral, Front;
    var m: nat, k: nat :| IsTextOf(a, m, k, v, width, f, base);
    var n: nat, l: nat :| IsTextOf(b, n, l, v, width, f, base);
    DigitsAreUnique(a, m, k, b, n, l, v, width, f, base);
    FrontIsFixed(a, m, k, v, width, f, base);
    FrontIsFixed(b, n, l, v, width, f, base);
  }

  lemma DigitsAreUnique(a: seq<char>, m: nat, k: nat, b: seq<char>, n: nat, l: nat,
                        v: nat, width: nat, f: Flags, base: nat)
    requires v < U32 && (base == 10 || base == 16)
    requires IsTextOf(a, m, k, v, width, f, base) && IsTextOf(b, n, l, v, width, f, base)
    ensures k < |a| && l < |b| && a[k..] == b[l..]
  {
    hide WithoutCommas, IsNumeral, NumeralValue, Numeral, FromRight;
    var g, h, size := a[k..], b[l..], if !f.grouped then 0 else if base == 16 then 4 else 3;
    NumeralIsUnique(WithoutCommas(g), base);
    NumeralIsUnique(WithoutCommas(h), base);
    assert WellSeparated(g, size, 0);
    assert WellSeparated(h, size, 0);
    GroupingIsUnique(g, h, size, 0);
  }

  /** What stands before the digits, by how many they are. */
  function Front(length: nat, v: nat, width: nat, f: Flags): seq<char>
  {
    var sign := if f.signed && v > 0x7fff_ffff then "-" else if f.plus then "+" else "";
    var rest := |sign| + length;
    Copies(if f.zeroPadded then '0' else ' ',
           if (f.leftJustified && !f.zeroPadded) || width <= rest then 0 else width - rest) + sign
  }

  lemma FrontIsFixed(text: seq<char>, m: nat, k: nat, v: nat, width: nat, f: Flags, base: nat)
    requires v < U32 && (base == 10 || base == 16) && IsTextOf(text, m, k, v, width, f, base)
    ensures text == Front(|text| - k, v, width, f) + text[k..]
  {
    hide WithoutCommas, IsNumeral, NumeralValue, FromRight;
    assert |text[m..k]| == k - m;
    assert text[..m] == Copies(if f.zeroPadded then '0' else ' ', m);
    assert text == text[..m] + text[m..k] + text[k..];
  }

  /** So the program's text is the only one. */
  lemma OnlyText(text: seq<char>, v: nat, width: nat, f: Flags, base: nat)
    requires v < U32 && (base == 10 || base == 16)
    ensures IsText(text, v, width, f, base) <==> text == Rendered(v, width, f, base)
  {
    hide IsText;
    RenderedIsText(v, width, f, base);
    if IsText(text, v, width, f, base) {
      TextIsUnique(text, Rendered(v, width, f, base), v, width, f, base);
    }
  }
}
