/** Numbers to text and back, as the debug port's formatter does it. */
module NumberText {

  const NUL: char := '\0'
  /** Unsigned integers are 32 bits wide. */
  const U32: nat := 0x1_0000_0000
  const HEX: string := "0123456789ABCDEF"

  datatype Flags = Flags(leftJustified: bool, plus: bool, zeroPadded: bool, signed: bool, grouped: bool)

  // ---------------------------------------------------------------------- numerals

  function Digit(d: nat): (c: char)
    requires d < 16
  {
    HEX[d]
  }

  /** The digits of a number, highest first. */
  function Numeral(n: nat, base: nat): (s: seq<char>)
    requires 2 <= base <= 16
    ensures |s| >= 1
    decreases n
  {
    if n < base then [Digit(n)] else Numeral(n / base, base) + [Digit(n % base)]
  }

  function DigitValue(c: char): nat
  {
    if '0' <= c <= '9' then (c - '0') as nat else if 'A' <= c <= 'F' then 10 + (c - 'A') as nat else 0
  }

  function NumeralValue(s: seq<char>, base: nat): nat
  {
    if s == [] then 0 else NumeralValue(s[..|s| - 1], base) * base + DigitValue(s[|s| - 1])
  }

  lemma DigitHasItsValue(d: nat)
    requires d < 16
    ensures DigitValue(Digit(d)) == d && Digit(d) != ','
  {
    if d < 10 {
      assert HEX[..10] == "0123456789";
      assert HEX[d] == HEX[..10][d];
    }
  }

  lemma ValueOfAppended(s: seq<char>, c: char, base: nat)
    ensures NumeralValue(s + [c], base) == NumeralValue(s, base) * base + DigitValue(c)
  {
    assert (s + [c])[..|s|] == s;
  }

  lemma {:induction false} NumeralHasItsValue(n: nat, base: nat)
    requires 2 <= base <= 16
    ensures NumeralValue(Numeral(n, base), base) == n
    ensures n > 0 ==> Numeral(n, base)[0] != '0'
    decreases n
  {
    hide NumeralValue, DigitValue, Digit, Numeral;
    NumeralStep(n, base);
    QuotientAndRemainder(n, base);
    DigitHasItsValue(n % base);
    if n < base {
      SmallQuotient(n, base);
      assert Numeral(n, base) == [] + [Digit(n)];
      ValueOfAppended([], Digit(n), base);
      NoDigits(base);
      OnlyZeroIsZero(n);
    } else {
      QuotientShrinks(n, base);
      NumeralHasItsValue(n / base, base);
      ValueOfAppended(Numeral(n / base, base), Digit(n % base), base);
    }
  }

  lemma NumeralStep(n: nat, base: nat)
    requires 2 <= base <= 16
    ensures Numeral(n, base) ==
            if n < base then [Digit(n % base)] else Numeral(n / base, base) + [Digit(n % base)]
    ensures n / base == 0 <==> n < base
  {
    hide Digit;
    if n < base {
      SmallQuotient(n, base);
    } else {
      QuotientShrinks(n, base);
    }
  }

  lemma QuotientAndRemainder(n: nat, base: nat)
    requires base > 1
    ensures n == (n / base) * base + n % base
  {
  }

  lemma SmallQuotient(n: nat, base: nat)
    requires n < base
    ensures n / base == 0 && n % base == n
  {
  }

  lemma QuotientShrinks(n: nat, base: nat)
    requires n >= base > 1
    ensures 0 < n / base < n
  {
    QuotientAndRemainder(n, base);
    Shrinks(n, n / base, n % base, base);
  }

  lemma Shrinks(n: nat, q: nat, r: nat, base: nat)
    requires n == q * base + r && r < base <= n && base > 1
    ensures 0 < q < n
  {
    if q > 0 {
      assert q * base >= q * 2;
    }
  }

  lemma NoDigits(base: nat)
    ensures NumeralValue([], base) == 0
  {
  }

  lemma OnlyZeroIsZero(n: nat)
    requires n < 16
    ensures n > 0 ==> Digit(n) != '0'
  {
    DigitHasItsValue(n);
  }

  // ---------------------------------------------------------------------- grouping

  /** Digits to a group: none when it is not asked for or the base is another. */
  function GroupSize(base: nat, grouped: bool): nat
  {
    if !grouped then 0 else if base == 16 then 4 else if base == 10 then 3 else 0
  }

  /** A comma goes before the last `n` digits. */
  predicate CommaBefore(n: nat, size: nat)
  {
    size > 0 && n > 0 && n % size == 0
  }

  function Grouped(s: seq<char>, size: nat): (g: seq<char>)
    ensures |g| >= |s|
  {
    if s == [] then []
    else [s[0]] + (if CommaBefore(|s| - 1, size) then "," else "") + Grouped(s[1..], size)
  }

  function WithoutCommas(s: seq<char>): seq<char>
  {
    if s == [] then [] else (if s[0] == ',' then [] else [s[0]]) + WithoutCommas(s[1..])
  }

  /** Taking the commas out gives the plain digits back. */
  lemma {:induction false} CommasComeOut(s: seq<char>, size: nat)
    requires forall i :: 0 <= i < |s| ==> s[i] != ','
    ensures WithoutCommas(Grouped(s, size)) == s
  {
    hide CommaBefore, Grouped, WithoutCommas;
    GroupedUnfolds(s, size);
    if s == [] {
      NothingWithout();
    } else {
      var rest := Grouped(s[1..], size);
      CommasComeOut(s[1..], size);
      assert s == [s[0]] + s[1..];
      if CommaBefore(|s| - 1, size) {
        WithoutFirst(',', rest);
        WithoutFirst(s[0], [','] + rest);
      } else {
        WithoutFirst(s[0], rest);
      }
    }
  }

  lemma GroupedUnfolds(s: seq<char>, size: nat)
    ensures s == [] ==> Grouped(s, size) == []
    ensures s != [] && CommaBefore(|s| - 1, size) ==> Grouped(s, size) == [s[0]] + ([','] + Grouped(s[1..], size))
    ensures s != [] && !CommaBefore(|s| - 1, size) ==> Grouped(s, size) == [s[0]] + Grouped(s[1..], size)
  {
    hide CommaBefore;
    if s != [] {
      assert [s[0]] + "" == [s[0]];
    }
  }

  lemma NothingWithout()
    ensures WithoutCommas([]) == []
  {
  }

  lemma WithoutFirst(c: char, rest: seq<char>)
    ensures WithoutCommas([c] + rest) == (if c == ',' then [] else [c]) + WithoutCommas(rest)
  {
    assert ([c] + rest)[1..] == rest;
  }

  /** How many characters `n` grouped digits take. */
  function GroupedLength(n: nat, size: nat): nat
  {
    if size == 0 || n == 0 then n else n + (n - 1) / size
  }

  /** No grouping, or by threes or fours. */
  predicate IsGroupSize(size: nat)
  {
    size == 0 || size == 3 || size == 4
  }

  lemma LengthStep(n: nat, size: nat)
    requires n > 0 && IsGroupSize(size)
    ensures GroupedLength(n, size) == GroupedLength(n - 1, size) + 1 + if CommaBefore(n - 1, size) then 1 else 0
  {
    if size == 3 {
      assert n > 1 ==> (n - 1) / 3 == (n - 2) / 3 + if (n - 1) % 3 == 0 then 1 else 0;
    } else if size == 4 {
      assert n > 1 ==> (n - 1) / 4 == (n - 2) / 4 + if (n - 1) % 4 == 0 then 1 else 0;
    }
  }

  lemma {:induction false} GroupedHasLength(s: seq<char>, size: nat)
    requires IsGroupSize(size)
    ensures |Grouped(s, size)| == GroupedLength(|s|, size)
  {
    if s != [] {
      GroupedHasLength(s[1..], size);
      LengthStep(|s|, size);
    }
  }

  /** A position, counted from the right, that holds a comma. */
  predicate CommaPlace(j: nat, size: nat)
  {
    size > 0 && j % (size + 1) == size
  }

  /**
   Commas stand at every group boundary counted from the right and nowhere else;
   in particular neither first nor next to each other.
   */
  lemma {:induction false} CommasStandRight(s: seq<char>, size: nat, j: nat)
    requires forall i :: 0 <= i < |s| ==> s[i] != ','
    requires j < |Grouped(s, size)| && IsGroupSize(size)
    ensures Grouped(s, size)[|Grouped(s, size)| - 1 - j] == ',' <==> CommaPlace(j, size)
  {
    hide Grouped, GroupedLength, CommaPlace, CommaBefore;
    GroupedUnfolds(s, size);
    GroupedHasLength(s, size);
    GroupedHasLength(s[1..], size);
    var g, rest := Grouped(s, size), Grouped(s[1..], size);
    if j < |rest| {
      CommasStandRight(s[1..], size, j);
      assert g[|g| - 1 - j] == rest[|rest| - 1 - j];
    } else if size > 0 {
      BoundaryPlace(|s|, size);
    } else {
      NoCommaUngrouped(|s| - 1, j);
    }
  }

  lemma NoCommaUngrouped(n: nat, j: nat)
    ensures !CommaBefore(n, 0) && !CommaPlace(j, 0)
  {
  }

  /** Where the first digit of a grouped number, and the comma after it, stand. */
  lemma BoundaryPlace(n: nat, size: nat)
    requires n > 0 && (size == 3 || size == 4)
    ensures CommaBefore(n - 1, size) ==> CommaPlace(GroupedLength(n - 1, size), size)
    ensures !CommaPlace(GroupedLength(n, size) - 1, size)
  {
    if size == 3 {
      BoundaryByThrees(n);
    } else {
      BoundaryByFours(n);
    }
  }

  lemma BoundaryByThrees(n: nat)
    requires n > 0
    ensures (n + (n - 1) / 3 - 1) % 4 != 3
    ensures n > 1 && (n - 1) % 3 == 0 ==> (n - 1 + (n - 2) / 3) % 4 == 3
  {
    var q, r := (n - 1) / 3, (n - 1) % 3;
    RemainderByFour(q, r);
    if n > 1 && r == 0 {
      assert n - 2 == (q - 1) * 3 + 2;
      RemainderByFour(q - 1, 3);
    }
  }

  lemma BoundaryByFours(n: nat)
    requires n > 0
    ensures (n + (n - 1) / 4 - 1) % 5 != 4
    ensures n > 1 && (n - 1) % 4 == 0 ==> (n - 1 + (n - 2) / 4) % 5 == 4
  {
    var q, r := (n - 1) / 4, (n - 1) % 4;
    RemainderByFive(q, r);
    if n > 1 && r == 0 {
      assert n - 2 == (q - 1) * 4 + 3;
      RemainderByFive(q - 1, 4);
    }
  }

  lemma RemainderByFour(q: nat, r: nat)
    requires r < 4
    ensures (q * 4 + r) % 4 == r
  {
  }

  lemma RemainderByFive(q: nat, r: nat)
    requires r < 5
    ensures (q * 5 + r) % 5 == r
  {
  }

  // --------------------------------------------------------------------- rendering

  predicate IsNegative(v: nat, f: Flags)
  {
    f.signed && v > 0x7fff_ffff
  }

  function Magnitude(v: nat, f: Flags): (n: nat)
    requires v < U32
    ensures n < U32
  {
    if IsNegative(v, f) then U32 - v else v
  }

  function Sign(v: nat, f: Flags): seq<char>
  {
    if IsNegative(v, f) then "-" else if f.plus then "+" else ""
  }

  /** The sign and the digits. */
  function Body(v: nat, f: Flags, base: nat): (s: seq<char>)
    requires v < U32 && 2 <= base <= 16
  {
    Sign(v, f) + Grouped(Numeral(Magnitude(v, f), base), GroupSize(base, f.grouped))
  }

  function Copies(c: char, n: nat): (s: seq<char>)
    ensures |s| == n && forall i :: 0 <= i < n ==> s[i] == c
  {
    seq(n, _ => c)
  }

  /** What goes in front to reach the width: nothing at all when justified left. */
  function Padding(f: Flags, width: nat, length: nat): (s: seq<char>)
  {
    var n := if width > length then width - length else 0;
    if f.zeroPadded then Copies('0', n) else if !f.leftJustified then Copies(' ', n) else ""
  }

  /** The padding stands even before the sign. */
  function Rendered(v: nat, width: nat, f: Flags, base: nat): (s: seq<char>)
    requires v < U32 && 2 <= base <= 16
  {
    var body := Body(v, f, base);
    Padding(f, width, |body|) + body
  }

  lemma RenderedLength(v: nat, width: nat, f: Flags, base: nat)
    requires v < U32 && 2 <= base <= 16
    ensures |Rendered(v, width, f, base)| ==
            var n := |Body(v, f, base)|;
            if (f.zeroPadded || !f.leftJustified) && width > n then width else n
  {
  }

  /** The character this far from the right end. */
  function FromRight(s: seq<char>, j: nat): char
    requires j < |s|
  {
    s[|s| - 1 - j]
  }

  /** A plain numeral of a base: its digits only, and no zero in front. */
  predicate IsNumeral(s: seq<char>, base: nat)
    requires base <= 16
  {
    && s != [] && (|s| > 1 ==> s[0] != '0')
    && forall i :: 0 <= i < |s| ==> DigitValue(s[i]) < base && s[i] == HEX[DigitValue(s[i])]
  }

  /**
   The text of a number: padding up to the first position, a sign up to the
   second, then digits whose value, the commas taken out, is the magnitude.
   Counted from the right, every fifth character of a grouped hexadecimal and
   every fourth of a grouped decimal is a comma.
   */
  ghost predicate IsTextOf(text: seq<char>, m: nat, k: nat, v: nat, width: nat, f: Flags, base: nat)
    requires v < U32 && (base == 10 || base == 16)
  {
    && m <= k < |text|
    && (var digits := text[k..];
        && digits[0] != ',' && IsNumeral(WithoutCommas(digits), base)
        && NumeralValue(WithoutCommas(digits), base) ==
           (if f.signed && v > 0x7fff_ffff then 0x1_0000_0000 - v else v)
        && forall j: nat :: j < |digits| ==>
             (FromRight(digits, j) == ',' <==> f.grouped && if base == 16 then j % 5 == 4 else j % 4 == 3))
    && text[m..k] == (if f.signed && v > 0x7fff_ffff then "-" else if f.plus then "+" else "")
    && (if f.leftJustified && !f.zeroPadded then m == 0
        else if width > |text| - m then m == width - (|text| - m) else m == 0)
    && forall i :: 0 <= i < m ==> text[i] == if f.zeroPadded then '0' else ' '
  }

  ghost predicate IsText(text: seq<char>, v: nat, width: nat, f: Flags, base: nat)
    requires v < U32 && (base == 10 || base == 16)
  {
    exists m: nat, k: nat :: IsTextOf(text, m, k, v, width, f, base)
  }

  function Power(base: nat, k: nat): nat
  {
    if k == 0 then 1 else base * Power(base, k - 1)
  }

  lemma {:induction false} NumeralIsShort(n: nat, base: nat, k: nat)
    requires base == 10 || base == 16
    requires k > 0 && n < Power(base, k)
    ensures |Numeral(n, base)| <= k
    decreases k
  {
    if n >= base {
      assert k > 1 by {
        assert Power(base, 1) == base * Power(base, 0);
      }
      assert n / base < Power(base, k - 1);
      NumeralIsShort(n / base, base, k - 1);
    }
  }

  /** The caller's buffer of 160 characters is enough for every width below it. */
  lemma RenderedFitsBuffer(v: nat, width: nat, f: Flags, base: nat)
    requires v < U32 && (base == 10 || base == 16) && width <= 159
    ensures |Rendered(v, width, f, base)| + 1 <= 160
  {
    var n := Magnitude(v, f);
    var size := GroupSize(base, f.grouped);
    if base == 10 {
      assert Power(10, 10) == 100_0000_0000;
      NumeralIsShort(n, 10, 10);
    } else {
      assert Power(16, 8) == U32;
      NumeralIsShort(n, 16, 8);
    }
    GroupedHasLength(Numeral(n, base), size);
  }

  // ------------------------------------------------------------------------ writing

  function Rev(s: seq<char>): (r: seq<char>)
    ensures |r| == |s| && forall i :: 0 <= i < |s| ==> r[i] == s[|s| - 1 - i]
  {
    seq(|s|, i requires 0 <= i < |s| => s[|s| - 1 - i])
  }

  lemma RevOfPrepended(a: seq<char>, s: seq<char>)
    requires |a| == 1
    ensures Rev(a + s) == Rev(s) + a
  {
  }

  /** The grouped digits with the comma that the next digit would need. */
  function Lead(s: seq<char>, size: nat): seq<char>
  {
    (if CommaBefore(|s|, size) then "," else "") + Grouped(s, size)
  }

  lemma {:induction false} NumeralHasNoCommas(n: nat, base: nat)
    requires 2 <= base <= 16
    ensures forall i :: 0 <= i < |Numeral(n, base)| ==> Numeral(n, base)[i] != ','
    decreases n
  {
    hide DigitValue, Digit;
    if n < base {
      DigitHasItsValue(n);
    } else {
      NumeralHasNoCommas(n / base, base);
      DigitHasItsValue(n % base);
      assert Numeral(n, base) == Numeral(n / base, base) + [Digit(n % base)];
    }
  }

  lemma GroupedPrepend(c: char, s: seq<char>, size: nat)
    ensures Grouped([c] + s, size) == [c] + Lead(s, size)
  {
    assert ([c] + s)[1..] == s;
    if !CommaBefore(|s|, size) {
      assert "" + Grouped(s, size) == Grouped(s, size);
    }
  }

  lemma {:induction false} SuffixIsShorter(a: seq<char>, s: seq<char>, size: nat)
    ensures |Grouped(s, size)| <= |Grouped(a + s, size)|
    ensures a != [] ==> |Lead(s, size)| + 1 <= |Grouped(a + s, size)|
  {
    if a == [] {
      assert a + s == s;
    } else {
      SuffixIsShorter(a[1..], s, size);
      assert a + s == [a[0]] + (a[1..] + s);
      GroupedPrepend(a[0], a[1..] + s, size);
      if a[1..] == [] {
        assert a[1..] + s == s;
      }
    }
  }

  /** Part of the digits produced, the rest of the number still to go. */
  ghost predicate Produced(n: nat, base: nat, rest: nat, digits: seq<char>)
    requires 2 <= base <= 16
  {
    Numeral(n, base) == if digits != [] && rest == 0 then digits else Numeral(rest, base) + digits
  }

  lemma NextDigit(n: nat, base: nat, rest: nat, digits: seq<char>)
    requires 2 <= base <= 16 && Produced(n, base, rest, digits) && (rest > 0 || digits == [])
    ensures Produced(n, base, rest / base, [Digit(rest % base)] + digits)
    ensures exists a :: a + ([Digit(rest % base)] + digits) == Numeral(n, base)
  {
    hide Numeral, Digit;
    NumeralStep(rest, base);
    var d := [Digit(rest % base)];
    if rest >= base {
      assert Numeral(n, base) == Numeral(rest / base, base) + (d + digits);
    } else {
      assert Numeral(n, base) == [] + (d + digits);
    }
  }

  /** There is room for the next digit, and for a comma after it. */
  lemma RoomForDigit(whole: seq<char>, d: char, digits: seq<char>, size: nat)
    requires exists a :: a + ([d] + digits) == whole
    ensures |Lead(digits, size)| + 1 <= |Grouped([d] + digits, size)| <= |Grouped(whole, size)|
  {
    hide Grouped, Lead;
    var a :| a + ([d] + digits) == whole;
    SuffixIsShorter([d], digits, size);
    SuffixIsShorter(a, [d] + digits, size);
  }

  lemma LastComma(digits: seq<char>, size: nat)
    requires digits != [] && digits[0] != ','
    ensures var r := Rev(Lead(digits, size));
      r != [] && (r[|r| - 1] == ',' <==> CommaBefore(|digits|, size))
    ensures CommaBefore(|digits|, size) ==> Rev(Lead(digits, size)) == Rev(Grouped(digits, size)) + ","
    ensures !CommaBefore(|digits|, size) ==> Lead(digits, size) == Grouped(digits, size)
  {
    if CommaBefore(|digits|, size) {
      RevOfPrepended(",", Grouped(digits, size));
    } else {
      assert "" + Grouped(digits, size) == Grouped(digits, size);
      assert Grouped(digits, size)[0] == digits[0];
    }
  }

  /** Append to the text; what is there already stays. */
  method Append(str: array<char>, at: nat, c: char) returns (ptr: nat)
    requires at < str.Length
    modifies str
    ensures ptr == at + 1 && str[..ptr] == old(str[..at]) + [c]
    ensures str[ptr..] == old(str[at + 1..])
  {
    str[at] := c;
    ptr := at + 1;
  }

  /** One digit, and the comma that closes a group. */
  method AppendDigit(str: array<char>, at: nat, d: char, i: nat, size: nat, ghost digits: seq<char>) returns (ptr: nat)
    requires |digits| + 1 == i && at == |Lead(digits, size)| && |Grouped([d] + digits, size)| < str.Length
    requires at < str.Length && str[..at] == Rev(Lead(digits, size))
    modifies str
    ensures ptr == |Lead([d] + digits, size)| <= str.Length && str[..ptr] == Rev(Lead([d] + digits, size))
  {
    GroupedPrepend(d, digits, size);
    RevOfPrepended([d], Lead(digits, size));
    hide Grouped;
    ptr := Append(str, at, d);
    if CommaBefore(i, size) {
      RevOfPrepended(",", Grouped([d] + digits, size));
      ptr := Append(str, ptr, ',');
    } else {
      assert "" + Grouped([d] + digits, size) == Grouped([d] + digits, size);
    }
  }

  /** Digits are produced from the lowest up, a comma after each full group; a last comma is taken back. */
  method WriteDigits(str: array<char>, n: nat, base: nat, grouped: bool) returns (ptr: nat)
    requires 2 <= base <= 16
    requires |Grouped(Numeral(n, base), GroupSize(base, grouped))| < str.Length
    modifies str
    ensures ptr == |Grouped(Numeral(n, base), GroupSize(base, grouped))|
    ensures str[..ptr] == Rev(Grouped(Numeral(n, base), GroupSize(base, grouped)))
  {
    hide Numeral, Grouped, Digit, Produced, Lead, CommaBefore, Rev;
    var size: nat := GroupSize(base, grouped);
    var rest: nat := n;
    var i: nat := 0;
    ptr := 0;
    ghost var digits: seq<char> := [];
    NothingProduced(n, base, size);
    while i == 0 || rest > 0
      invariant |digits| == i && Produced(n, base, rest, digits)
      invariant ptr == |Lead(digits, size)| <= str.Length && str[..ptr] == Rev(Lead(digits, size))
      decreases rest, if i == 0 then 1 else 0
    {
      NextDigit(n, base, rest, digits);
      RoomForDigit(Numeral(n, base), Digit(rest % base), digits, size);
      i := i + 1;
      ptr := AppendDigit(str, ptr, Digit(rest % base), i, size, digits);
      digits := [Digit(rest % base)] + digits;
      if rest < base {
        SmallQuotient(rest, base);
      } else {
        QuotientShrinks(rest, base);
      }
      rest := rest / base;
    }
    NumeralHasNoCommas(n, base);
    AllProduced(n, base, digits);
    LastComma(digits, size);
    if str[ptr - 1] == ',' {
      ptr := ptr - 1;
    }
  }

  lemma NothingProduced(n: nat, base: nat, size: nat)
    requires 2 <= base <= 16
    ensures Lead([], size) == Rev([]) == [] && Produced(n, base, n, [])
  {
    assert Numeral(n, base) + [] == Numeral(n, base);
  }

  lemma AllProduced(n: nat, base: nat, digits: seq<char>)
    requires 2 <= base <= 16 && digits != [] && Produced(n, base, 0, digits)
    ensures digits == Numeral(n, base)
  {
  }

  /** Swap ends, moving inwards. */
  method ReverseInPlace(str: array<char>, length: nat)
    requires length <= str.Length
    modifies str
    ensures str[..length] == Rev(old(str[..length]))
    ensures forall k :: length <= k < str.Length ==> str[k] == old(str[k])
  {
    var low, high := 0, length;
    while true
      invariant 0 <= low <= high <= length && low + high == length
      invariant forall k :: 0 <= k < low ==> str[k] == old(str[length - 1 - k]) && str[length - 1 - k] == old(str[k])
      invariant forall k :: low <= k < high ==> str[k] == old(str[k])
      invariant forall k :: length <= k < str.Length ==> str[k] == old(str[k])
      decreases high
    {
      if high == 0 {
        break;
      }
      high := high - 1;
      if low >= high {
        break;
      }
      str[low], str[high] := str[high], str[low];
      low := low + 1;
    }
  }

  lemma RevOfShort(a: seq<char>, s: seq<char>)
    requires |a| <= 1
    ensures Rev(a + s) == Rev(s) + a
  {
  }

  lemma RevOfPadding(pad: seq<char>, s: seq<char>)
    requires forall i, j :: 0 <= i < |pad| && 0 <= j < |pad| ==> pad[i] == pad[j]
    ensures Rev(pad + s) == Rev(s) + pad
  {
  }

  lemma RevOfRev(s: seq<char>)
    ensures Rev(Rev(s)) == s
  {
  }

  lemma DigitIsProper(d: nat, base: nat)
    requires d < base <= 16
    ensures DigitValue(Digit(d)) == d < base && Digit(d) == HEX[d]
  {
    hide DigitValue;
    DigitHasItsValue(d);
  }

  lemma {:induction false} NumeralIsNumeral(n: nat, base: nat)
    requires 2 <= base <= 16
    ensures IsNumeral(Numeral(n, base), base)
    decreases n
  {
    hide DigitValue, Digit, NumeralValue;
    NumeralHasItsValue(n, base);
    DigitIsProper(n % base, base);
    if n < base {
      SmallQuotient(n, base);
    } else {
      QuotientShrinks(n, base);
      NumeralIsNumeral(n / base, base);
      NumeralHasItsValue(n / base, base);
      assert Numeral(n, base)[0] == Numeral(n / base, base)[0];
    }
  }

  /** The digits that are written, commas and all. */
  lemma GroupedIsRight(v: nat, f: Flags, base: nat)
    requires v < U32 && (base == 10 || base == 16)
    ensures var n := Magnitude(v, f); var g := Grouped(Numeral(n, base), GroupSize(base, f.grouped));
      && g != [] && g[0] != ',' && WithoutCommas(g) == Numeral(n, base)
      && forall j: nat :: j < |g| ==>
           (FromRight(g, j) == ',' <==> f.grouped && if base == 16 then j % 5 == 4 else j % 4 == 3)
  {
    hide Numeral, Grouped, WithoutCommas;
    var n, size := Magnitude(v, f), GroupSize(base, f.grouped);
    var s := Numeral(n, base);
    NumeralHasNoCommas(n, base);
    CommasComeOut(s, size);
    GroupedUnfolds(s, size);
    forall j: nat | j < |Grouped(s, size)|
      ensures FromRight(Grouped(s, size), j) == ',' <==> f.grouped && if base == 16 then j % 5 == 4 else j % 4 == 3
    {
      CommasStandRight(s, size, j);
    }
  }

  /** What is written is the text of the number. */
  lemma RenderedIsText(v: nat, width: nat, f: Flags, base: nat)
    requires v < U32 && (base == 10 || base == 16)
    ensures IsText(Rendered(v, width, f, base), v, width, f, base)
  {
    hide Numeral, Grouped, WithoutCommas, NumeralValue, IsNumeral, GroupSize, FromRight;
    var n, text := Magnitude(v, f), Rendered(v, width, f, base);
    var g := Grouped(Numeral(n, base), GroupSize(base, f.grouped));
    GroupedIsRight(v, f, base);
    NumeralIsNumeral(n, base);
    NumeralHasItsValue(n, base);
    var m := |Padding(f, width, |Body(v, f, base)|)|;
    var k := m + |Sign(v, f)|;
    assert text == Padding(f, width, |Body(v, f, base)|) + (Sign(v, f) + g);
    assert text[k..] == g && text[m..k] == Sign(v, f);
    assert IsTextOf(text, m, k, v, width, f, base);
  }

  /** The character the width is made up with, or none. */
  function PadChar(f: Flags): char
  {
    if f.zeroPadded then '0' else if !f.leftJustified then ' ' else NUL
  }

  /** Write the text of a number, lowest digit first, and turn it round. */
  method UintnToStr(v: nat, str: array<char>, width: nat, f: Flags, base: nat)
    requires v < U32 && (base == 10 || base == 16)
    requires |Rendered(v, width, f, base)| < str.Length
    modifies str
    ensures var text := Rendered(v, width, f, base);
      str[..|text|] == text && str[|text|] == NUL && IsText(text, v, width, f, base)
  {
    hide Numeral, Grouped, IsText;
    RenderedIsText(v, width, f, base);
    var n := Magnitude(v, f);
    var ptr := WriteDigits(str, n, base, f.grouped);
    RevOfShort(Sign(v, f), Grouped(Numeral(n, base), GroupSize(base, f.grouped)));
    if IsNegative(v, f) {
      ptr := Append(str, ptr, '-');
    } else if f.plus {
      ptr := Append(str, ptr, '+');
    }
    ghost var body := Body(v, f, base);
    assert str[..ptr] == Rev(body);
    ptr := Pad(str, ptr, width, f, body);
    str[ptr] := NUL;
    ReverseInPlace(str, ptr);
    RevOfRev(Rendered(v, width, f, base));
  }

  method Pad(str: array<char>, at: nat, width: nat, f: Flags, ghost body: seq<char>) returns (ptr: nat)
    requires at == |body| <= str.Length && str[..at] == Rev(body)
    requires |Padding(f, width, |body|) + body| <= str.Length
    modifies str
    ensures ptr == |Padding(f, width, |body|) + body| && str[..ptr] == Rev(Padding(f, width, |body|) + body)
  {
    ptr := at;
    var prefix := PadChar(f);
    if prefix != NUL {
      var i := ptr;
      while i < width
        invariant at <= i && (i <= width || i == at) && ptr == i <= str.Length
        invariant str[..ptr] == Rev(body) + Copies(prefix, i - at)
      {
        ptr := Append(str, ptr, prefix);
        i := i + 1;
      }
      RevOfPadding(Padding(f, width, |body|), body);
    } else {
      assert Padding(f, width, |body|) + body == body;
    }
  }

  // ------------------------------------------------------------------------ reading

  predicate IsDigit(c: char)
  {
    '0' <= c <= '9'
  }

  /** The 32-bit sum over the digits from here on, and where they end. */
  function ParsedFrom(s: seq<char>, pos: nat, sum: nat): (r: (nat, nat))
    requires pos <= |s|
    ensures pos <= r.1 <= |s|
    ensures forall i :: pos <= i < r.1 ==> IsDigit(s[i])
    ensures r.1 < |s| ==> !IsDigit(s[r.1])
    decreases |s| - pos
  {
    if pos < |s| && IsDigit(s[pos]) then ParsedFrom(s, pos + 1, (sum * 10 + DigitValue(s[pos])) % U32)
    else (sum, pos)
  }

  /** One leading zero is stepped over first. */
  function Parsed(s: seq<char>): (r: (nat, nat))
  {
    ParsedFrom(s, if s != [] && s[0] == '0' then 1 else 0, 0)
  }

  /** The text runs up to its terminator. */
  method StrToNumber(s: seq<char>) returns (sum: nat, pos: nat)
    ensures (sum, pos) == Parsed(s)
  {
    pos := 0;
    if s != [] && s[0] == '0' {
      pos := pos + 1;
    }
    sum := 0;
    while pos < |s| && IsDigit(s[pos])
      invariant pos <= |s| && ParsedFrom(s, pos, sum) == Parsed(s)
    {
      sum := (sum * 10 + DigitValue(s[pos])) % U32;
      pos := pos + 1;
    }
  }

  /** From some way into a run of digits, with the value so far, to the end of the run. */
  lemma {:induction false} ParsedFromIsValue(d: seq<char>, rest: seq<char>, pos: nat)
    requires pos <= |d| && (forall i :: 0 <= i < |d| ==> IsDigit(d[i])) && (rest == [] || !IsDigit(rest[0]))
    ensures ParsedFrom(d + rest, pos, NumeralValue(d[..pos], 10) % U32) == (NumeralValue(d, 10) % U32, |d|)
    decreases |d| - pos
  {
    hide NumeralValue, DigitValue;
    if pos == |d| {
      assert d[..pos] == d;
    } else {
      assert d[..pos + 1] == d[..pos] + [d[pos]];
      ValueOfAppended(d[..pos], d[pos], 10);
      WrapOnceOrTwice(NumeralValue(d[..pos], 10), DigitValue(d[pos]));
      ParsedFromIsValue(d, rest, pos + 1);
    }
  }

  lemma WrapOnceOrTwice(w: nat, d: nat)
    ensures ((w % U32) * 10 + d) % U32 == (w * 10 + d) % U32
  {
    assert w * 10 + d == (w % U32) * 10 + d + U32 * (w / U32 * 10);
  }

  /** A text is read as the value of the digits it starts with, modulo the word size, and up to where they end. */
  lemma ParsedPrefix(d: seq<char>, rest: seq<char>)
    requires (forall i :: 0 <= i < |d| ==> IsDigit(d[i])) && (rest == [] || !IsDigit(rest[0]))
    ensures Parsed(d + rest) == (NumeralValue(d, 10) % 0x1_0000_0000, |d|)
  {
    if d != [] && d[0] == '0' {
      assert d[..1] == [] + ['0'];
      ValueOfAppended([], '0', 10);
      ParsedFromIsValue(d, rest, 1);
    } else {
      assert d[..0] == [];
      ParsedFromIsValue(d, rest, 0);
    }
  }

  /** So a text of digits is read to its end. */
  lemma ParsedIsValue(s: seq<char>)
    requires forall i :: 0 <= i < |s| ==> IsDigit(s[i])
    ensures Parsed(s) == (NumeralValue(s, 10) % U32, |s|)
  {
    ParsedPrefix(s, []);
    assert s + [] == s;
  }

  // -------------------------------------------------------------------- round trip

  lemma {:induction false} NumeralIsDigits(n: nat)
    ensures forall i :: 0 <= i < |Numeral(n, 10)| ==> IsDigit(Numeral(n, 10)[i])
    decreases n
  {
    DecimalDigit(n % 10);
    if n < 10 {
      assert n % 10 == n;
    } else {
      NumeralIsDigits(n / 10);
    }
  }

  lemma DecimalDigit(d: nat)
    requires d < 10
    ensures IsDigit(Digit(d))
  {
    assert HEX[..10] == "0123456789";
    assert HEX[d] == HEX[..10][d];
  }

  lemma {:induction false} ZerosDoNotCount(n: nat, s: seq<char>)
    ensures NumeralValue(Copies('0', n) + s, 10) == NumeralValue(s, 10)
    decreases |s|, n
  {
    if s != [] {
      var k := |s| - 1;
      assert Copies('0', n) + s == Copies('0', n) + s[..k] + [s[k]];
      ValueOfAppended(Copies('0', n) + s[..k], s[k], 10);
      ZerosDoNotCount(n, s[..k]);
    } else if n > 0 {
      assert Copies('0', n) + s == (Copies('0', n - 1) + s) + ['0'];
      ValueOfAppended(Copies('0', n - 1) + s, '0', 10);
      ZerosDoNotCount(n - 1, s);
    }
  }

  lemma {:induction false} UngroupedIsPlain(s: seq<char>, size: nat)
    requires IsGroupSize(size) && (size == 0 || |s| <= size)
    ensures Grouped(s, size) == s
    decreases |s|
  {
    if s != [] {
      UngroupedIsPlain(s[1..], size);
      assert s == [s[0]] + "" + s[1..];
    }
  }

  /** No sign, no comma, no space: the cases a caller can tell beforehand. */
  predicate ReadsBack(v: nat, width: nat, f: Flags)
    requires v < U32
  {
    && !IsNegative(v, f) && !f.plus
    && (f.grouped ==> v < 1000)
    && (f.zeroPadded || f.leftJustified || width <= |Numeral(v, 10)|)
  }

  lemma PlainBody(v: nat, f: Flags)
    requires v < U32 && !IsNegative(v, f) && !f.plus && (f.grouped ==> v < 1000)
    ensures Body(v, f, 10) == Numeral(v, 10)
  {
    if f.grouped {
      assert Power(10, 3) == 1000;
      NumeralIsShort(v, 10, 3);
    }
    UngroupedIsPlain(Numeral(v, 10), GroupSize(10, f.grouped));
    assert "" + Numeral(v, 10) == Numeral(v, 10);
  }

  lemma ReadsBackWhenPlain(v: nat, width: nat, f: Flags)
    requires v < U32 && ReadsBack(v, width, f)
    ensures Parsed(Rendered(v, width, f, 10)) == (v, |Rendered(v, width, f, 10)|)
  {
    hide Numeral, Grouped, NumeralValue, ParsedFrom, Parsed, Body;
    PlainBody(v, f);
    var d := Numeral(v, 10);
    NumeralIsDigits(v);
    NumeralHasItsValue(v, 10);
    var text := Rendered(v, width, f, 10);
    if f.zeroPadded && width > |d| {
      assert text == Copies('0', width - |d|) + d;
      ZerosDoNotCount(width - |d|, d);
    } else {
      assert text == d;
    }
    ParsedIsValue(text);
  }

  lemma NumeralIsLong(n: nat)
    requires n >= 1000
    ensures |Numeral(n, 10)| >= 4
  {
    NumeralStep(n, 10);
    NumeralStep(n / 10, 10);
    NumeralStep(n / 10 / 10, 10);
  }

  lemma SignStandsFirst(v: nat, f: Flags)
    requires v < U32 && (IsNegative(v, f) || f.plus)
    ensures var body := Body(v, f, 10); body != [] && !IsDigit(body[0])
  {
    hide Numeral, Grouped;
    assert Body(v, f, 10)[0] == Sign(v, f)[0];
  }

  lemma CommaStandsFourth(v: nat, f: Flags)
    requires v < U32 && !IsNegative(v, f) && !f.plus && f.grouped && v >= 1000
    ensures var body := Body(v, f, 10); |body| >= 4 && body[|body| - 4] == ','
  {
    hide Numeral, Grouped;
    var d := Numeral(v, 10);
    NumeralIsLong(v);
    NumeralHasNoCommas(v, 10);
    GroupedHasLength(d, 3);
    CommasStandRight(d, 3, 3);
    assert Body(v, f, 10) == Grouped(d, 3);
  }

  /** Some character of the text is not a digit. */
  lemma NotAllDigits(v: nat, width: nat, f: Flags) returns (k: nat)
    requires v < U32 && !ReadsBack(v, width, f)
    ensures k < |Rendered(v, width, f, 10)| && !IsDigit(Rendered(v, width, f, 10)[k])
  {
    hide Numeral, Grouped, Body;
    var body := Body(v, f, 10);
    var pad := Padding(f, width, |body|);
    if IsNegative(v, f) || f.plus {
      SignStandsFirst(v, f);
      k := |pad|;
    } else if f.grouped && v >= 1000 {
      CommaStandsFourth(v, f);
      k := |pad| + |body| - 4;
    } else {
      PlainBody(v, f);
      k := 0;
      assert pad[0] == ' ';
    }
  }

  lemma StopsBefore(s: seq<char>, k: nat)
    requires k < |s| && !IsDigit(s[k])
    ensures Parsed(s).1 != |s|
  {
  }

  /**
   A decimal text reads back as its number, to its end, exactly when it has no
   sign, no group to separate and no spaces in front.
   */
  lemma RoundTripExactly(v: nat, width: nat, f: Flags)
    requires v < U32
    ensures Parsed(Rendered(v, width, f, 10)) == (v, |Rendered(v, width, f, 10)|) <==> ReadsBack(v, width, f)
  {
    if ReadsBack(v, width, f) {
      ReadsBackWhenPlain(v, width, f);
    } else {
      var k := NotAllDigits(v, width, f);
      StopsBefore(Rendered(v, width, f, 10), k);
    }
  }
}
