/** The debug port's string sender: line by line, with an 8-bit length. */
module LineSender {

  const LF: char := '\n'
  const CR: char := '\r'
  const U8: nat := 256
  /** The longest line, its line feed included, that the 8-bit length allows. */
  const LONGEST: nat := 254

  /** What the other end should see: every line feed preceded by a carriage return. */
  function Expanded(s: seq<char>): (r: seq<char>)
    ensures |r| >= |s|
  {
    if s == [] then [] else (if s[0] == LF then [CR] else []) + [s[0]] + Expanded(s[1..])
  }

  /** How many characters of a line of this length are sent: its length in 8 bits, or none. */
  function SentOf(length: nat): (n: nat)
    ensures n <= length
  {
    var len := length % U8;
    if len == U8 - 1 then 0 else len
  }

  /** The end of a line is what is sent of it. */
  function SentLine(line: seq<char>): seq<char>
  {
    Expanded(line[|line| - SentOf(|line|)..])
  }

  /** The length of the first line, its line feed included. */
  function FirstLine(s: seq<char>): (k: nat)
    requires s != []
    ensures 1 <= k <= |s|
    ensures forall i :: 0 <= i < k - 1 ==> s[i] != LF
    ensures s[k - 1] == LF || k == |s|
  {
    if s[0] == LF || |s| == 1 then 1 else 1 + FirstLine(s[1..])
  }

  /** What is sent of a whole string. */
  function Sent(s: seq<char>): seq<char>
    decreases |s|
  {
    if s == [] then [] else SentLine(s[..FirstLine(s)]) + Sent(s[FirstLine(s)..])
  }

  /** No line is longer than the length allows. */
  predicate ShortLines(s: seq<char>)
    decreases |s|
  {
    s != [] ==> FirstLine(s) <= LONGEST && ShortLines(s[FirstLine(s)..])
  }

  lemma {:induction false} ExpandedJoins(a: seq<char>, b: seq<char>)
    ensures Expanded(a + b) == Expanded(a) + Expanded(b)
    decreases |a|
  {
    if a == [] {
      assert a + b == b;
    } else {
      assert (a + b)[1..] == a[1..] + b;
      ExpandedJoins(a[1..], b);
    }
  }

  /** A line arrives whole exactly when it is short enough; otherwise something is missing. */
  lemma SentLineIsWhole(line: seq<char>)
    ensures |SentLine(line)| <= |Expanded(line)|
    ensures SentLine(line) == Expanded(line) <==> |line| <= LONGEST
    ensures |line| > LONGEST ==> |SentLine(line)| < |Expanded(line)|
    ensures SentLine(line) == if |line| % 256 == 255 then [] else Expanded(line[|line| - |line| % 256..])
  {
    hide Expanded, SentOf;
    NothingExpanded();
    SentOfLength(|line|);
    SentOfAll(|line|);
    var k := |line| - SentOf(|line|);
    assert line == line[..k] + line[k..];
    ExpandedJoins(line[..k], line[k..]);
    if |line| <= LONGEST {
      assert line[0..] == line;
    }
  }

  lemma SentOfLength(length: nat)
    ensures SentOf(length) == if length % 256 == 255 then 0 else length % 256
  {
  }

  lemma SentOfAll(length: nat)
    ensures SentOf(length) == length <==> length <= LONGEST
  {
  }

  lemma {:induction false} SentIsNoLonger(s: seq<char>)
    ensures |Sent(s)| <= |Expanded(s)|
    ensures !ShortLines(s) ==> |Sent(s)| < |Expanded(s)|
    ensures ShortLines(s) ==> Sent(s) == Expanded(s)
    decreases |s|
  {
    if s != [] {
      var k := FirstLine(s);
      assert s == s[..k] + s[k..];
      ExpandedJoins(s[..k], s[k..]);
      SentLineIsWhole(s[..k]);
      SentIsNoLonger(s[k..]);
    }
  }

  /**
   The string arrives exactly, with its line feeds expanded, if and only if no
   line has more than 254 characters.
   */
  lemma SentExactly(s: seq<char>)
    ensures Sent(s) == Expanded(s) <==> ShortLines(s)
  {
    SentIsNoLonger(s);
  }

  /** From here on 254 characters pass without a line feed, and another one follows. */
  predicate LongLineAt(s: seq<char>, i: nat)
  {
    i + 255 <= |s| && forall j :: i <= j < i + 254 ==> s[j] != '\n'
  }

  /** Which strings those are, character by character. */
  lemma {:induction false} ShortLinesExactly(s: seq<char>)
    ensures ShortLines(s) <==> forall i: nat :: !LongLineAt(s, i)
    decreases |s|
  {
    if s != [] {
      var k := FirstLine(s);
      var t := s[k..];
      ShortLinesExactly(t);
      FirstLineWindow(s);
      if ShortLines(s) {
        forall i: nat
          ensures !LongLineAt(s, i)
        {
          if i >= k {
            Shifted(s, k, i);
          }
        }
      } else if k <= LONGEST {
        var i: nat :| LongLineAt(t, i);
        Shifted(s, k, i);
        assert LongLineAt(s, k + i);
      }
    }
  }

  lemma FirstLineWindow(s: seq<char>)
    requires s != []
    ensures if FirstLine(s) > LONGEST then LongLineAt(s, 0) else forall i: nat :: i < FirstLine(s) ==> !LongLineAt(s, i)
  {
    var k := FirstLine(s);
    forall i: nat | i < k <= LONGEST && i + 255 <= |s|
      ensures !LongLineAt(s, i)
    {
      assert s[k - 1] == '\n';
    }
  }

  lemma Shifted(s: seq<char>, k: nat, i: nat)
    requires k <= |s|
    ensures LongLineAt(s[k..], i) <==> LongLineAt(s, k + i)
    ensures i >= k ==> (LongLineAt(s[k..], i - k) <==> LongLineAt(s, i))
  {
    var t := s[k..];
    assert forall j :: 0 <= j < |t| ==> t[j] == s[k + j];
    assert forall j :: k <= j < |s| ==> s[j] == t[j - k];
  }

  lemma {:induction false} FirstLineEndsAt(s: seq<char>, k: nat)
    requires 1 <= k <= |s| && forall i :: 0 <= i < k - 1 ==> s[i] != LF
    requires s[k - 1] == LF || k == |s|
    ensures FirstLine(s) == k
    decreases |s|
  {
    if k > 1 {
      FirstLineEndsAt(s[1..], k - 1);
    }
  }

  /** The line found between `start` and the line feed at `p`, after what is already out. */
  lemma LineStep(s: seq<char>, start: nat, p: nat, out: seq<char>)
    requires start <= p < |s| && s[p] == LF && forall i :: start <= i < p ==> s[i] != LF
    ensures out + Sent(s[start..]) == out + Expanded(s[p + 1 - SentOf(p + 1 - start)..p + 1]) + Sent(s[p + 1..])
  {
    hide Expanded, SentOf, Sent;
    var t, k := s[start..], p + 1 - start;
    FirstLineEndsAt(t, k);
    SentStartsWithLine(t);
    assert t[k..] == s[p + 1..];
    assert t[..k][k - SentOf(k)..] == s[p + 1 - SentOf(k)..p + 1];
  }

  lemma SentStartsWithLine(s: seq<char>)
    requires s != []
    ensures Sent(s) == SentLine(s[..FirstLine(s)]) + Sent(s[FirstLine(s)..])
  {
  }

  /** The characters after the last line feed. */
  lemma LastLine(s: seq<char>, start: nat)
    requires start <= |s| && forall i :: start <= i < |s| ==> s[i] != LF
    ensures Sent(s[start..]) == Expanded(s[|s| - SentOf(|s| - start)..|s|])
  {
    var t := s[start..];
    if t != [] {
      FirstLineEndsAt(t, |t|);
      assert t[..|t|] == t && t[|t|..] == [];
      assert t[|t| - SentOf(|t|)..] == s[|s| - SentOf(|t|)..|s|];
    }
  }

  class Port {
    /** All that was put out so far. */
    var output: seq<char>

    constructor ()
      ensures output == []
    {
      output := [];
    }

    method PutChar(c: char)
      modifies this
      ensures output == old(output) + [c]
    {
      output := output + [c];
    }

    /** Send all but the last of `length` characters; the length counts a terminator. */
    method SendStrLen(s: seq<char>, length: nat)
      requires length < U8 && (length == 0 || length - 1 <= |s|)
      modifies this
      ensures output == old(output) + Expanded(s[..if length == 0 then 0 else length - 1])
    {
      hide Expanded;
      var i := 0;
      NothingExpanded();
      assert s[..0] == [];
      while i < length - 1
        invariant 0 <= i && (i <= length - 1 || i == 0)
        invariant output == old(output) + Expanded(s[..i])
      {
        OneMoreExpanded(s, i);
        if s[i] == LF {
          PutChar(CR);
        }
        PutChar(s[i]);
        i := i + 1;
      }
    }

    /** Send a string, a line at a time; the length of the line so far is kept in 8 bits. */
    method SendString(s: seq<char>)
      modifies this
      ensures output == old(output) + Sent(s)
    {
      hide Sent, Expanded, SentOf;
      var p, length := 0, 0;
      ghost var start := 0;
      assert s[0..] == s;
      while p < |s|
        invariant start <= p <= |s| && length == (p - start) % U8
        invariant forall i :: start <= i < p ==> s[i] != LF
        invariant output + Sent(s[start..]) == old(output) + Sent(s)
      {
        NextLength(p - start);
        length := (length + 1) % U8;
        if s[p] == LF {
          LineStep(s, start, p, output);
          SendLine(s, p + 1, length, p + 1 - start);
          start := p + 1;
          length := 0;
        }
        p := p + 1;
      }
      LastLine(s, start);
      SendLine(s, p, length, p - start);
    }

    /** The call for one line: its start and its length plus one are both taken in 8 bits. */
    method SendLine(s: seq<char>, end: nat, length: nat, ghost whole: nat)
      requires whole <= end <= |s| && length == whole % U8
      modifies this
      ensures output == old(output) + Expanded(s[end - SentOf(whole)..end])
    {
      assert s[end - length..end][..length] == s[end - length..end];
      SendStrLen(s[end - length..end], (length + 1) % U8);
      if length == U8 - 1 {
        assert s[end..end] == [];
      }
    }
  }

  lemma NextLength(n: nat)
    ensures (n % U8 + 1) % U8 == (n + 1) % U8
  {
  }

  lemma NothingExpanded()
    ensures Expanded([]) == []
  {
  }

  lemma OneMoreExpanded(s: seq<char>, i: nat)
    requires i < |s|
    ensures Expanded(s[..i + 1]) == Expanded(s[..i]) + if s[i] == LF then [CR] + [LF] else [s[i]]
  {
    assert s[..i + 1] == s[..i] + [s[i]];
    ExpandedJoins(s[..i], [s[i]]);
  }
}
