/** The wrapping of a message into the five lines of the CMOS popup. */
module WordWrap {

  const SPACE: char := ' '
  const NUL: char := '\0'
  /** Characters to a line, which has one more cell for the terminator. */
  const WIDTH: nat := 50
  const LINES: nat := 5

  // -------------------------------------------------------------------------- words

  function WordEnd(s: seq<char>): (k: nat)
    ensures k <= |s|
    ensures forall i :: 0 <= i < k ==> s[i] != SPACE
    ensures k < |s| ==> s[k] == SPACE
  {
    if s == [] || s[0] == SPACE then 0 else 1 + WordEnd(s[1..])
  }

  /** The maximal runs without a space, in order. */
  function Words(s: seq<char>): (ws: seq<seq<char>>)
    decreases |s|
  {
    if s == [] then []
    else if s[0] == SPACE then Words(s[1..])
    else [s[..WordEnd(s)]] + Words(s[WordEnd(s)..])
  }

  function WordsOf(lines: seq<seq<char>>): seq<seq<char>>
  {
    if lines == [] then [] else Words(lines[0]) + WordsOf(lines[1..])
  }

  lemma {:induction false} WordEndOfPrefix(a: seq<char>, b: seq<char>)
    requires b == [] || b[0] == SPACE
    ensures WordEnd(a + b) == WordEnd(a)
    decreases |a|
  {
    if a == [] {
      assert a + b == b;
    } else if a[0] != SPACE {
      assert (a + b)[1..] == a[1..] + b;
      WordEndOfPrefix(a[1..], b);
    }
  }

  /** Cutting a text at a space cuts no word. */
  lemma {:induction false} WordsSplitAtSpace(a: seq<char>, b: seq<char>)
    requires b == [] || b[0] == SPACE
    ensures Words(a + b) == Words(a) + Words(b)
    decreases |a|
  {
    hide WordEnd;
    if a == [] {
      assert a + b == b;
    } else if a[0] == SPACE {
      assert (a + b)[1..] == a[1..] + b;
      WordsSplitAtSpace(a[1..], b);
    } else {
      var k := WordEnd(a);
      WordEndOfPrefix(a, b);
      assert (a + b)[..k] == a[..k] && (a + b)[k..] == a[k..] + b;
      WordsSplitAtSpace(a[k..], b);
    }
  }

  function Blanks(n: nat): (s: seq<char>)
    ensures |s| == n && forall i :: 0 <= i < n ==> s[i] == SPACE
  {
    seq(n, _ => SPACE)
  }

  lemma {:induction false} BlanksHaveNoWords(s: seq<char>)
    requires forall i :: 0 <= i < |s| ==> s[i] == SPACE
    ensures Words(s) == []
    decreases |s|
  {
    if s != [] {
      BlanksHaveNoWords(s[1..]);
    }
  }

  // ----------------------------------------------------------------------- the lines

  function SkipSpaces(m: seq<char>, p: nat): (n: nat)
    requires p <= |m|
    ensures p <= n <= |m|
    ensures forall i :: p <= i < n ==> m[i] == SPACE
    ensures n < |m| ==> m[n] != SPACE
    decreases |m| - p
  {
    if p < |m| && m[p] == SPACE then SkipSpaces(m, p + 1) else p
  }

  /** A line from here can end: the text does, or there is a space to go back to. */
  predicate Breakable(m: seq<char>, p: nat)
  {
    p + WIDTH < |m| ==> exists j: nat :: p <= j <= p + WIDTH && m[j] == SPACE
  }

  /** Going left from `q` to the nearest space; nowhere when the text ends at `q`. */
  function BackToSpace(m: seq<char>, p: nat, q: nat): (r: nat)
    requires p <= q <= |m|
    requires q < |m| ==> exists j: nat :: p <= j <= q && m[j] == SPACE
    ensures p <= r <= q && (r == |m| || m[r] == SPACE)
    ensures r < q ==> q < |m| && forall i :: r < i <= q ==> m[i] != SPACE
    decreases q
  {
    if q == |m| || m[q] == SPACE then q else BackToSpace(m, p, q - 1)
  }

  /** Where the line that starts here ends, and the next one starts. */
  function LineEnd(m: seq<char>, p: nat): (q: nat)
    requires p < |m| && Breakable(m, p)
    ensures p <= q <= |m|
  {
    if p + WIDTH > |m| then |m| else BackToSpace(m, p, p + WIDTH)
  }

  function NextStart(m: seq<char>, p: nat): (n: nat)
    requires p < |m| && Breakable(m, p)
    ensures p < n <= |m|
  {
    SkipSpaces(m, LineEnd(m, p))
  }

  /** Every line from here on can end. */
  predicate Wrappable(m: seq<char>, p: nat)
    requires p <= |m|
    decreases |m| - p
  {
    p < |m| ==> Breakable(m, p) && Wrappable(m, NextStart(m, p))
  }

  /** The text of one line: filled up with blanks when it ran to the edge. */
  function LineText(m: seq<char>, p: nat): (line: seq<char>)
    requires p < |m| && Breakable(m, p)
    ensures |line| <= WIDTH
  {
    var q := LineEnd(m, p);
    if p + WIDTH > |m| then m[p..] else m[p..q] + Blanks(WIDTH - (q - p))
  }

  function Wrapped(m: seq<char>, p: nat): (lines: seq<seq<char>>)
    requires p <= |m| && Wrappable(m, p)
    ensures lines == [] <==> p == |m|
    ensures forall i :: 0 <= i < |lines| ==> |lines[i]| <= WIDTH
    decreases |m| - p
  {
    if p == |m| then [] else [LineText(m, p)] + Wrapped(m, NextStart(m, p))
  }

  // --------------------------------------------------------------- when it can be done

  /** A word of more than a line's width starts here. */
  predicate LongRun(m: seq<char>, i: nat)
  {
    i + WIDTH < |m| && forall j :: i <= j <= i + WIDTH ==> m[j] != SPACE
  }

  lemma {:induction false} WrappableWithoutLongRuns(m: seq<char>, p: nat)
    requires p <= |m|
    ensures Wrappable(m, p) <==> forall i: nat :: p <= i ==> !LongRun(m, i)
    decreases |m| - p
  {
    if p < |m| {
      if Breakable(m, p) {
        WrappableWithoutLongRuns(m, NextStart(m, p));
        forall i: nat | p <= i && LongRun(m, i)
          ensures NextStart(m, p) <= i
        {
          RunsStartLater(m, p, i);
        }
      } else {
        assert LongRun(m, p);
      }
    }
  }

  /** A long run cannot reach over the space a line ends at. */
  lemma RunsStartLater(m: seq<char>, p: nat, i: nat)
    requires p < |m| && Breakable(m, p) && p <= i && LongRun(m, i)
    ensures NextStart(m, p) <= i
  {
    var q := LineEnd(m, p);
    assert q < |m| ==> m[q] == SPACE;
    assert m[i] != SPACE;
  }

  /**
   Going back for a space never leaves the line, on any line of the message, if
   and only if no word is longer than a line.
   */
  lemma WrappableExactly(m: seq<char>)
    ensures Wrappable(m, 0) <==> forall i: nat :: !LongRun(m, i)
  {
    WrappableWithoutLongRuns(m, 0);
  }

  // ------------------------------------------------------------------- nothing is lost

  lemma {:induction false} SkippingKeepsWords(m: seq<char>, p: nat)
    requires p <= |m|
    ensures Words(m[p..]) == Words(m[SkipSpaces(m, p)..])
    decreases |m| - p
  {
    if p < |m| && m[p] == SPACE {
      assert m[p..][1..] == m[p + 1..];
      SkippingKeepsWords(m, p + 1);
    }
  }

  lemma LineHasItsWords(m: seq<char>, p: nat)
    requires p < |m| && Breakable(m, p)
    ensures Words(m[p..]) == Words(LineText(m, p)) + Words(m[NextStart(m, p)..])
  {
    var q := LineEnd(m, p);
    if p + WIDTH > |m| {
      assert m[NextStart(m, p)..] == [];
    } else {
      assert m[p..] == m[p..q] + m[q..];
      WordsSplitAtSpace(m[p..q], m[q..]);
      SkippingKeepsWords(m, q);
      var rest := Blanks(WIDTH - (q - p));
      WordsSplitAtSpace(m[p..q], rest);
      BlanksHaveNoWords(rest);
    }
  }

  lemma WordEndInside(m: seq<char>, n: nat)
    requires n < |m| && m[n] != SPACE
    ensures var e := n + WordEnd(m[n..]);
      n < e <= |m| && (e < |m| ==> m[e] == SPACE) && forall i :: n <= i < e ==> m[i] != SPACE
  {
    var k := WordEnd(m[n..]);
    assert n + k < |m| ==> m[n + k] == m[n..][k];
    forall i | n <= i < n + k
      ensures m[i] != SPACE
    {
      assert m[i] == m[n..][i - n];
    }
  }

  /**
   Lines are as full as can be: what the next line starts with is a word that
   would have gone beyond 50 characters on this one.
   */
  lemma LinesAreFull(m: seq<char>, p: nat)
    requires p < |m| && Breakable(m, p)
    ensures var n := NextStart(m, p);
      n < |m| ==> m[n] != ' ' && n + WordEnd(m[n..]) > p + 50
  {
    hide WordEnd;
    var q, n := LineEnd(m, p), NextStart(m, p);
    if n < |m| {
      WordEndInside(m, n);
      LastSpaceOfLine(m, p);
    }
  }

  /** A line that does not reach the end stops at the last space a line of 50 can stop at. */
  lemma LastSpaceOfLine(m: seq<char>, p: nat)
    requires p < |m| && Breakable(m, p)
    ensures var q := LineEnd(m, p);
      if p + 50 >= |m| then q == |m|
      else p <= q <= p + 50 && m[q] == ' ' && forall i: nat :: q < i <= p + 50 ==> m[i] != ' '
  {
  }

  /** The lines hold the words of the message, whole and in order. */
  lemma {:induction false} WrapKeepsWords(m: seq<char>, p: nat)
    requires p <= |m| && Wrappable(m, p)
    ensures WordsOf(Wrapped(m, p)) == Words(m[p..])
    decreases |m| - p
  {
    if p < |m| {
      LineHasItsWords(m, p);
      WrapKeepsWords(m, NextStart(m, p));
      assert Wrapped(m, p)[1..] == Wrapped(m, NextStart(m, p));
    }
  }

  // ------------------------------------------------------------------------- the loop

  /** The popup's five lines of cells. */
  ghost predicate Sized(lines: array2<char>)
  {
    lines.Length0 == LINES && lines.Length1 == WIDTH + 1
  }

  /** The row holds the text and then terminators. */
  ghost predicate RowIs(lines: array2<char>, row: nat, text: seq<char>)
    requires Sized(lines) && row < LINES
    reads lines
  {
    forall c: nat :: c <= WIDTH ==> lines[row, c] == CellOf(text, c)
  }

  /** A text in cells: its characters, then terminators. */
  function CellOf(text: seq<char>, c: nat): char
  {
    if c < |text| then text[c] else NUL
  }

  function TextAt(texts: seq<seq<char>>, row: nat): seq<char>
  {
    if row < |texts| then texts[row] else []
  }

  /** The first rows hold the texts, the rest are empty. */
  ghost predicate Holds(lines: array2<char>, texts: seq<seq<char>>)
    requires Sized(lines) && |texts| <= LINES
    reads lines
  {
    forall row: nat :: row < LINES ==> RowIs(lines, row, TextAt(texts, row))
  }

  /** Go back over the word that does not fit, blanking what of it was written. */
  method GoBack(m: seq<char>, lines: array2<char>, row: nat, from: nat, ghost start: nat) returns (p: nat)
    requires Sized(lines) && row < LINES && from == start + WIDTH <= |m| && Breakable(m, start)
    requires RowIs(lines, row, m[start..start + WIDTH])
    modifies lines
    ensures p == LineEnd(m, start)
    ensures RowIs(lines, row, LineText(m, start))
    ensures forall r, c :: 0 <= r < LINES && r != row && 0 <= c <= WIDTH ==> lines[r, c] == old(lines[r, c])
  {
    p := from;
    var column := WIDTH;
    while p < |m| && m[p] != SPACE
      invariant start <= p <= start + WIDTH && column == p - start
      decreases p
      invariant p < start + WIDTH ==> start + WIDTH < |m|
      invariant forall j: nat :: p < j <= start + WIDTH && j < |m| ==> m[j] != SPACE
      invariant RowIs(lines, row, m[start..p] + Blanks(WIDTH - column))
      invariant forall r, c :: 0 <= r < LINES && r != row && 0 <= c <= WIDTH ==> lines[r, c] == old(lines[r, c])
    {
      p := p - 1;
      column := column - 1;
      lines[row, column] := SPACE;
    }
    BackToSpaceIsUnique(m, start, p);
  }

  lemma {:induction false} BackIsUnique(m: seq<char>, start: nat, q: nat, p: nat)
    requires start <= p <= q <= |m|
    requires q < |m| ==> exists j: nat :: start <= j <= q && m[j] == SPACE
    requires p == |m| || m[p] == SPACE
    requires (p < q ==> q < |m|) && forall j: nat :: p < j <= q && j < |m| ==> m[j] != SPACE
    ensures p == BackToSpace(m, start, q)
    decreases q
  {
    if p < q {
      assert q < |m| && m[q] != SPACE;
      assert m[p] == SPACE;
      BackIsUnique(m, start, q - 1, p);
    }
  }

  lemma BackToSpaceIsUnique(m: seq<char>, start: nat, p: nat)
    requires start + WIDTH <= |m| && start < |m| && Breakable(m, start) && start <= p <= start + WIDTH
    requires p == |m| || m[p] == SPACE
    requires p < start + WIDTH ==> start + WIDTH < |m|
    requires forall j: nat :: p < j <= start + WIDTH && j < |m| ==> m[j] != SPACE
    ensures p == LineEnd(m, start)
  {
    BackIsUnique(m, start, start + WIDTH, p);
  }

  /** End a full line: go back to a space, then over the spaces to the next line's first character. */
  method EndLine(m: seq<char>, lines: array2<char>, row: nat, from: nat, ghost start: nat) returns (p: nat)
    requires Sized(lines) && row < LINES && from == start + WIDTH <= |m| && Breakable(m, start)
    requires RowIs(lines, row, m[start..from])
    modifies lines
    ensures p == NextStart(m, start)
    ensures RowIs(lines, row, LineText(m, start))
    ensures forall r, c :: 0 <= r < LINES && r != row && 0 <= c <= WIDTH ==> lines[r, c] == old(lines[r, c])
  {
    p := GoBack(m, lines, row, from, start);
    while p < |m| && m[p] == SPACE
      invariant LineEnd(m, start) <= p <= |m|
      invariant SkipSpaces(m, p) == SkipSpaces(m, LineEnd(m, start))
    {
      p := p + 1;
    }
  }

  /** The rows before this one are done, this one holds a piece, the ones after are empty. */
  ghost predicate Underway(lines: array2<char>, done: seq<seq<char>>, piece: seq<char>)
    requires Sized(lines)
    reads lines
  {
    && |done| <= LINES
    && (forall r: nat :: r < |done| ==> RowIs(lines, r, done[r]))
    && (|done| < LINES ==> RowIs(lines, |done|, piece))
    && (forall r: nat :: |done| < r < LINES ==> RowIs(lines, r, []))
  }

  /** The line in progress takes one more character. */
  method PutChar(lines: array2<char>, row: nat, column: nat, c: char, ghost done: seq<seq<char>>, ghost piece: seq<char>)
    requires Sized(lines) && row == |done| < LINES && column == |piece| < WIDTH
    requires Underway(lines, done, piece)
    modifies lines
    ensures Underway(lines, done, piece + [c])
  {
    lines[row, column] := c;
    forall k: nat | k <= WIDTH
      ensures lines[row, k] == CellOf(piece + [c], k)
    {
      assert old(RowIs(lines, row, piece)) && old(lines[row, k]) == CellOf(piece, k);
    }
    forall r: nat | row < r < LINES
      ensures RowIs(lines, r, [])
    {
      assert old(RowIs(lines, r, []));
    }
  }

  lemma WrappedStep(m: seq<char>, start: nat, done: seq<seq<char>>)
    requires start < |m| && Wrappable(m, start)
    ensures done + Wrapped(m, start) == done + [LineText(m, start)] + Wrapped(m, NextStart(m, start))
  {
  }

  /** A short last line is its own text. */
  lemma LastLine(m: seq<char>, start: nat)
    requires start < |m| < start + WIDTH
    ensures Wrappable(m, start) && Wrapped(m, start) == [m[start..]]
  {
  }

  /**
   The wrapping loop. The lines start out empty; a message whose words fit a
   line, and that takes at most five, ends up in them wrapped, and nothing is
   written outside them.
   */
  method Wrap(m: seq<char>, lines: array2<char>)
    requires Sized(lines) && Holds(lines, [])
    requires Wrappable(m, 0) && |Wrapped(m, 0)| <= LINES
    modifies lines
    ensures Holds(lines, Wrapped(m, 0))
  {
    hide Wrapped, Wrappable, Breakable, LineText, NextStart, Holds;
    var p, lineCount, charCount := 0, 1, 1;
    var row, column := 0, 0;
    ghost var start, done := 0, [];
    StartsUnderway(lines);
    while p < |m|
      invariant 1 <= charCount <= WIDTH && p == start + charCount - 1 && p <= |m|
      invariant Wrappable(m, start) && lineCount == |done| + 1
      invariant charCount > 1 ==> row == lineCount - 1 && column == charCount - 1
      invariant Wrapped(m, 0) == done + Wrapped(m, start)
      invariant Underway(lines, done, m[start..p])
      decreases |m| - start, |m| - p
    {
      if charCount == 1 {
        row, column := lineCount - 1, 0;
      }
      assert m[start..p] + [m[p]] == m[start..p + 1];
      PutChar(lines, row, column, m[p], done, m[start..p]);
      column := column + 1;
      p := p + 1;
      charCount := charCount + 1;
      if charCount > WIDTH {
        WrappableHere(m, start);
        WrappedStep(m, start, done);
        label full:
        p := EndLine(m, lines, row, p, start);
        forall r: nat | r < row
          ensures RowIs(lines, r, done[r])
        {
          assert old@full(RowIs(lines, r, done[r]));
        }
        forall r: nat | row < r < LINES
          ensures RowIs(lines, r, [])
        {
          assert old@full(RowIs(lines, r, []));
        }
        done := done + [LineText(m, start)];
        start := p;
        lineCount := lineCount + 1;
        charCount := 1;
        assert m[start..p] == [];
        assert forall r: nat :: r < |done| ==> RowIs(lines, r, done[r]);
      }
    }
    EndsHolding(m, lines, start, done);
  }

  lemma WrappableHere(m: seq<char>, start: nat)
    requires start < |m| && Wrappable(m, start)
    ensures Breakable(m, start) && NextStart(m, start) > start && Wrappable(m, NextStart(m, start))
  {
  }

  lemma StartsUnderway(lines: array2<char>)
    requires Sized(lines) && Holds(lines, [])
    ensures Underway(lines, [], [])
  {
    forall r: nat | r < LINES
      ensures RowIs(lines, r, [])
    {
      assert RowIs(lines, r, TextAt([], r));
    }
  }

  lemma EndsHolding(m: seq<char>, lines: array2<char>, start: nat, done: seq<seq<char>>)
    requires Sized(lines) && start <= |m| < start + WIDTH && Wrappable(m, start)
    requires Underway(lines, done, m[start..]) && |done + Wrapped(m, start)| <= LINES
    ensures Holds(lines, done + Wrapped(m, start))
  {
    if start < |m| {
      LastLine(m, start);
    } else {
      assert m[start..] == [];
    }
  }
}
