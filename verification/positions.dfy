/** Line and column bookkeeping of the scanner. The Rust fields are `u32`;
    here they are unbounded. Under `Consistent` the position and the column
    never exceed the input length and the line never exceeds it by more than
    one, so no counter wraps for inputs shorter than 2^32 - 1 characters. */
module Positions {
  import opened Text
  import opened Scanning

  /** Number of line breaks among the first `p` characters. */
  function NewlinesBefore(xs: seq<char>, p: nat): (n: nat)
    requires p <= |xs|
    ensures n <= p
  {
    if p == 0 then 0
    else NewlinesBefore(xs, p - 1) + (if xs[p - 1] == '\n' then 1 else 0)
  }

  /** Index of the first character of the line holding position `p`. */
  function LineStart(xs: seq<char>, p: nat): (q: nat)
    requires p <= |xs|
    ensures q <= p
    ensures forall k | q <= k < p :: xs[k] != '\n'
    ensures q > 0 ==> xs[q - 1] == '\n'
  {
    if p == 0 then 0
    else if xs[p - 1] == '\n' then p
    else LineStart(xs, p - 1)
  }

  /** The line number counts the line breaks passed, and the column never
      reaches back past the start of the current line. The column may lag
      behind the true offset, because blanks skipped by `peek` are not
      counted. */
  predicate Consistent(s: Scanner) {
    && Valid(s)
    && s.line == 1 + NewlinesBefore(s.input, s.pos)
    && s.col <= s.pos - LineStart(s.input, s.pos)
  }

  /** A fresh scanner is consistent. */
  lemma NewConsistent(input: seq<char>)
    ensures Consistent(New(input))
  {
  }

  /** Every line break before a position lies before its line's start, so
      the line number and the column together stay within the position. */
  lemma {:induction false} NewlinesBeforeLineStart(xs: seq<char>, p: nat)
    requires p <= |xs|
    ensures NewlinesBefore(xs, p) <= LineStart(xs, p)
    decreases p
  {
    if p > 0 && xs[p - 1] != '\n' {
      NewlinesBeforeLineStart(xs, p - 1);
    }
  }

  /** Bounds on the counters of a consistent scanner. */
  lemma ConsistentBounds(s: Scanner)
    requires Consistent(s)
    ensures s.line - 1 + s.col <= s.pos <= |s.input|
    ensures s.line <= |s.input| + 1 && s.col <= |s.input|
  {
    NewlinesBeforeLineStart(s.input, s.pos);
  }

  /** Largest value of a Rust `u32`. */
  const U32Max: nat := 0xFFFF_FFFF

  /** On inputs of fewer than 2^32 - 1 characters every counter fits its
      `u32` field; the line number is the one that needs the margin. */
  lemma CountersFit(s: Scanner)
    requires Consistent(s) && |s.input| < U32Max
    ensures s.pos <= U32Max && s.line <= U32Max && s.col <= U32Max
  {
    ConsistentBounds(s);
  }

  /** The line bound is reached: after the two line breaks of a two-character
      input the line number is 3. */
  lemma LineReachesLengthPlusOne()
    ensures var s := Advance(Advance(New("\n\n"))); Consistent(s) && s.line == |s.input| + 1
  {
    NewConsistent("\n\n");
    AdvanceConsistent(New("\n\n"));
    AdvanceConsistent(Advance(New("\n\n")));
  }

  /** Moving the cursor over a character that is not a line break keeps the
      line count and the line start. */
  lemma StepOverOrdinary(xs: seq<char>, p: nat)
    requires p < |xs| && xs[p] != '\n'
    ensures NewlinesBefore(xs, p + 1) == NewlinesBefore(xs, p)
    ensures LineStart(xs, p + 1) == LineStart(xs, p)
  {
  }

  /** `peek` keeps a scanner consistent. */
  lemma {:induction false} SkipBlanksConsistent(s: Scanner)
    requires Consistent(s)
    ensures Consistent(SkipBlanks(s))
    decreases |s.input| - s.pos
  {
    if s.pos < |s.input| && IsBlank(s.input[s.pos]) {
      StepOverOrdinary(s.input, s.pos);
      SkipBlanksConsistent(s.(pos := s.pos + 1));
    }
  }

  lemma PeekConsistent(s: Scanner)
    requires Consistent(s)
    ensures Consistent(Peek(s).rest)
  {
    SkipBlanksConsistent(s);
  }

  /** `advance` keeps a scanner consistent. */
  lemma {:induction false} AdvanceConsistent(s: Scanner)
    requires Consistent(s)
    ensures Consistent(Advance(s))
    decreases |s.input| - s.pos
  {
    if s.pos < |s.input| {
      var c := s.input[s.pos];
      if c == '\n' {
        assert Advance(s) == s.(pos := s.pos + 1, line := s.line + 1, col := 0);
        assert LineStart(s.input, s.pos + 1) == s.pos + 1;
      } else {
        StepOverOrdinary(s.input, s.pos);
        var s' := s.(pos := s.pos + 1, col := s.col + 1);
        assert Consistent(s');
        if IsBlank(c) {
          AdvanceConsistent(s');
        } else {
          assert Advance(s) == s';
        }
      }
    }
  }

  /** `next` keeps a scanner consistent. */
  lemma NextConsistent(s: Scanner)
    requires Consistent(s)
    ensures Consistent(Next(s).rest)
  {
    PeekConsistent(s);
    AdvanceConsistent(Peek(s).rest);
  }
}
