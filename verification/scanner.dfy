/** The character scanner `Parser` of src/models/data_structures.rs: a cursor
    over the input characters with a position, a 1-based line number and a
    0-based position within the line. The Rust struct is mutated in place;
    here every operation returns the new scanner state. */
module Scanning {
  import opened Text

  datatype Scanner = Scanner(input: seq<char>, pos: nat, line: nat, col: nat)

  /** A value produced by a scanner operation, with the state after it. */
  datatype Step<+T> = Step(value: T, rest: Scanner)

  /** The cursor lies within the input (the struct's private invariant). */
  predicate Valid(s: Scanner) {
    s.pos <= |s.input|
  }

  /** `t` is a later state of `s`: same input, cursor not moved back. */
  predicate Stays(s: Scanner, t: Scanner) {
    && t.input == s.input
    && s.pos <= t.pos
    && (Valid(s) ==> Valid(t))
  }

  /** `t` is a later state of `s` after at least one character was consumed. */
  predicate Consumed(s: Scanner, t: Scanner) {
    && t.input == s.input
    && s.pos < t.pos <= |s.input|
  }

  /** The characters at and after position `p` that are not blanks. */
  function Unread(xs: seq<char>, p: nat): string
    decreases |xs| - p
  {
    if p >= |xs| then ""
    else if IsBlank(xs[p]) then Unread(xs, p + 1)
    else [xs[p]] + Unread(xs, p + 1)
  }

  /** What is left for the scanner to return: the rest of the input with the
      blanks it skips removed. */
  function Pending(s: Scanner): string {
    Unread(s.input, s.pos)
  }

  /** `Unread` is `Strip` of the suffix. */
  lemma {:induction false} UnreadIsStrip(xs: seq<char>, p: nat)
    requires p <= |xs|
    ensures Unread(xs, p) == Strip(xs[p..])
    decreases |xs| - p
  {
    if p < |xs| {
      UnreadIsStrip(xs, p + 1);
      assert xs[p..][1..] == xs[p + 1..];
    }
  }

  /** What is pending later is a suffix of what is pending earlier. */
  lemma {:induction false} UnreadSuffix(xs: seq<char>, p: nat, q: nat)
    requires p <= q
    ensures |Unread(xs, q)| <= |Unread(xs, p)|
    ensures Unread(xs, p)[|Unread(xs, p)| - |Unread(xs, q)|..] == Unread(xs, q)
    decreases q - p
  {
    if p < q {
      UnreadSuffix(xs, p + 1, q);
    }
  }

  /** Moving forward only drops pending characters from the front. */
  lemma PendingSuffix(s: Scanner, t: Scanner)
    requires t.input == s.input && s.pos <= t.pos
    ensures |Pending(t)| <= |Pending(s)|
    ensures Pending(s)[|Pending(s)| - |Pending(t)|..] == Pending(t)
  {
    UnreadSuffix(s.input, s.pos, t.pos);
  }

  /** `Parser::new`: cursor on the first character of line 1. */
  function New(input: seq<char>): (s: Scanner)
    ensures Valid(s) && s.input == input
    ensures Pending(s) == Strip(input)
    ensures s.line == 1 && s.col == 0 && s.pos == 0
  {
    UnreadIsStrip(input, 0);
    assert input[0..] == input;
    Scanner(input, 0, 1, 0)
  }

  /** The loop of `peek`: move over spaces and tabs, leaving line and column
      alone. */
  function SkipBlanks(s: Scanner): (t: Scanner)
    decreases |s.input| - s.pos
    ensures t == s.(pos := t.pos)
    ensures s.pos <= t.pos
    ensures t.pos == s.pos || t.pos <= |s.input|
    ensures forall k | s.pos <= k < t.pos :: IsBlank(s.input[k])
    ensures t.pos < |s.input| ==> !IsBlank(s.input[t.pos])
  {
    if s.pos < |s.input| && IsBlank(s.input[s.pos]) then SkipBlanks(s.(pos := s.pos + 1))
    else s
  }

  /** Blanks between two positions do not change what is pending. */
  lemma {:induction false} SkippedBlanksKeepPending(s: Scanner, t: Scanner)
    requires t == s.(pos := t.pos) && s.pos <= t.pos
    requires t.pos == s.pos || t.pos <= |s.input|
    requires forall k | s.pos <= k < t.pos :: IsBlank(s.input[k])
    ensures Pending(t) == Pending(s)
    decreases t.pos - s.pos
  {
    if s.pos < t.pos {
      SkippedBlanksKeepPending(s.(pos := s.pos + 1), t);
    }
  }

  /** `peek`: the first non-blank character at or after the cursor, or None
      when only blanks remain; the cursor moves onto it. */
  function Peek(s: Scanner): (r: Step<Option<char>>)
    ensures r.rest == s.(pos := r.rest.pos)
    ensures Stays(s, r.rest)
    ensures r.value == First(Pending(s))
    ensures Pending(r.rest) == Pending(s)
  {
    var t := SkipBlanks(s);
    SkippedBlanksKeepPending(s, t);
    if t.pos < |t.input| then Step(Some(t.input[t.pos]), t) else Step(None, t)
  }

  /** `peek` returns the first character at or after the cursor that is not
      a space or a tab, or None if only such characters remain; it moves the
      cursor over the blanks before it and nothing else. */
  lemma PeekScans(s: Scanner)
    ensures var r := Peek(s);
      && r.rest == s.(pos := r.rest.pos)
      && s.pos <= r.rest.pos
      && (Valid(s) ==> Valid(r.rest))
      && (r.rest.pos == s.pos || r.rest.pos <= |s.input|)
      && (forall k | s.pos <= k < r.rest.pos :: IsBlank(s.input[k]))
      && (r.value.None? <==> r.rest.pos >= |s.input|)
      && (r.value.Some? ==> r.value.value == s.input[r.rest.pos] && !IsBlank(r.value.value))
  {
  }

  /** The last character `Advance` consumed was a line break. */
  predicate EndsLine(s: Scanner, t: Scanner)
    requires t.input == s.input
    requires t.pos == s.pos || s.pos < t.pos <= |s.input|
  {
    s.pos < t.pos && s.input[t.pos - 1] == '\n'
  }

  /** `advance`: consume spaces and tabs, counting each in the column, then
      consume one further character: a line break starts the next line at
      column 0, anything else adds 1 to the column. */
  function Advance(s: Scanner): (t: Scanner)
    decreases |s.input| - s.pos
    ensures t.input == s.input
    ensures t.pos == s.pos || s.pos < t.pos <= |s.input|
    ensures s.pos < |s.input| ==> s.pos < t.pos
    ensures t.pos == s.pos ==> t == s
    ensures Valid(s) ==> Valid(t)
    ensures forall k | s.pos <= k < t.pos - 1 :: IsBlank(s.input[k])
    ensures t.pos < |s.input| && s.pos < t.pos ==> !IsBlank(s.input[t.pos - 1])
    ensures EndsLine(s, t) ==> t.line == s.line + 1 && t.col == 0
    ensures !EndsLine(s, t) ==> t.line == s.line && t.col == s.col + (t.pos - s.pos)
  {
    if s.pos < |s.input| then
      var c := s.input[s.pos];
      if IsBlank(c) then Advance(s.(pos := s.pos + 1, col := s.col + 1))
      else if c == '\n' then s.(pos := s.pos + 1, line := s.line + 1, col := 0)
      else s.(pos := s.pos + 1, col := s.col + 1)
    else s
  }

  /** `next`: return what `peek` returns and advance past it. */
  function Next(s: Scanner): (r: Step<Option<char>>)
    ensures r.value == Peek(s).value
    ensures Stays(s, r.rest)
    ensures r.value.Some? ==> Consumed(s, r.rest)
    ensures r.value == First(Pending(s))
    ensures r.value.None? ==> Pending(s) == "" && Pending(r.rest) == ""
    ensures r.value.Some? ==> Pending(s) == [r.value.value] + Pending(r.rest)
  {
    var p := Peek(s);
    var t := Advance(p.rest);
    AdvanceFromPeek(p.rest, t);
    Step(p.value, t)
  }

  /** What `next` consumes and how it moves the line and column: exactly one
      non-blank character after skipped blanks; a line break moves to column
      0 of the next line, any other character adds 1 to the column, and the
      blanks `peek` skipped are not counted. At the end of the input only the
      cursor moves, to the end. */
  lemma NextScans(s: Scanner)
    ensures var r := Next(s);
      && (r.value.Some? ==>
            && s.pos < r.rest.pos <= |s.input|
            && s.input[r.rest.pos - 1] == r.value.value
            && (forall k | s.pos <= k < r.rest.pos - 1 :: IsBlank(s.input[k])))
      && (r.value == Some('\n') ==> r.rest.line == s.line + 1 && r.rest.col == 0)
      && (r.value.Some? && r.value.value != '\n' ==> r.rest.line == s.line && r.rest.col == s.col + 1)
      && (r.value.None? ==> r.rest.line == s.line && r.rest.col == s.col)
      && (r.value.None? && Valid(s) ==> r.rest.pos == |s.input|)
  {
    var p := Peek(s);
    PeekScans(s);
    AdvanceFromPeek(p.rest, Advance(p.rest));
  }

  /** From a position `peek` left, `advance` consumes exactly one character. */
  lemma AdvanceFromPeek(s: Scanner, t: Scanner)
    requires s.pos < |s.input| ==> !IsBlank(s.input[s.pos])
    requires t == Advance(s)
    ensures s.pos < |s.input| ==> t.pos == s.pos + 1 && Pending(s) == [s.input[s.pos]] + Pending(t)
  {
  }

  /** A second `peek` finds the same character and moves nothing. */
  lemma PeekIdempotent(s: Scanner)
    ensures Peek(Peek(s).rest) == Peek(s)
  {
  }
}
