/** Character classes and string helpers shared by the scanner and the
    interpretation parser. */
module Text {

  /** The conventional optional value; `peek` and `next` return one. */
  datatype Option<+T> = None | Some(value: T)

  /** `char::is_ascii_digit`. */
  predicate IsDigit(c: char) {
    '0' <= c <= '9'
  }

  /** The only characters the scanner skips: space and tab. */
  predicate IsBlank(c: char) {
    c == ' ' || c == '\t'
  }

  predicate AllDigits(s: string) {
    forall i | 0 <= i < |s| :: IsDigit(s[i])
  }

  /** First character of a string, if any. */
  function First(s: string): (r: Option<char>)
    ensures r.None? <==> |s| == 0
    ensures r.Some? ==> r.value == s[0]
  {
    if |s| == 0 then None else Some(s[0])
  }

  /** The string with every space and tab removed: what a blank-skipping
      scanner gets to see. */
  function Strip(s: string): (r: string)
    ensures |r| <= |s|
    ensures forall i | 0 <= i < |r| :: !IsBlank(r[i])
  {
    if |s| == 0 then ""
    else (if IsBlank(s[0]) then "" else [s[0]]) + Strip(s[1..])
  }

  /** Removing blanks works piece by piece. */
  lemma {:induction false} StripConcat(a: string, b: string)
    ensures Strip(a + b) == Strip(a) + Strip(b)
    decreases |a|
  {
    if |a| > 0 {
      assert (a + b)[1..] == a[1..] + b;
      StripConcat(a[1..], b);
    } else {
      assert a + b == b;
    }
  }

  /** Text without blanks is left as it is. */
  lemma {:induction false} StripKeeps(a: string)
    requires forall i | 0 <= i < |a| :: !IsBlank(a[i])
    ensures Strip(a) == a
    decreases |a|
  {
    if |a| > 0 {
      StripKeeps(a[1..]);
    }
  }

  /** Two splits of one string with the same first part have the same
      second part. */
  lemma Unprefix(p: string, x: string, a: string, b: string)
    requires p == x + a && p == x + b
    ensures a == b
  {
    assert a == p[|x|..];
    assert b == p[|x|..];
  }

  /** Regrouping a string split in three. */
  lemma Regroup(p: string, x: string, q: string, y: string, t: string)
    requires p == x + q && q == y + t
    ensures p == (x + y) + t
  {
  }

  /** The longest prefix of `s` made of ASCII digits. */
  function DigitPrefix(s: string): (r: string)
    ensures AllDigits(r)
    ensures r <= s
    ensures |r| < |s| ==> !IsDigit(s[|r|])
  {
    if |s| > 0 && IsDigit(s[0]) then [s[0]] + DigitPrefix(s[1..]) else ""
  }

  /** The digit prefix of digits followed by a non-digit is those digits. */
  lemma {:induction false} DigitPrefixOf(d: string, tail: string)
    requires AllDigits(d)
    requires tail == "" || !IsDigit(tail[0])
    ensures DigitPrefix(d + tail) == d
    decreases |d|
  {
    if |d| > 0 {
      assert (d + tail)[1..] == d[1..] + tail;
      DigitPrefixOf(d[1..], tail);
      assert d == [d[0]] + d[1..];
    } else {
      assert d + tail == tail;
    }
  }

  /** A leading digit belongs to the digit prefix. */
  lemma DigitPrefixCons(p: string, c: char, q: string)
    requires p == [c] + q && IsDigit(c)
    ensures DigitPrefix(p) == [c] + DigitPrefix(q)
  {
    assert p[1..] == q;
  }

  /** `slice.join(sep)` on a vector of strings. */
  function Join(parts: seq<string>, sep: string): string
  {
    if |parts| == 0 then ""
    else if |parts| == 1 then parts[0]
    else parts[0] + sep + Join(parts[1..], sep)
  }
}
