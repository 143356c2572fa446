/** What the token readers of the interpretation parser consume and return,
    stated on the pending text: numbers, degrees, argument lists, and the
    monomial renderer with a decoder that inverts it. */
module TokenProperties {
  import opened Text
  import opened Scanning
  import opened Interpret
  import opened Steps

  /** The digit loop reads exactly the longest digit prefix of the pending
      text, and nothing else. */
  lemma {:induction false} ReadDigitsSpec(s: Scanner)
    ensures var r := ReadDigits(s);
      && r.value == DigitPrefix(Pending(s))
      && Pending(s) == r.value + Pending(r.rest)
    decreases |s.input| - s.pos
  {
    var p := Peek(s);
    if p.value.Some? && IsDigit(p.value.value) {
      var c := p.value.value;
      var n := Next(p.rest);
      ReadDigitsSpec(n.rest);
      ReadDigitsTake(s, c);
      var more := ReadDigits(n.rest);
      DigitPrefixCons(Pending(s), c, Pending(n.rest));
      Regroup(Pending(s), [c], Pending(n.rest), more.value, Pending(more.rest));
    } else {
      ReadDigitsStop(s);
      assert Pending(s) == "" + Pending(s);
    }
  }

  /** `parse_number_string` fails exactly when the digit run is `0`; when it
      succeeds it returns the whole digit run and consumes just that. */
  lemma ParseNumberSpec(s: Scanner)
    ensures var r := ParseNumber(s);
      && (r.Err? <==> DigitPrefix(Pending(s)) == "0")
      && (r.Ok? ==> r.value == DigitPrefix(Pending(s)) && Pending(s) == r.value + Pending(r.rest))
  {
    ReadDigitsSpec(s);
  }

  /** Reading a written numeral followed by a non-digit returns it. */
  lemma ParseNumberReads(s: Scanner, d: string, tail: string)
    requires AllDigits(d) && d != "0"
    requires tail == "" || !IsDigit(tail[0])
    requires Pending(s) == d + tail
    ensures var r := ParseNumber(s); r.Ok? && r.value == d && Pending(r.rest) == tail
  {
    DigitPrefixOf(d, tail);
    ParseNumberSpec(s);
    Unprefix(Pending(s), d, Pending(ParseNumber(s).rest), tail);
  }

  /** A degree is `{`, a digit run and `}`: on such text `parse_degree`
      returns the digits and consumes the braces, and it refuses the digit
      run `0`. */
  lemma ParseDegreeReads(s: Scanner, d: string, tail: string)
    requires AllDigits(d)
    requires Pending(s) == "{" + (d + ("}" + tail))
    ensures var r := ParseDegree(s);
      && (d == "0" ==> r == Err(ZeroNumber))
      && (d != "0" ==> r.Ok? && r.value == d && Pending(r.rest) == tail)
  {
    var s1 := ReadExactChar(s, '{').rest;
    Unprefix(Pending(s), "{", Pending(s1), d + ("}" + tail));
    DigitPrefixOf(d, "}" + tail);
    ParseNumberSpec(s1);
    if d != "0" {
      var s2 := ParseNumber(s1).rest;
      Unprefix(Pending(s1), d, Pending(s2), "}" + tail);
      var s3 := ReadExactChar(s2, '}').rest;
      Unprefix(Pending(s2), "}", Pending(s3), tail);
    }
  }

  /** Whatever `parse_degree` accepts was written `{digits}`. */
  lemma ParseDegreeSound(s: Scanner)
    requires ParseDegree(s).Ok?
    ensures var r := ParseDegree(s);
      Pending(s) == "{" + (r.value + ("}" + Pending(r.rest)))
  {
    var s1 := ReadExactChar(s, '{').rest;
    ParseNumberSpec(s1);
    var s2 := ParseNumber(s1).rest;
    var s3 := ReadExactChar(s2, '}').rest;
    assert Pending(s1) == ParseNumber(s1).value + ("}" + Pending(s3));
  }

  /** The written form of a longer argument list. */
  lemma ArgumentsTextCons(vs: seq<char>, tail: string)
    requires |vs| > 1
    ensures ArgumentsText(vs) + tail == [vs[0]] + ("," + (ArgumentsText(vs[1..]) + tail))
  {
    var a := ArgumentsText(vs[1..]);
    assert ArgumentsText(vs) == [vs[0], ','] + a;
    ArgumentsRegroup(vs[0], a, tail);
  }

  lemma ArgumentsRegroup(v: char, a: string, tail: string)
    ensures ([v, ','] + a) + tail == [v] + ("," + (a + tail))
  {
    assert [v, ','] == [v] + ",";
  }

  /** Whatever the argument loop accepts was written `a,b,...)`. */
  lemma {:induction false} ReadArgumentsSound(alpha: CharClass, s: Scanner)
    requires ReadArguments(alpha, s).Ok?
    ensures var r := ReadArguments(alpha, s);
      Pending(s) == ArgumentsText(r.value) + Pending(r.rest)
    decreases |s.input| - s.pos
  {
    ReadArgumentsCases(alpha, s);
    var pv := ParseVariable(alpha, s);
    var v := pv.value;
    var n := Next(pv.rest);
    if n.value == Some(')') {
      Regroup(Pending(s), [v], Pending(pv.rest), ")", Pending(n.rest));
      assert ArgumentsText([v]) == [v] + ")";
    } else {
      var r := ReadArguments(alpha, n.rest);
      ReadArgumentsSound(alpha, n.rest);
      ArgumentsTextCons([v] + r.value, Pending(r.rest));
      assert ([v] + r.value)[1..] == r.value;
    }
  }

  /** The argument loop reads back every written argument list of alphabetic
      names, in order. */
  lemma {:induction false} ReadArgumentsReads(alpha: CharClass, s: Scanner, vs: seq<char>, tail: string)
    requires |vs| > 0 && forall i | 0 <= i < |vs| :: alpha(vs[i])
    requires Pending(s) == ArgumentsText(vs) + tail
    ensures var r := ReadArguments(alpha, s); r.Ok? && r.value == vs && Pending(r.rest) == tail
    decreases |vs|
  {
    var pv := ParseVariable(alpha, s);
    var n := Next(pv.rest);
    if |vs| == 1 {
      assert ArgumentsText(vs) + tail == [vs[0]] + (")" + tail);
      Unprefix(Pending(s), [vs[0]], Pending(pv.rest), ")" + tail);
      Unprefix(Pending(pv.rest), ")", Pending(n.rest), tail);
      ReadArgumentsLast(alpha, s, vs[0], pv.rest);
      assert [vs[0]] == vs;
    } else {
      ArgumentsTextCons(vs, tail);
      Unprefix(Pending(s), [vs[0]], Pending(pv.rest), "," + (ArgumentsText(vs[1..]) + tail));
      Unprefix(Pending(pv.rest), ",", Pending(n.rest), ArgumentsText(vs[1..]) + tail);
      ReadArgumentsReads(alpha, n.rest, vs[1..], tail);
      var r := ReadArguments(alpha, n.rest);
      ReadArgumentsMore(alpha, s, vs[0], pv.rest, r.value, r.rest);
      assert [vs[0]] + vs[1..] == vs;
    }
  }

  /** After an argument, a character other than `,` and `)` is refused. */
  lemma ArgumentSeparatorRefused(alpha: CharClass, s: Scanner, v: char, c: char, tail: string)
    requires alpha(v) && c != ',' && c != ')'
    requires Pending(s) == [v] + ([c] + tail)
    ensures ReadArguments(alpha, s) == Err(ExpectedCommaOrParen(c))
  {
    var pv := ParseVariable(alpha, s);
    Unprefix(Pending(s), [v], Pending(pv.rest), [c] + tail);
    ReadArgumentsStray(alpha, s, v, pv.rest, c);
  }

  /** `parse_function_arguments` returns the set of the written names. */
  lemma ParseFunctionArgumentsReads(alpha: CharClass, s: Scanner, vs: seq<char>, tail: string)
    requires |vs| > 0 && forall i | 0 <= i < |vs| :: alpha(vs[i])
    requires Pending(s) == ArgumentsText(vs) + tail
    ensures var r := ParseFunctionArguments(alpha, s);
      && r.Ok?
      && (forall v :: v in r.value <==> v in vs)
      && Pending(r.rest) == tail
  {
    ReadArgumentsReads(alpha, s, vs, tail);
  }

  /** Repeated parameter names collapse: `x,y,x)` gives the two names. */
  lemma DuplicateParametersCollapse(alpha: CharClass, s: Scanner, tail: string)
    requires alpha('x') && alpha('y')
    requires Pending(s) == "x,y,x)" + tail
    ensures var r := ParseFunctionArguments(alpha, s); r.Ok? && r.value == {'x', 'y'}
  {
    var vs := ['x', 'y', 'x'];
    DuplicateParametersText();
    ReadArgumentsReads(alpha, s, vs, tail);
    assert (set v | v in vs) == {'x', 'y'};
  }

  lemma DuplicateParametersText()
    ensures ArgumentsText(['x', 'y', 'x']) == "x,y,x)"
  {
    assert ArgumentsText(['x']) == "x)";
    assert ArgumentsText(['y', 'x']) == "y,x)";
  }

  /** Reads back the parts of a rendered monomial with a one-character
      variable: the leading digits are the coefficient when ` * ` follows
      them, the next character is the variable, and what follows `^` is the
      degree. */
  function SplitMonomial(m: string): (string, string, string) {
    var c := DigitPrefix(m);
    var scaled := c != "" && |m| >= |c| + 3 && m[|c|..|c| + 3] == " * ";
    var body := if scaled then m[|c| + 3..] else m;
    var coefficient := if scaled then c else "";
    if |body| == 0 then (coefficient, "", "")
    else if |body| >= 2 && body[1] == '^' then (coefficient, body[..1], body[2..])
    else (coefficient, body[..1], "")
  }

  /** `build_monomial` loses nothing: its parts can be read back from it. */
  lemma SplitBuildMonomial(coefficient: string, v: char, degree: string)
    requires AllDigits(coefficient) && AllDigits(degree) && !IsDigit(v)
    ensures SplitMonomial(BuildMonomial(coefficient, [v], degree)) == (coefficient, [v], degree)
  {
    var m := BuildMonomial(coefficient, [v], degree);
    var rest := [v] + (if degree == "" then "" else "^" + degree);
    if coefficient == "" {
      assert m == rest;
      DigitPrefixOf("", rest);
    } else {
      assert m == coefficient + (" * " + rest);
      DigitPrefixOf(coefficient, " * " + rest);
      assert m[|coefficient|..|coefficient| + 3] == " * ";
      assert m[|coefficient| + 3..] == rest;
    }
    if degree != "" {
      assert rest[2..] == degree;
    }
  }
}
