/** How each looping parser function proceeds, one step at a time: given
    what the scanner operations and inner readers returned, the result of
    the function. The property lemmas chain these steps. */
module Steps {
  import opened Text
  import opened Scanning
  import opened Interpret

  lemma ReadDigitsStop(s: Scanner)
    requires Peek(s).value.None? || !IsDigit(Peek(s).value.value)
    ensures ReadDigits(s) == Step("", Peek(s).rest)
  {
  }

  lemma ReadDigitsTake(s: Scanner, c: char)
    requires Peek(s).value == Some(c) && IsDigit(c)
    ensures var more := ReadDigits(Next(Peek(s).rest).rest);
      ReadDigits(s) == Step([c] + more.value, more.rest)
  {
  }

  lemma ReadArgumentsLast(alpha: CharClass, s: Scanner, v: char, s1: Scanner)
    requires ParseVariable(alpha, s) == Ok(v, s1)
    requires Next(s1).value == Some(')')
    ensures ReadArguments(alpha, s) == Ok([v], Next(s1).rest)
  {
  }

  lemma ReadArgumentsMore(alpha: CharClass, s: Scanner, v: char, s1: Scanner, vs: seq<char>, t: Scanner)
    requires ParseVariable(alpha, s) == Ok(v, s1)
    requires Next(s1).value == Some(',')
    requires ReadArguments(alpha, Next(s1).rest) == Ok(vs, t)
    ensures ReadArguments(alpha, s) == Ok([v] + vs, t)
  {
  }

  lemma ReadArgumentsStray(alpha: CharClass, s: Scanner, v: char, s1: Scanner, c: char)
    requires ParseVariable(alpha, s) == Ok(v, s1)
    requires Next(s1).value == Some(c) && c != ',' && c != ')'
    ensures ReadArguments(alpha, s) == Err(ExpectedCommaOrParen(c))
  {
  }

  /** Every successful argument list is one name and `)`, or one name, `,`
      and a further successful list. */
  lemma ReadArgumentsCases(alpha: CharClass, s: Scanner)
    requires ReadArguments(alpha, s).Ok?
    ensures var pv := ParseVariable(alpha, s);
      && pv.Ok?
      && var n := Next(pv.rest);
      || (n.value == Some(')') && ReadArguments(alpha, s) == Ok([pv.value], n.rest))
      || (&& n.value == Some(',')
          && ReadArguments(alpha, n.rest).Ok?
          && ReadArguments(alpha, s) == Ok([pv.value] + ReadArguments(alpha, n.rest).value, ReadArguments(alpha, n.rest).rest))
  {
  }

  lemma FunctionHeadStep(alpha: CharClass, s: Scanner, name: char, s1: Scanner, ps: set<char>, s2: Scanner)
    requires Next(s).value == Some(name)
    requires ReadExactChar(Next(s).rest, '(') == Ok((), s1)
    requires ParseFunctionArguments(alpha, s1) == Ok(ps, s2)
    ensures ParseFunctionHead(alpha, s) == Ok((name, ps), s2)
  {
  }

  lemma FactorsAtEnd(alpha: CharClass, s: Scanner, c: string, parts: seq<string>, v: char, s1: Scanner)
    requires ParseVariable(alpha, s) == Ok(v, s1)
    requires Peek(s1).value.None?
    ensures Factors(alpha, s, c, parts) == Ok(BuildMonomial(c, [v], ""), Peek(s1).rest)
  {
  }

  lemma FactorsGoOn(alpha: CharClass, s: Scanner, c: string, parts: seq<string>, v: char, s1: Scanner, d: string, s2: Scanner)
    requires ParseVariable(alpha, s) == Ok(v, s1)
    requires Peek(s1).value.Some?
    requires OptionalDegree(Peek(s1).rest) == Ok(d, s2)
    ensures Factors(alpha, s, c, parts) == MoreFactors(alpha, s2, parts + [BuildMonomial(c, [v], d)])
  {
  }

  lemma MoreFactorsStop(alpha: CharClass, s: Scanner, parts: seq<string>)
    requires Peek(s).value.None? || Peek(s).value.value in {'+', '\n', '\r'}
    ensures MoreFactors(alpha, s, parts) == Ok(Join(parts, " * "), Peek(s).rest)
  {
  }

  lemma MoreFactorsCoefficient(alpha: CharClass, s: Scanner, parts: seq<string>, c: string, s3: Scanner, s4: Scanner)
    requires Peek(s).value.Some? && IsDigit(Peek(s).value.value)
    requires ParseNumber(Peek(s).rest) == Ok(c, s3)
    requires ReadExactChar(s3, '*') == Ok((), s4)
    ensures MoreFactors(alpha, s, parts) == Factors(alpha, s4, c, parts)
  {
  }

  lemma MoreFactorsPlain(alpha: CharClass, s: Scanner, parts: seq<string>, x: char)
    requires Peek(s).value == Some(x) && x !in {'+', '\n', '\r'} && !IsDigit(x)
    ensures MoreFactors(alpha, s, parts) == Factors(alpha, Peek(s).rest, "", parts)
  {
  }

  lemma MonomialNumber(alpha: CharClass, s: Scanner, c: string, s1: Scanner)
    requires Peek(s).value.Some? && IsDigit(Peek(s).value.value)
    requires ParseNumber(Peek(s).rest) == Ok(c, s1)
    requires Peek(s1).value != Some('*')
    ensures ParseMonomial(alpha, s) == Ok(c, Peek(s1).rest)
  {
  }

  lemma MonomialCoefficient(alpha: CharClass, s: Scanner, c: string, s1: Scanner, s2: Scanner)
    requires Peek(s).value.Some? && IsDigit(Peek(s).value.value)
    requires ParseNumber(Peek(s).rest) == Ok(c, s1)
    requires Peek(s1).value == Some('*')
    requires ReadExactChar(Peek(s1).rest, '*') == Ok((), s2)
    ensures ParseMonomial(alpha, s) == Factors(alpha, s2, c, [])
  {
  }

  lemma MonomialPlain(alpha: CharClass, s: Scanner, x: char)
    requires Peek(s).value == Some(x) && !IsDigit(x)
    ensures ParseMonomial(alpha, s) == Factors(alpha, Peek(s).rest, "", [])
  {
  }

  lemma MonomialNumberFails(alpha: CharClass, s: Scanner)
    requires Peek(s).value.Some? && IsDigit(Peek(s).value.value)
    requires ParseNumber(Peek(s).rest).Err?
    ensures ParseMonomial(alpha, s) == Err(ParseNumber(Peek(s).rest).error)
  {
  }

  lemma MoreFactorsNumberFails(alpha: CharClass, s: Scanner, parts: seq<string>)
    requires Peek(s).value.Some? && IsDigit(Peek(s).value.value)
    requires ParseNumber(Peek(s).rest).Err?
    ensures MoreFactors(alpha, s, parts) == Err(ParseNumber(Peek(s).rest).error)
  {
  }

  lemma MonomialsFail(alpha: CharClass, s: Scanner, parts: seq<string>)
    requires ParseMonomial(alpha, s).Err?
    ensures Monomials(alpha, s, parts) == Err(ParseMonomial(alpha, s).error)
  {
  }

  lemma PolynomialFails(alpha: CharClass, s: Scanner)
    requires Monomials(alpha, s, []).Err?
    ensures ParsePolynomial(alpha, s) == Err(Monomials(alpha, s, []).error)
  {
  }

  lemma MonomialsStop(alpha: CharClass, s: Scanner, parts: seq<string>, m: string, s1: Scanner)
    requires ParseMonomial(alpha, s) == Ok(m, s1)
    requires Peek(s1).value.None? || Peek(s1).value.value in {'\n', '\r'}
    ensures Monomials(alpha, s, parts) == Ok(parts + [m], Peek(s1).rest)
  {
  }

  lemma MonomialsMore(alpha: CharClass, s: Scanner, parts: seq<string>, m: string, s1: Scanner, s2: Scanner)
    requires ParseMonomial(alpha, s) == Ok(m, s1)
    requires Peek(s1).value == Some('+')
    requires ReadExactChar(Peek(s1).rest, '+') == Ok((), s2)
    ensures Monomials(alpha, s, parts) == Monomials(alpha, s2, parts + [m])
  {
  }

  lemma MonomialsStray(alpha: CharClass, s: Scanner, parts: seq<string>, m: string, s1: Scanner, c: char)
    requires ParseMonomial(alpha, s) == Ok(m, s1)
    requires Peek(s1).value == Some(c) && c !in {'+', '\n', '\r'}
    ensures Monomials(alpha, s, parts) == Err(ExpectedPlusOrEol(c))
  {
  }

  lemma FunctionBodyFails(alpha: CharClass, s: Scanner, head: (char, set<char>), s1: Scanner, s2: Scanner)
    requires ParseFunctionHead(alpha, s) == Ok(head, s1)
    requires ReadExactChar(s1, '=') == Ok((), s2)
    requires ParsePolynomial(alpha, s2).Err?
    ensures ParseFunction(alpha, s) == Err(ParsePolynomial(alpha, s2).error)
  {
  }

  lemma LineIsFunction(alpha: CharClass, sig: Signature, s: Scanner, name: char)
    requires Peek(s).value == Some(name) && name in sig.functions
    ensures ParseFunctionOrConst(alpha, sig, s) == ParseFunction(alpha, Peek(s).rest)
  {
  }

  lemma EntriesAtEnd(alpha: CharClass, sig: Signature, s: Scanner, acc: seq<Entry>, e: Entry, s1: Scanner)
    requires ParseFunctionOrConst(alpha, sig, s) == Ok(e, s1)
    requires Peek(s1).value.None?
    ensures Entries(alpha, sig, s, acc) == Ok(acc + [e], Peek(s1).rest)
  {
  }

  lemma EntriesLastLine(alpha: CharClass, sig: Signature, s: Scanner, acc: seq<Entry>, e: Entry, s1: Scanner, s2: Scanner)
    requires ParseFunctionOrConst(alpha, sig, s) == Ok(e, s1)
    requires Peek(s1).value.Some?
    requires ReadEol(Peek(s1).rest) == Ok((), s2)
    requires Peek(s2).value.None?
    ensures Entries(alpha, sig, s, acc) == Ok(acc + [e], Peek(s2).rest)
  {
  }

  lemma EntriesMore(alpha: CharClass, sig: Signature, s: Scanner, acc: seq<Entry>, e: Entry, s1: Scanner, s2: Scanner)
    requires ParseFunctionOrConst(alpha, sig, s) == Ok(e, s1)
    requires Peek(s1).value.Some?
    requires ReadEol(Peek(s1).rest) == Ok((), s2)
    requires Peek(s2).value.Some?
    ensures Entries(alpha, sig, s, acc) == Entries(alpha, sig, Peek(s2).rest, acc + [e])
  {
  }

  lemma EntriesFail(alpha: CharClass, sig: Signature, s: Scanner, acc: seq<Entry>)
    requires ParseFunctionOrConst(alpha, sig, s).Err?
    ensures Entries(alpha, sig, s, acc) == Err(ParseFunctionOrConst(alpha, sig, s).error)
  {
  }
}
