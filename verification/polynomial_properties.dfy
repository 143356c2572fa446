/** The polynomial reader reads back every written polynomial of the
    reference grammar, producing the reference rendering; and what it does
    with a stray character after a monomial, with a coefficient written `0`
    and with a product cut short by the end of the input. */
module PolynomialProperties {
  import opened Text
  import opened Scanning
  import opened Interpret
  import opened Syntax
  import opened Steps
  import opened TokenProperties

  /** The result of the factor loop that has rendered `parts` and still has
      the factors `fs` to read: everything joined by ` * `, except that at
      the end of the input right after a factor without degree only that
      factor is returned. */
  function ProductValue(parts: seq<string>, fs: seq<Factor>, atEnd: bool): string {
    if atEnd && |fs| > 0 && fs[|fs| - 1].degree == "" then RenderFactor(fs[|fs| - 1])
    else Join(parts + RenderFactors(fs), " * ")
  }

  // Facts about written forms and renderings, on plain strings.

  lemma Assoc(a: string, b: string, c: string)
    ensures (a + b) + c == a + (b + c)
  {
  }

  lemma SeqRegroup<T>(a: seq<T>, x: T, b: seq<T>)
    ensures (a + [x]) + b == a + ([x] + b)
  {
  }

  lemma DegreeTextSplit(d: string, rest: string)
    requires d != ""
    ensures DegreeText(d) + rest == "{" + (d + ("}" + rest))
  {
  }

  /** A written factor list starts with its first factor, coefficient first. */
  lemma FactorsTextCons(fs: seq<Factor>, tail: string)
    requires |fs| > 0
    ensures var f := fs[0];
      var r := [f.variable] + (DegreeText(f.degree) + (FactorsText(fs[1..]) + tail));
      && (f.coefficient == "" ==> FactorsText(fs) + tail == r)
      && (f.coefficient != "" ==> FactorsText(fs) + tail == f.coefficient + ("*" + r))
  {
    var f := fs[0];
    var v := [f.variable];
    var dt := DegreeText(f.degree);
    var x := FactorsText(fs[1..]) + tail;
    var pre := if f.coefficient == "" then "" else f.coefficient + "*";
    assert FactorText(f) == pre + (v + dt);
    Assoc(FactorText(f), FactorsText(fs[1..]), tail);
    Assoc(pre, v + dt, x);
    Assoc(v, dt, x);
    if f.coefficient != "" {
      Assoc(f.coefficient, "*", v + (dt + x));
    } else {
      assert pre + (v + (dt + x)) == v + (dt + x);
    }
  }

  /** A nonempty factor list split into its first factor and the rest: the
      written form, the well-formedness and the rendering. */
  lemma FactorsSplit(alpha: CharClass, parts: seq<string>, fs: seq<Factor>, tail: string, atEnd: bool)
    requires |fs| > 0 && FactorsOk(alpha, fs)
    ensures var f := fs[0];
      var r := [f.variable] + (DegreeText(f.degree) + (FactorsText(fs[1..]) + tail));
      && FactorOk(alpha, f) && FactorsOk(alpha, fs[1..])
      && (f.coefficient == "" ==> FactorsText(fs) + tail == r)
      && (f.coefficient != "" ==> FactorsText(fs) + tail == f.coefficient + ("*" + r))
      && ProductValue(parts, [f] + fs[1..], atEnd) == ProductValue(parts, fs, atEnd)
      && ProductValue([], [f] + fs[1..], atEnd) == RenderLastTerm(Product(fs), atEnd)
  {
    FactorsTextCons(fs, tail);
    assert FactorOk(alpha, fs[0]);
    assert [fs[0]] + fs[1..] == fs;
    ProductValueTerm(fs, atEnd);
  }

  /** The first character of a written factor list, or of what follows it. */
  lemma FactorsTextStart(alpha: CharClass, fs: seq<Factor>, tail: string)
    requires FactorsOk(alpha, fs)
    ensures var x := FactorsText(fs) + tail;
      && (|fs| == 0 ==> x == tail)
      && (|fs| > 0 ==> |x| > 0 && x[0] != '{' && x[0] !in {'+', '\n', '\r'})
      && (|fs| > 0 && fs[0].coefficient != "" ==> IsDigit(x[0]))
      && (|fs| > 0 && fs[0].coefficient == "" ==> x[0] == fs[0].variable)
  {
    if |fs| > 0 {
      FactorsTextCons(fs, tail);
      assert FactorOk(alpha, fs[0]);
    }
  }

  lemma PolynomialTextCons(ts: seq<Term>, tail: string)
    requires |ts| > 1
    ensures PolynomialText(ts) + tail == TermText(ts[0]) + ("+" + (PolynomialText(ts[1..]) + tail))
  {
  }

  /** Rendering one more factor before the rest changes nothing, unless the
      input ends right after that factor and it has no degree. */
  lemma ProductValueShift(parts: seq<string>, f: Factor, fs: seq<Factor>, atEnd: bool)
    requires !(atEnd && fs == [] && f.degree == "")
    ensures ProductValue(parts + [RenderFactor(f)], fs, atEnd) == ProductValue(parts, [f] + fs, atEnd)
  {
    assert ([f] + fs)[1..] == fs;
    assert RenderFactors([f] + fs) == [RenderFactor(f)] + RenderFactors(fs);
    SeqRegroup(parts, RenderFactor(f), RenderFactors(fs));
    if |fs| > 0 {
      assert ([f] + fs)[|[f] + fs| - 1] == fs[|fs| - 1];
    }
  }

  lemma ProductValueTerm(fs: seq<Factor>, atEnd: bool)
    requires |fs| > 0
    ensures ProductValue([], fs, atEnd) == RenderLastTerm(Product(fs), atEnd)
  {
    assert [] + RenderFactors(fs) == RenderFactors(fs);
  }

  // Reading.

  /** A degree, if written, is read; otherwise the degree is empty and
      nothing is consumed. */
  lemma OptionalDegreeReads(s: Scanner, d: string, rest: string)
    requires AllDigits(d) && d != "0"
    requires Pending(s) == DegreeText(d) + rest
    requires d != "" || rest == "" || rest[0] != '{'
    ensures var r := OptionalDegree(s); r.Ok? && r.value == d && Pending(r.rest) == rest
  {
    if d != "" {
      DegreeTextSplit(d, rest);
      ParseDegreeReads(Peek(s).rest, d, rest);
    } else {
      assert DegreeText(d) + rest == rest;
    }
  }

  /** A coefficient and its `*`. */
  lemma CoefficientReads(s: Scanner, c: string, rest: string)
    requires |c| > 0 && AllDigits(c) && c != "0"
    requires Pending(s) == c + ("*" + rest)
    ensures var n := ParseNumber(s);
      && n.Ok? && n.value == c && Pending(n.rest) == "*" + rest
      && var m := ReadExactChar(n.rest, '*');
      m.Ok? && Pending(m.rest) == rest
  {
    ParseNumberReads(s, c, "*" + rest);
    var n := ParseNumber(s);
    Unprefix(Pending(n.rest), "*", Pending(ReadExactChar(n.rest, '*').rest), rest);
  }

  /** The first half of the factor loop, entered before the variable of `f`
      with its coefficient read. */
  lemma {:induction false} FactorsReads(alpha: CharClass, s: Scanner, parts: seq<string>, f: Factor, fs: seq<Factor>, tail: string)
    requires FactorOk(alpha, f) && FactorsOk(alpha, fs) && EndsMonomial(tail)
    requires Pending(s) == [f.variable] + (DegreeText(f.degree) + (FactorsText(fs) + tail))
    ensures var r := Factors(alpha, s, f.coefficient, parts);
      r.Ok? && r.value == ProductValue(parts, [f] + fs, tail == "") && Pending(r.rest) == tail
    decreases |fs| + 1, 0
  {
    var pv := ParseVariable(alpha, s);
    var q := DegreeText(f.degree) + (FactorsText(fs) + tail);
    Unprefix(Pending(s), [f.variable], Pending(pv.rest), q);
    FactorsTextStart(alpha, fs, tail);
    if q == "" {
      assert f.degree == "" && fs == [] && tail == "";
      FactorsAtEnd(alpha, s, f.coefficient, parts, f.variable, pv.rest);
    } else {
      var p := Peek(pv.rest);
      OptionalDegreeReads(p.rest, f.degree, FactorsText(fs) + tail);
      var od := OptionalDegree(p.rest);
      FactorsGoOn(alpha, s, f.coefficient, parts, f.variable, pv.rest, f.degree, od.rest);
      MoreFactorsReads(alpha, od.rest, parts + [RenderFactor(f)], fs, tail);
      ProductValueShift(parts, f, fs, tail == "");
    }
  }

  /** The second half of the factor loop reads the remaining factors. */
  lemma {:induction false} MoreFactorsReads(alpha: CharClass, s: Scanner, parts: seq<string>, fs: seq<Factor>, tail: string)
    requires FactorsOk(alpha, fs) && EndsMonomial(tail)
    requires Pending(s) == FactorsText(fs) + tail
    ensures var r := MoreFactors(alpha, s, parts);
      r.Ok? && r.value == ProductValue(parts, fs, tail == "") && Pending(r.rest) == tail
    decreases |fs|, 2
  {
    FactorsTextStart(alpha, fs, tail);
    if |fs| == 0 {
      MoreFactorsStop(alpha, s, parts);
      assert parts + RenderFactors(fs) == parts;
    } else {
      var f := fs[0];
      var r := [f.variable] + (DegreeText(f.degree) + (FactorsText(fs[1..]) + tail));
      FactorsSplit(alpha, parts, fs, tail, tail == "");
      if f.coefficient != "" {
        NextFactorWithCoefficient(alpha, s, parts, f, fs[1..], tail, r);
      } else {
        NextFactorPlain(alpha, s, parts, f, fs[1..], tail, r);
      }
    }
  }

  /** The second half of the factor loop, before a factor with a coefficient. */
  lemma {:induction false} NextFactorWithCoefficient(alpha: CharClass, s: Scanner, parts: seq<string>, f: Factor, fs: seq<Factor>, tail: string, r: string)
    requires FactorOk(alpha, f) && f.coefficient != "" && FactorsOk(alpha, fs) && EndsMonomial(tail)
    requires r == [f.variable] + (DegreeText(f.degree) + (FactorsText(fs) + tail))
    requires Pending(s) == f.coefficient + ("*" + r)
    ensures var m := MoreFactors(alpha, s, parts);
      m.Ok? && m.value == ProductValue(parts, [f] + fs, tail == "") && Pending(m.rest) == tail
    decreases |fs| + 1, 1
  {
    CoefficientReads(Peek(s).rest, f.coefficient, r);
    var s3 := ParseNumber(Peek(s).rest).rest;
    var s4 := ReadExactChar(s3, '*').rest;
    MoreFactorsCoefficient(alpha, s, parts, f.coefficient, s3, s4);
    FactorsReads(alpha, s4, parts, f, fs, tail);
  }

  /** The second half of the factor loop, before a factor without one. */
  lemma {:induction false} NextFactorPlain(alpha: CharClass, s: Scanner, parts: seq<string>, f: Factor, fs: seq<Factor>, tail: string, r: string)
    requires FactorOk(alpha, f) && f.coefficient == "" && FactorsOk(alpha, fs) && EndsMonomial(tail)
    requires r == [f.variable] + (DegreeText(f.degree) + (FactorsText(fs) + tail))
    requires Pending(s) == r
    ensures var m := MoreFactors(alpha, s, parts);
      m.Ok? && m.value == ProductValue(parts, [f] + fs, tail == "") && Pending(m.rest) == tail
    decreases |fs| + 1, 1
  {
    MoreFactorsPlain(alpha, s, parts, f.variable);
    FactorsReads(alpha, Peek(s).rest, parts, f, fs, tail);
  }

  /** A digit-led monomial not followed by `*` is just its coefficient. */
  lemma NumberMonomialReads(alpha: CharClass, s: Scanner, d: string, tail: string)
    requires |d| > 0 && AllDigits(d) && d != "0"
    requires tail == "" || (tail[0] != '*' && !IsDigit(tail[0]))
    requires Pending(s) == d + tail
    ensures var r := ParseMonomial(alpha, s); r.Ok? && r.value == d && Pending(r.rest) == tail
  {
    ParseNumberReads(Peek(s).rest, d, tail);
    MonomialNumber(alpha, s, d, ParseNumber(Peek(s).rest).rest);
  }

  /** A product whose first factor has a coefficient. */
  lemma ScaledProductReads(alpha: CharClass, s: Scanner, f: Factor, fs: seq<Factor>, tail: string, r: string)
    requires FactorOk(alpha, f) && f.coefficient != "" && FactorsOk(alpha, fs) && EndsMonomial(tail)
    requires r == [f.variable] + (DegreeText(f.degree) + (FactorsText(fs) + tail))
    requires Pending(s) == f.coefficient + ("*" + r)
    ensures var m := ParseMonomial(alpha, s);
      m.Ok? && m.value == ProductValue([], [f] + fs, tail == "") && Pending(m.rest) == tail
  {
    CoefficientReads(Peek(s).rest, f.coefficient, r);
    var s1 := ParseNumber(Peek(s).rest).rest;
    var s2 := ReadExactChar(Peek(s1).rest, '*').rest;
    Unprefix(Pending(s1), "*", Pending(s2), r);
    MonomialCoefficient(alpha, s, f.coefficient, s1, s2);
    FactorsReads(alpha, s2, [], f, fs, tail);
  }

  /** A product whose first factor has no coefficient. */
  lemma PlainProductReads(alpha: CharClass, s: Scanner, f: Factor, fs: seq<Factor>, tail: string, r: string)
    requires FactorOk(alpha, f) && f.coefficient == "" && FactorsOk(alpha, fs) && EndsMonomial(tail)
    requires r == [f.variable] + (DegreeText(f.degree) + (FactorsText(fs) + tail))
    requires Pending(s) == r
    ensures var m := ParseMonomial(alpha, s);
      m.Ok? && m.value == ProductValue([], [f] + fs, tail == "") && Pending(m.rest) == tail
  {
    MonomialPlain(alpha, s, f.variable);
    FactorsReads(alpha, Peek(s).rest, [], f, fs, tail);
  }

  /** `parse_monomial` reads back every written product. */
  lemma ProductReads(alpha: CharClass, s: Scanner, fs: seq<Factor>, tail: string)
    requires |fs| > 0 && FactorsOk(alpha, fs) && EndsMonomial(tail)
    requires Pending(s) == FactorsText(fs) + tail
    ensures var m := ParseMonomial(alpha, s);
      m.Ok? && m.value == RenderLastTerm(Product(fs), tail == "") && Pending(m.rest) == tail
  {
    var f := fs[0];
    var r := [f.variable] + (DegreeText(f.degree) + (FactorsText(fs[1..]) + tail));
    FactorsSplit(alpha, [], fs, tail, tail == "");
    if f.coefficient != "" {
      ScaledProductReads(alpha, s, f, fs[1..], tail, r);
    } else {
      PlainProductReads(alpha, s, f, fs[1..], tail, r);
    }
  }

  /** `parse_monomial` reads back every written monomial. */
  lemma TermReads(alpha: CharClass, s: Scanner, t: Term, tail: string)
    requires TermOk(alpha, t) && EndsMonomial(tail)
    requires Pending(s) == TermText(t) + tail
    ensures var r := ParseMonomial(alpha, s);
      r.Ok? && r.value == RenderLastTerm(t, tail == "") && Pending(r.rest) == tail
  {
    match t
    case Number(d) => NumberMonomialReads(alpha, s, d, tail);
    case Product(fs) => ProductReads(alpha, s, fs, tail);
  }

  /** The loop of `parse_polynomial_expression` reads back every written
      sum of monomials, in order. */
  lemma {:induction false} MonomialsReads(alpha: CharClass, s: Scanner, parts: seq<string>, ts: seq<Term>, tail: string)
    requires PolynomialOk(alpha, ts) && LineEnd(tail)
    requires Pending(s) == PolynomialText(ts) + tail
    ensures var r := Monomials(alpha, s, parts);
      r.Ok? && r.value == parts + RenderTerms(ts, tail == "") && Pending(r.rest) == tail
    decreases |ts|
  {
    assert TermOk(alpha, ts[0]);
    if |ts| == 1 {
      TermReads(alpha, s, ts[0], tail);
      var m := ParseMonomial(alpha, s);
      MonomialsStop(alpha, s, parts, m.value, m.rest);
    } else {
      var rest := PolynomialText(ts[1..]) + tail;
      PolynomialTextCons(ts, tail);
      TermReads(alpha, s, ts[0], "+" + rest);
      var m := ParseMonomial(alpha, s);
      var s2 := ReadExactChar(Peek(m.rest).rest, '+').rest;
      Unprefix(Pending(m.rest), "+", Pending(s2), rest);
      MonomialsMore(alpha, s, parts, m.value, m.rest, s2);
      assert PolynomialOk(alpha, ts[1..]) by {
        forall i | 0 <= i < |ts[1..]| ensures TermOk(alpha, ts[1..][i]) {
          assert ts[1..][i] == ts[i + 1];
        }
      }
      MonomialsReads(alpha, s2, parts + [m.value], ts[1..], tail);
      SeqRegroup(parts, m.value, RenderTerms(ts[1..], tail == ""));
    }
  }

  /** `parse_polynomial_expression` reads back every written polynomial:
      the rendering is the monomials joined by ` + ` in parentheses, and the
      reader stops before the line break. */
  lemma PolynomialReads(alpha: CharClass, s: Scanner, ts: seq<Term>, tail: string)
    requires PolynomialOk(alpha, ts) && LineEnd(tail)
    requires Pending(s) == PolynomialText(ts) + tail
    ensures var r := ParsePolynomial(alpha, s);
      r.Ok? && r.value == RenderPolynomial(ts, tail == "") && Pending(r.rest) == tail
  {
    MonomialsReads(alpha, s, [], ts, tail);
    assert [] + RenderTerms(ts, tail == "") == RenderTerms(ts, tail == "");
  }

  /** Followed by a line break, every written polynomial reads back to its
      intended rendering, all factors kept. */
  lemma PolynomialReadsBeforeLineBreak(alpha: CharClass, s: Scanner, ts: seq<Term>, tail: string)
    requires PolynomialOk(alpha, ts)
    requires |tail| > 0 && tail[0] in {'\n', '\r'}
    requires Pending(s) == PolynomialText(ts) + tail
    ensures ParsePolynomial(alpha, s).Ok?
    ensures ParsePolynomial(alpha, s).value == "(" + Join(RenderTerms(ts, false), " + ") + ")"
  {
    PolynomialReads(alpha, s, ts, tail);
  }

  /** A monomial followed by anything but `+` or a line break is refused:
      here a number followed by a stray character. */
  lemma StrayAfterMonomial(alpha: CharClass, s: Scanner, d: string, c: char, tail: string)
    requires |d| > 0 && AllDigits(d) && d != "0"
    requires c !in {'+', '\n', '\r', '*'} && !IsDigit(c)
    requires Pending(s) == d + ([c] + tail)
    ensures ParsePolynomial(alpha, s) == Err(ExpectedPlusOrEol(c))
  {
    NumberMonomialReads(alpha, s, d, [c] + tail);
    var m := ParseMonomial(alpha, s);
    MonomialsStray(alpha, s, [], m.value, m.rest, c);
  }

  /** The written form and the renderings of the product `xy`. */
  lemma ProductXY(alpha: CharClass)
    requires alpha('x') && alpha('y')
    ensures var ts := [Product([Factor("", 'x', ""), Factor("", 'y', "")])];
      && PolynomialOk(alpha, ts)
      && PolynomialText(ts) == "xy"
      && RenderPolynomial(ts, true) == "(y)"
      && RenderPolynomial(ts, false) == "(x * y)"
  {
    var fs := [Factor("", 'x', ""), Factor("", 'y', "")];
    var ts := [Product(fs)];
    assert FactorOk(alpha, fs[0]) && FactorOk(alpha, fs[1]);
    assert FactorsText(fs[1..]) == "y";
    assert FactorsText(fs) == "xy";
    assert RenderFactors(fs[1..]) == ["y"];
    assert RenderFactors(fs) == ["x", "y"];
    assert ["x", "y"][1..] == ["y"];
    assert Join(["x", "y"], " * ") == "x" + " * " + Join(["y"], " * ");
    assert Join(["x", "y"], " * ") == "x * y";
    assert RenderTerm(ts[0]) == "x * y";
    assert RenderTerms(ts, true) == ["y"];
    assert RenderTerms(ts, false) == ["x * y"];
  }

  /** The end of the input right after a later factor drops the earlier
      ones: `xy` reads as `(y)`, while `xy` before a line break reads as
      `(x * y)`. */
  lemma ProductCutAtEnd(alpha: CharClass, s: Scanner, t: Scanner)
    requires alpha('x') && alpha('y')
    requires Pending(s) == "xy" && Pending(t) == "xy\n"
    ensures ParsePolynomial(alpha, s).Ok? && ParsePolynomial(alpha, s).value == "(y)"
    ensures ParsePolynomial(alpha, t).Ok? && ParsePolynomial(alpha, t).value == "(x * y)"
  {
    var ts := [Product([Factor("", 'x', ""), Factor("", 'y', "")])];
    ProductXY(alpha);
    assert "xy" == PolynomialText(ts) + "";
    assert "xy\n" == PolynomialText(ts) + "\n";
    PolynomialReads(alpha, s, ts, "");
    PolynomialReads(alpha, t, ts, "\n");
  }

  // A coefficient written `0`, wherever it stands in a polynomial.

  /** The pending text starts with the digit run `0`: a zero, then no
      further digit. */
  predicate ZeroAhead(x: string) {
    |x| > 0 && x[0] == '0' && (|x| == 1 || !IsDigit(x[1]))
  }

  /** Monomials each followed by `+`: what is written before the monomial
      that holds the zero. */
  function LeadingTermsText(ts: seq<Term>): string {
    if |ts| == 0 then "" else TermText(ts[0]) + ("+" + LeadingTermsText(ts[1..]))
  }

  lemma LeadingTermsSplit(ts: seq<Term>, x: string)
    requires |ts| > 0
    ensures LeadingTermsText(ts) + x == TermText(ts[0]) + ("+" + (LeadingTermsText(ts[1..]) + x))
  {
    Assoc(TermText(ts[0]), "+" + LeadingTermsText(ts[1..]), x);
    Assoc("+", LeadingTermsText(ts[1..]), x);
  }

  /** The number reader refuses the digit run `0`. */
  lemma ZeroRead(s: Scanner)
    requires ZeroAhead(Pending(s))
    ensures Peek(s).value == Some('0') && ParseNumber(Peek(s).rest) == Err(ZeroNumber)
  {
    var x := Pending(s);
    assert x == "0" + x[1..];
    DigitPrefixOf("0", x[1..]);
    ParseNumberSpec(Peek(s).rest);
  }

  /** A monomial that starts with a zero coefficient, or is the number `0`,
      is refused. */
  lemma ZeroLeadingCoefficientRefused(alpha: CharClass, s: Scanner)
    requires ZeroAhead(Pending(s))
    ensures ParseMonomial(alpha, s) == Err(ZeroNumber)
  {
    ZeroRead(s);
    MonomialNumberFails(alpha, s);
  }

  /** A later factor with a zero coefficient is refused. */
  lemma ZeroLaterCoefficientRefused(alpha: CharClass, s: Scanner, parts: seq<string>)
    requires ZeroAhead(Pending(s))
    ensures MoreFactors(alpha, s, parts) == Err(ZeroNumber)
  {
    ZeroRead(s);
    MoreFactorsNumberFails(alpha, s, parts);
  }

  /** The first half of the factor loop reaches a zero coefficient after
      the written factors `[f] + fs`. */
  lemma {:induction false} FactorsZero(alpha: CharClass, s: Scanner, parts: seq<string>, f: Factor, fs: seq<Factor>, z: string)
    requires FactorOk(alpha, f) && FactorsOk(alpha, fs) && ZeroAhead(z)
    requires Pending(s) == [f.variable] + (DegreeText(f.degree) + (FactorsText(fs) + z))
    ensures Factors(alpha, s, f.coefficient, parts) == Err(ZeroNumber)
    decreases |fs| + 1, 0
  {
    var pv := ParseVariable(alpha, s);
    var q := DegreeText(f.degree) + (FactorsText(fs) + z);
    Unprefix(Pending(s), [f.variable], Pending(pv.rest), q);
    FactorsTextStart(alpha, fs, z);
    var p := Peek(pv.rest);
    OptionalDegreeReads(p.rest, f.degree, FactorsText(fs) + z);
    var od := OptionalDegree(p.rest);
    FactorsGoOn(alpha, s, f.coefficient, parts, f.variable, pv.rest, f.degree, od.rest);
    MoreFactorsZero(alpha, od.rest, parts + [BuildMonomial(f.coefficient, [f.variable], f.degree)], fs, z);
  }

  /** The second half of the factor loop reaches a zero coefficient after
      the written factors `fs`. */
  lemma {:induction false} MoreFactorsZero(alpha: CharClass, s: Scanner, parts: seq<string>, fs: seq<Factor>, z: string)
    requires FactorsOk(alpha, fs) && ZeroAhead(z)
    requires Pending(s) == FactorsText(fs) + z
    ensures MoreFactors(alpha, s, parts) == Err(ZeroNumber)
    decreases |fs|, 2
  {
    if |fs| == 0 {
      assert FactorsText(fs) + z == z;
      ZeroLaterCoefficientRefused(alpha, s, parts);
    } else {
      var f := fs[0];
      var r := [f.variable] + (DegreeText(f.degree) + (FactorsText(fs[1..]) + z));
      FactorsSplit(alpha, parts, fs, z, false);
      if f.coefficient != "" {
        NextFactorZeroScaled(alpha, s, parts, f, fs[1..], z, r);
      } else {
        NextFactorZeroPlain(alpha, s, parts, f, fs[1..], z, r);
      }
    }
  }

  lemma {:induction false} NextFactorZeroScaled(alpha: CharClass, s: Scanner, parts: seq<string>, f: Factor, fs: seq<Factor>, z: string, r: string)
    requires FactorOk(alpha, f) && f.coefficient != "" && FactorsOk(alpha, fs) && ZeroAhead(z)
    requires r == [f.variable] + (DegreeText(f.degree) + (FactorsText(fs) + z))
    requires Pending(s) == f.coefficient + ("*" + r)
    ensures MoreFactors(alpha, s, parts) == Err(ZeroNumber)
    decreases |fs| + 1, 1
  {
    CoefficientReads(Peek(s).rest, f.coefficient, r);
    var s3 := ParseNumber(Peek(s).rest).rest;
    var s4 := ReadExactChar(s3, '*').rest;
    MoreFactorsCoefficient(alpha, s, parts, f.coefficient, s3, s4);
    FactorsZero(alpha, s4, parts, f, fs, z);
  }

  lemma {:induction false} NextFactorZeroPlain(alpha: CharClass, s: Scanner, parts: seq<string>, f: Factor, fs: seq<Factor>, z: string, r: string)
    requires FactorOk(alpha, f) && f.coefficient == "" && FactorsOk(alpha, fs) && ZeroAhead(z)
    requires r == [f.variable] + (DegreeText(f.degree) + (FactorsText(fs) + z))
    requires Pending(s) == r
    ensures MoreFactors(alpha, s, parts) == Err(ZeroNumber)
    decreases |fs| + 1, 1
  {
    MoreFactorsPlain(alpha, s, parts, f.variable);
    FactorsZero(alpha, Peek(s).rest, parts, f, fs, z);
  }

  /** `parse_monomial` refuses a zero coefficient after written factors
      whose first one has a coefficient. */
  lemma ScaledProductZero(alpha: CharClass, s: Scanner, f: Factor, fs: seq<Factor>, z: string, r: string)
    requires FactorOk(alpha, f) && f.coefficient != "" && FactorsOk(alpha, fs) && ZeroAhead(z)
    requires r == [f.variable] + (DegreeText(f.degree) + (FactorsText(fs) + z))
    requires Pending(s) == f.coefficient + ("*" + r)
    ensures ParseMonomial(alpha, s) == Err(ZeroNumber)
  {
    CoefficientReads(Peek(s).rest, f.coefficient, r);
    var s1 := ParseNumber(Peek(s).rest).rest;
    var s2 := ReadExactChar(Peek(s1).rest, '*').rest;
    Unprefix(Pending(s1), "*", Pending(s2), r);
    MonomialCoefficient(alpha, s, f.coefficient, s1, s2);
    FactorsZero(alpha, s2, [], f, fs, z);
  }

  /** `parse_monomial` refuses a zero coefficient after written factors
      whose first one has none. */
  lemma PlainProductZero(alpha: CharClass, s: Scanner, f: Factor, fs: seq<Factor>, z: string, r: string)
    requires FactorOk(alpha, f) && f.coefficient == "" && FactorsOk(alpha, fs) && ZeroAhead(z)
    requires r == [f.variable] + (DegreeText(f.degree) + (FactorsText(fs) + z))
    requires Pending(s) == r
    ensures ParseMonomial(alpha, s) == Err(ZeroNumber)
  {
    MonomialPlain(alpha, s, f.variable);
    FactorsZero(alpha, Peek(s).rest, [], f, fs, z);
  }

  /** `parse_monomial` refuses a zero coefficient after any written
      factors of the same monomial, none included. */
  lemma MonomialZero(alpha: CharClass, s: Scanner, fs: seq<Factor>, z: string)
    requires FactorsOk(alpha, fs) && ZeroAhead(z)
    requires Pending(s) == FactorsText(fs) + z
    ensures ParseMonomial(alpha, s) == Err(ZeroNumber)
  {
    if |fs| == 0 {
      assert FactorsText(fs) + z == z;
      ZeroLeadingCoefficientRefused(alpha, s);
    } else {
      var f := fs[0];
      var r := [f.variable] + (DegreeText(f.degree) + (FactorsText(fs[1..]) + z));
      FactorsSplit(alpha, [], fs, z, false);
      if f.coefficient != "" {
        ScaledProductZero(alpha, s, f, fs[1..], z, r);
      } else {
        PlainProductZero(alpha, s, f, fs[1..], z, r);
      }
    }
  }

  /** The loop of `parse_polynomial_expression` reads the written monomials
      before the one holding the zero, then refuses it. */
  lemma {:induction false} MonomialsZero(alpha: CharClass, s: Scanner, parts: seq<string>, ts: seq<Term>, fs: seq<Factor>, z: string)
    requires (ts == [] || PolynomialOk(alpha, ts)) && FactorsOk(alpha, fs) && ZeroAhead(z)
    requires Pending(s) == LeadingTermsText(ts) + (FactorsText(fs) + z)
    ensures Monomials(alpha, s, parts) == Err(ZeroNumber)
    decreases |ts|
  {
    if |ts| == 0 {
      assert LeadingTermsText(ts) + (FactorsText(fs) + z) == FactorsText(fs) + z;
      MonomialZero(alpha, s, fs, z);
      MonomialsFail(alpha, s, parts);
    } else {
      var rest := LeadingTermsText(ts[1..]) + (FactorsText(fs) + z);
      LeadingTermsSplit(ts, FactorsText(fs) + z);
      assert TermOk(alpha, ts[0]);
      TermReads(alpha, s, ts[0], "+" + rest);
      var m := ParseMonomial(alpha, s);
      var s2 := ReadExactChar(Peek(m.rest).rest, '+').rest;
      Unprefix(Pending(m.rest), "+", Pending(s2), rest);
      MonomialsMore(alpha, s, parts, m.value, m.rest, s2);
      assert ts[1..] == [] || PolynomialOk(alpha, ts[1..]) by {
        forall i | 0 <= i < |ts[1..]| ensures TermOk(alpha, ts[1..][i]) {
          assert ts[1..][i] == ts[i + 1];
        }
      }
      MonomialsZero(alpha, s2, parts + [m.value], ts[1..], fs, z);
    }
  }

  /** A coefficient written `0` is refused wherever it stands: after any
      written monomials each followed by `+`, and after any written factors
      of its own monomial. The number `0` as a whole monomial is the case
      with no factors before it. */
  lemma ZeroCoefficientRefused(alpha: CharClass, s: Scanner, ts: seq<Term>, fs: seq<Factor>, z: string)
    requires (ts == [] || PolynomialOk(alpha, ts)) && FactorsOk(alpha, fs) && ZeroAhead(z)
    requires Pending(s) == LeadingTermsText(ts) + (FactorsText(fs) + z)
    ensures ParsePolynomial(alpha, s) == Err(ZeroNumber)
  {
    MonomialsZero(alpha, s, [], ts, fs, z);
    PolynomialFails(alpha, s);
  }
}
