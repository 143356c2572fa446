/** What the line readers and the document loop of the interpretation parser
    return on written documents: every line of the reference grammar reads
    back to its intended entry, a document to the entries of its lines in
    order, and the refused inputs give the documented errors. */
module DocumentProperties {
  import opened Text
  import opened Scanning
  import opened Interpret
  import opened Syntax
  import opened Steps
  import opened TokenProperties
  import opened PolynomialProperties

  /** The written form of a function line, split at its parts. */
  lemma FunctionTextSplit(name: char, ps: seq<char>, body: seq<Term>, tail: string)
    requires |ps| > 0 && |body| > 0
    ensures LineText(FunctionLine(name, ps, body)) + tail
      == [name] + ("(" + (ArgumentsText(ps) + ("=" + (PolynomialText(body) + tail))))
  {
    var e := "=" + PolynomialText(body);
    var a := ArgumentsText(ps) + e;
    Assoc([name], "(" + a, tail);
    Assoc("(", a, tail);
    Assoc(ArgumentsText(ps), e, tail);
    Assoc("=", PolynomialText(body), tail);
  }

  /** The written form of a constant line, split at its parts. */
  lemma ConstantTextSplit(name: char, value: string, tail: string)
    ensures LineText(ConstantLine(name, value)) + tail == [name] + ("=" + (value + tail))
  {
    Assoc([name], "=" + value, tail);
    Assoc("=", value, tail);
  }

  /** The head of `parse_function` reads the name, `(` and the written
      parameter list, and returns the name with the set of parameters. */
  lemma ParseFunctionHeadReads(alpha: CharClass, s: Scanner, name: char, ps: seq<char>, rest: string)
    requires |ps| > 0 && forall i | 0 <= i < |ps| :: alpha(ps[i])
    requires Pending(s) == [name] + ("(" + (ArgumentsText(ps) + rest))
    ensures var r := ParseFunctionHead(alpha, s);
      r.Ok? && r.value == (name, ParameterSet(ps)) && Pending(r.rest) == rest
  {
    var n := Next(s);
    Unprefix(Pending(s), [name], Pending(n.rest), "(" + (ArgumentsText(ps) + rest));
    var s1 := ReadExactChar(n.rest, '(').rest;
    Unprefix(Pending(n.rest), "(", Pending(s1), ArgumentsText(ps) + rest);
    ParseFunctionArgumentsReads(alpha, s1, ps, rest);
    var a := ParseFunctionArguments(alpha, s1);
    FunctionHeadStep(alpha, s, name, s1, a.value, a.rest);
    SameNames(a.value, ps);
  }

  lemma SameNames(names: set<char>, ps: seq<char>)
    requires forall v :: v in names <==> v in ps
    ensures names == ParameterSet(ps)
  {
  }

  /** The tail of `parse_function` reads `=` and the written polynomial. */
  lemma ParseFunctionBodyReads(alpha: CharClass, s: Scanner, body: seq<Term>, tail: string)
    requires PolynomialOk(alpha, body) && LineEnd(tail)
    requires Pending(s) == "=" + (PolynomialText(body) + tail)
    ensures var r := ParseFunctionBody(alpha, s);
      r.Ok? && r.value == RenderPolynomial(body, tail == "") && Pending(r.rest) == tail
  {
    var s1 := ReadExactChar(s, '=').rest;
    Unprefix(Pending(s), "=", Pending(s1), PolynomialText(body) + tail);
    PolynomialReads(alpha, s1, body, tail);
  }

  /** `parse_function` reads a written function line into its entry: the
      name, the set of parameters, the rendered body. */
  lemma ParseFunctionReads(alpha: CharClass, s: Scanner, name: char, ps: seq<char>, body: seq<Term>, tail: string)
    requires |ps| > 0 && (forall i | 0 <= i < |ps| :: alpha(ps[i]))
    requires PolynomialOk(alpha, body) && LineEnd(tail)
    requires Pending(s) == LineText(FunctionLine(name, ps, body)) + tail
    ensures var r := ParseFunction(alpha, s);
      && r.Ok?
      && r.value == Entry(name, ParameterSet(ps), RenderPolynomial(body, tail == ""))
      && Pending(r.rest) == tail
  {
    var rest := "=" + (PolynomialText(body) + tail);
    FunctionTextSplit(name, ps, body, tail);
    ParseFunctionHeadReads(alpha, s, name, ps, rest);
    ParseFunctionBodyReads(alpha, ParseFunctionHead(alpha, s).rest, body, tail);
  }

  /** `parse_constant` on a written constant line: the digit run `0` is
      refused; any other digit run, the empty one and `00` included, gives
      the entry with no parameters and the digits in parentheses. */
  lemma ParseConstantReads(s: Scanner, name: char, value: string, tail: string)
    requires AllDigits(value) && (tail == "" || !IsDigit(tail[0]))
    requires Pending(s) == [name] + ("=" + (value + tail))
    ensures var r := ParseConstant(s);
      && (value == "0" ==> r == Err(ZeroNumber))
      && (value != "0" ==> r.Ok? && r.value == Entry(name, {}, "(" + value + ")") && Pending(r.rest) == tail)
  {
    var n := Next(s);
    Unprefix(Pending(s), [name], Pending(n.rest), "=" + (value + tail));
    var s1 := ReadExactChar(n.rest, '=').rest;
    Unprefix(Pending(n.rest), "=", Pending(s1), value + tail);
    DigitPrefixOf(value, tail);
    ParseNumberSpec(s1);
    if value != "0" {
      ParseNumberReads(s1, value, tail);
    }
  }

  /** `parse_function_or_const` reads every well-formed line, followed by a
      line break or by the end of the input, into the entry the line stands
      for. */
  lemma LineReads(alpha: CharClass, sig: Signature, s: Scanner, l: Line, tail: string)
    requires LineOk(alpha, sig, l) && LineEnd(tail)
    requires Pending(s) == LineText(l) + tail
    ensures var r := ParseFunctionOrConst(alpha, sig, s);
      r.Ok? && r.value == RenderLine(l, tail == "") && Pending(r.rest) == tail
  {
    var p := Peek(s);
    match l
    case FunctionLine(name, ps, body) =>
      FunctionTextSplit(name, ps, body, tail);
      ParseFunctionReads(alpha, p.rest, name, ps, body, tail);
    case ConstantLine(name, value) =>
      ConstantTextSplit(name, value, tail);
      ParseConstantReads(p.rest, name, value, tail);
  }

  /** A well-formed document without its first line is well-formed. */
  lemma DocumentOkTail(alpha: CharClass, sig: Signature, ls: seq<Line>)
    requires DocumentOk(alpha, sig, ls) && |ls| > 1
    ensures LineOk(alpha, sig, ls[0]) && DocumentOk(alpha, sig, ls[1..])
  {
    assert LineOk(alpha, sig, ls[0]);
    forall i | 0 <= i < |ls[1..]| ensures LineOk(alpha, sig, ls[1..][i]) {
      assert ls[1..][i] == ls[i + 1];
    }
  }

  /** The loop of `parse` reads a written document line by line and appends
      the entries of its lines, in order, to those read before. */
  lemma {:induction false} EntriesReads(alpha: CharClass, sig: Signature, s: Scanner, acc: seq<Entry>, ls: seq<Line>)
    requires DocumentOk(alpha, sig, ls)
    requires Pending(s) == DocumentText(ls)
    ensures var r := Entries(alpha, sig, s, acc); r.Ok? && r.value == acc + RenderLines(ls)
    decreases |ls|
  {
    var more := DocumentText(ls[1..]);
    if |ls| > 1 {
      DocumentOkTail(alpha, sig, ls);
    }
    LineReads(alpha, sig, s, ls[0], "\n" + more);
    var e := ParseFunctionOrConst(alpha, sig, s);
    var p := Peek(e.rest);
    var s2 := ReadEol(p.rest).rest;
    Unprefix(Pending(p.rest), "\n", Pending(s2), more);
    if |ls| == 1 {
      EntriesLastLine(alpha, sig, s, acc, e.value, e.rest, s2);
      assert RenderLines(ls) == [e.value];
    } else {
      EntriesMore(alpha, sig, s, acc, e.value, e.rest, s2);
      EntriesReads(alpha, sig, Peek(s2).rest, acc + [e.value], ls[1..]);
      SeqRegroup(acc, e.value, RenderLines(ls[1..]));
    }
  }

  /** `parse` reads back every well-formed document, whatever blanks it
      holds: the entries are those of its lines, in order. */
  lemma ParseReads(alpha: CharClass, sig: Signature, input: string, ls: seq<Line>)
    requires DocumentOk(alpha, sig, ls)
    requires Strip(input) == DocumentText(ls)
    ensures Parse(alpha, sig, input) == Parsed(RenderLines(ls))
  {
    EntriesReads(alpha, sig, New(input), [], ls);
    assert [] + RenderLines(ls) == RenderLines(ls);
  }

  /** The written form of a document whose last line has no line break,
      split at its first line. */
  lemma UnterminatedTextSplit(ls: seq<Line>, last: Line)
    requires |ls| > 0
    ensures DocumentText(ls) + LineText(last)
      == LineText(ls[0]) + ("\n" + (DocumentText(ls[1..]) + LineText(last)))
  {
    Assoc(LineText(ls[0]), "\n" + DocumentText(ls[1..]), LineText(last));
    Assoc("\n", DocumentText(ls[1..]), LineText(last));
  }

  lemma EntriesRegroup(acc: seq<Entry>, e: Entry, es: seq<Entry>, x: Entry)
    ensures (acc + [e]) + es + [x] == acc + ([e] + es) + [x]
  {
  }

  /** The loop of `parse` on a document whose last line is not followed by
      a line break: the earlier lines read as in a terminated document, and
      the last one as a line at the end of the input. */
  lemma {:induction false} EntriesReadsUnterminated(alpha: CharClass, sig: Signature, s: Scanner, acc: seq<Entry>, ls: seq<Line>, last: Line)
    requires ls == [] || DocumentOk(alpha, sig, ls)
    requires LineOk(alpha, sig, last)
    requires Pending(s) == DocumentText(ls) + LineText(last)
    ensures var r := Entries(alpha, sig, s, acc);
      r.Ok? && r.value == acc + RenderLines(ls) + [RenderLine(last, true)]
    decreases |ls|, 1
  {
    if |ls| == 0 {
      NoEarlierLines(ls, acc, last);
      LastLineReads(alpha, sig, s, acc, last);
    } else {
      UnterminatedTextSplit(ls, last);
      EarlierLineReads(alpha, sig, s, acc, ls, last, DocumentText(ls[1..]) + LineText(last));
    }
  }

  lemma NoEarlierLines(ls: seq<Line>, acc: seq<Entry>, last: Line)
    requires ls == []
    ensures DocumentText(ls) + LineText(last) == LineText(last)
    ensures acc + RenderLines(ls) + [RenderLine(last, true)] == acc + [RenderLine(last, true)]
  {
  }

  /** The last line of the document, at the end of the input. */
  lemma LastLineReads(alpha: CharClass, sig: Signature, s: Scanner, acc: seq<Entry>, last: Line)
    requires LineOk(alpha, sig, last)
    requires Pending(s) == LineText(last)
    ensures var r := Entries(alpha, sig, s, acc);
      r.Ok? && r.value == acc + [RenderLine(last, true)]
  {
    assert Pending(s) == LineText(last) + "";
    LineReads(alpha, sig, s, last, "");
    var e := ParseFunctionOrConst(alpha, sig, s);
    EntriesAtEnd(alpha, sig, s, acc, e.value, e.rest);
  }

  /** A line before the last one, followed by a line break. */
  lemma {:induction false} EarlierLineReads(alpha: CharClass, sig: Signature, s: Scanner, acc: seq<Entry>, ls: seq<Line>, last: Line, more: string)
    requires |ls| > 0 && DocumentOk(alpha, sig, ls)
    requires LineOk(alpha, sig, last)
    requires more == DocumentText(ls[1..]) + LineText(last)
    requires Pending(s) == LineText(ls[0]) + ("\n" + more)
    ensures var r := Entries(alpha, sig, s, acc);
      r.Ok? && r.value == acc + RenderLines(ls) + [RenderLine(last, true)]
    decreases |ls|, 0
  {
    if |ls| > 1 {
      DocumentOkTail(alpha, sig, ls);
    } else {
      assert LineOk(alpha, sig, ls[0]);
    }
    LineReads(alpha, sig, s, ls[0], "\n" + more);
    var e := ParseFunctionOrConst(alpha, sig, s);
    var p := Peek(e.rest);
    var s2 := ReadEol(p.rest).rest;
    Unprefix(Pending(p.rest), "\n", Pending(s2), more);
    assert |LineText(last)| > 0;
    EntriesMore(alpha, sig, s, acc, e.value, e.rest, s2);
    EntriesReadsUnterminated(alpha, sig, Peek(s2).rest, acc + [e.value], ls[1..], last);
    EntriesRegroup(acc, e.value, RenderLines(ls[1..]), RenderLine(last, true));
  }

  /** `parse` reads back a well-formed document whose last line has no line
      break; that line is read as the end of the input. */
  lemma ParseReadsUnterminated(alpha: CharClass, sig: Signature, input: string, ls: seq<Line>, last: Line)
    requires ls == [] || DocumentOk(alpha, sig, ls)
    requires LineOk(alpha, sig, last)
    requires Strip(input) == DocumentText(ls) + LineText(last)
    ensures Parse(alpha, sig, input) == Parsed(RenderLines(ls) + [RenderLine(last, true)])
  {
    EntriesReadsUnterminated(alpha, sig, New(input), [], ls, last);
    assert [] + RenderLines(ls) == RenderLines(ls);
  }

  /** A document whose first symbol is neither a function nor a constant of
      the signature is refused at that symbol. */
  lemma UnknownNameRefused(alpha: CharClass, sig: Signature, input: string)
    requires |Strip(input)| > 0
    requires Strip(input)[0] !in sig.functions && Strip(input)[0] !in sig.constants
    ensures Parse(alpha, sig, input) == Failed(ExpectedName(Strip(input)[0]))
  {
    EntriesFail(alpha, sig, New(input), []);
  }

  /** A constant line whose value is the single digit `0` makes the whole
      document fail with the zero-number error. */
  lemma ZeroConstantRefused(alpha: CharClass, sig: Signature, input: string, name: char, tail: string)
    requires name !in sig.functions && name in sig.constants
    requires tail == "" || !IsDigit(tail[0])
    requires Strip(input) == [name] + ("=" + ("0" + tail))
    ensures Parse(alpha, sig, input) == Failed(ZeroNumber)
  {
    var s := New(input);
    ParseConstantReads(Peek(s).rest, name, "0", tail);
    EntriesFail(alpha, sig, s, []);
  }

  /** `parse_function` refuses a body that holds a coefficient written `0`,
      at any monomial and after any factors of it. */
  lemma ZeroCoefficientFunctionRefused(alpha: CharClass, s: Scanner, name: char, ps: seq<char>, ts: seq<Term>, fs: seq<Factor>, z: string)
    requires |ps| > 0 && forall i | 0 <= i < |ps| :: alpha(ps[i])
    requires (ts == [] || PolynomialOk(alpha, ts)) && FactorsOk(alpha, fs) && ZeroAhead(z)
    requires Pending(s) == [name] + ("(" + (ArgumentsText(ps) + ("=" + (LeadingTermsText(ts) + (FactorsText(fs) + z)))))
    ensures ParseFunction(alpha, s) == Err(ZeroNumber)
  {
    var body := LeadingTermsText(ts) + (FactorsText(fs) + z);
    ParseFunctionHeadReads(alpha, s, name, ps, "=" + body);
    var h := ParseFunctionHead(alpha, s);
    var s1 := ReadExactChar(h.rest, '=').rest;
    Unprefix(Pending(h.rest), "=", Pending(s1), body);
    ZeroCoefficientRefused(alpha, s1, ts, fs, z);
    FunctionBodyFails(alpha, s, h.value, h.rest, s1);
  }

  /** A first function line whose body holds a coefficient written `0`
      makes the whole document fail with the zero-number error. */
  lemma ZeroCoefficientLineRefused(alpha: CharClass, sig: Signature, input: string, name: char, ps: seq<char>, ts: seq<Term>, fs: seq<Factor>, z: string)
    requires name in sig.functions
    requires |ps| > 0 && forall i | 0 <= i < |ps| :: alpha(ps[i])
    requires (ts == [] || PolynomialOk(alpha, ts)) && FactorsOk(alpha, fs) && ZeroAhead(z)
    requires Strip(input) == [name] + ("(" + (ArgumentsText(ps) + ("=" + (LeadingTermsText(ts) + (FactorsText(fs) + z)))))
    ensures Parse(alpha, sig, input) == Failed(ZeroNumber)
  {
    var s := New(input);
    ZeroCoefficientFunctionRefused(alpha, Peek(s).rest, name, ps, ts, fs, z);
    LineIsFunction(alpha, sig, s, name);
    EntriesFail(alpha, sig, s, []);
  }

  lemma ZeroTimesVariableText()
    ensures "F(m)=0*m" == ['F'] + ("(" + (ArgumentsText("m") + ("=" + (LeadingTermsText([]) + (FactorsText([]) + "0*m")))))
  {
    assert ArgumentsText("m") == "m)";
    assert LeadingTermsText([]) + (FactorsText([]) + "0*m") == "0*m";
  }

  /** `F(m) = 0*m` is refused: the zero coefficient fails the document. */
  lemma ZeroTimesVariableRefused(alpha: CharClass, sig: Signature, input: string)
    requires 'F' in sig.functions && alpha('m')
    requires Strip(input) == "F(m)=0*m"
    ensures Parse(alpha, sig, input) == Failed(ZeroNumber)
  {
    ZeroTimesVariableText();
    ZeroCoefficientLineRefused(alpha, sig, input, 'F', "m", [], [], "0*m");
  }

  /** The lines of the repository's test interpretation. */
  function TestLines(): seq<Line> {
    [ FunctionLine('F', "mn", [Product([Factor("", 'm', "")]), Product([Factor("", 'n', "")])]),
      FunctionLine('G', "o", [Product([Factor("2", 'o', "")])]) ]
  }

  lemma TestLinesOk(alpha: CharClass, sig: Signature)
    requires 'F' in sig.functions && 'G' in sig.functions
    requires alpha('m') && alpha('n') && alpha('o')
    ensures DocumentOk(alpha, sig, TestLines())
  {
    var ls := TestLines();
    assert TermOk(alpha, ls[0].body[0]) && TermOk(alpha, ls[0].body[1]) && TermOk(alpha, ls[1].body[0]);
    assert LineOk(alpha, sig, ls[0]) && LineOk(alpha, sig, ls[1]);
  }

  lemma TestLinesText()
    ensures DocumentText(TestLines()) == "F(m,n)=m+n\nG(o)=2*o\n"
  {
    var ls := TestLines();
    var f := ls[0];
    var g := ls[1];
    assert PolynomialText(f.body) == "m+n" by {
      assert f.body[1..] == [f.body[1]];
    }
    assert LineText(f) == "F(m,n)=m+n";
    assert LineText(g) == "G(o)=2*o";
    assert ls[1..] == [g];
    assert DocumentText([g]) == "G(o)=2*o\n" by {
      assert [g][1..] == [];
    }
  }

  lemma StripFive(a: string, b: string, c: string, d: string)
    ensures Strip(a + b + c + b + d) == Strip(a) + Strip(b) + Strip(c) + Strip(b) + Strip(d)
  {
    StripConcat(a + b + c + b, d);
    StripConcat(a + b + c, b);
    StripConcat(a + b, c);
    StripConcat(a, b);
  }

  lemma TestInputPieces()
    ensures "F(m,n) = m+n\nG(o) = 2*o\n" == "F(m,n)" + " = " + "m+n\nG(o)" + " = " + "2*o\n"
    ensures "F(m,n)" + "=" + "m+n\nG(o)" + "=" + "2*o\n" == "F(m,n)=m+n\nG(o)=2*o\n"
  {
  }

  lemma TestInputStrip()
    ensures Strip("F(m,n) = m+n\nG(o) = 2*o\n") == "F(m,n)=m+n\nG(o)=2*o\n"
  {
    TestInputPieces();
    StripFive("F(m,n)", " = ", "m+n\nG(o)", "2*o\n");
    TestPiecesStrip();
  }

  lemma TestPiecesStrip()
    ensures Strip("F(m,n)") == "F(m,n)"
    ensures Strip(" = ") == "="
    ensures Strip("m+n\nG(o)") == "m+n\nG(o)"
    ensures Strip("2*o\n") == "2*o\n"
  {
    StripKeeps("F(m,n)");
    TestBodiesStrip();
    TestEqualsStrip();
  }

  lemma TestEqualsStrip()
    ensures Strip(" = ") == "="
  {
    assert " = "[1..] == "= ";
    assert "= "[1..] == " ";
  }

  lemma TestBodiesStrip()
    ensures Strip("m+n\nG(o)") == "m+n\nG(o)"
    ensures Strip("2*o\n") == "2*o\n"
  {
    StripKeeps("m+n\nG(o)");
    StripKeeps("2*o\n");
  }

  lemma TestLinesRender()
    ensures RenderLines(TestLines()) == [Entry('F', {'m', 'n'}, "(m + n)"), Entry('G', {'o'}, "(2 * o)")]
  {
    var ls := TestLines();
    var f := ls[0];
    var g := ls[1];
    assert RenderLine(f, false) == Entry('F', {'m', 'n'}, "(m + n)") by {
      assert ParameterSet("mn") == {'m', 'n'};
      assert RenderTerms(f.body, false) == ["m", "n"] by {
        assert f.body[1..] == [f.body[1]];
      }
      assert Join(["m", "n"], " + ") == "m + n" by {
        assert ["m", "n"][1..] == ["n"];
      }
    }
    assert RenderLine(g, false) == Entry('G', {'o'}, "(2 * o)") by {
      assert ParameterSet("o") == {'o'};
      assert RenderTerm(g.body[0]) == "2 * o";
      assert RenderTerms(g.body, false) == ["2 * o"];
    }
    assert ls[1..] == [g];
    assert RenderLines([g]) == [RenderLine(g, false)] by {
      assert [g][1..] == [];
    }
  }

  /** The interpretation of the repository's test: `F(m,n) = m+n` and
      `G(o) = 2*o`, each followed by a line break. */
  lemma TestInterpretation(alpha: CharClass, sig: Signature)
    requires 'F' in sig.functions && 'G' in sig.functions
    requires alpha('m') && alpha('n') && alpha('o')
    ensures Parse(alpha, sig, "F(m,n) = m+n\nG(o) = 2*o\n")
      == Parsed([Entry('F', {'m', 'n'}, "(m + n)"), Entry('G', {'o'}, "(2 * o)")])
  {
    TestLinesOk(alpha, sig);
    TestLinesText();
    TestInputStrip();
    TestLinesRender();
    ParseReads(alpha, sig, "F(m,n) = m+n\nG(o) = 2*o\n", TestLines());
  }

  /** The same interpretation without the final line break, as the
      repository's end-to-end test sends it: the last line ends the input,
      and its single factor `2*o` is kept whole. */
  lemma TestUnterminatedInterpretation(alpha: CharClass, sig: Signature)
    requires 'F' in sig.functions && 'G' in sig.functions
    requires alpha('m') && alpha('n') && alpha('o')
    ensures Parse(alpha, sig, "F(m,n) = m+n\nG(o) = 2*o")
      == Parsed([Entry('F', {'m', 'n'}, "(m + n)"), Entry('G', {'o'}, "(2 * o)")])
  {
    var ls := TestLines();
    TestLinesOk(alpha, sig);
    assert DocumentOk(alpha, sig, ls[..1]) && LineOk(alpha, sig, ls[1]);
    TestUnterminatedText();
    TestUnterminatedStrip();
    TestUnterminatedRender();
    ParseReadsUnterminated(alpha, sig, "F(m,n) = m+n\nG(o) = 2*o", ls[..1], ls[1]);
  }

  lemma TestUnterminatedText()
    ensures DocumentText(TestLines()[..1]) + LineText(TestLines()[1]) == "F(m,n)=m+n\nG(o)=2*o"
  {
    var ls := TestLines();
    TestLinesText();
    assert DocumentText(ls) == LineText(ls[0]) + "\n" + LineText(ls[1]) + "\n" by {
      assert ls[1..] == [ls[1]];
      assert ls[1..][1..] == [];
    }
    assert DocumentText(ls[..1]) == LineText(ls[0]) + "\n" by {
      assert ls[..1][1..] == [];
    }
    assert LineText(ls[1]) == "G(o)=2*o";
  }

  lemma TestUnterminatedStrip()
    ensures Strip("F(m,n) = m+n\nG(o) = 2*o") == "F(m,n)=m+n\nG(o)=2*o"
  {
    TestUnterminatedPieces();
    StripFive("F(m,n)", " = ", "m+n\nG(o)", "2*o");
    TestPiecesStrip();
    TestLastBodyStrip();
  }

  lemma TestLastBodyStrip()
    ensures Strip("2*o") == "2*o"
  {
    StripKeeps("2*o");
  }

  lemma TestUnterminatedPieces()
    ensures "F(m,n) = m+n\nG(o) = 2*o" == "F(m,n)" + " = " + "m+n\nG(o)" + " = " + "2*o"
    ensures "F(m,n)" + "=" + "m+n\nG(o)" + "=" + "2*o" == "F(m,n)=m+n\nG(o)=2*o"
  {
  }

  lemma TestUnterminatedRender()
    ensures RenderLines(TestLines()[..1]) + [RenderLine(TestLines()[1], true)]
      == [Entry('F', {'m', 'n'}, "(m + n)"), Entry('G', {'o'}, "(2 * o)")]
  {
    var ls := TestLines();
    TestLinesRender();
    assert RenderLines(ls) == [RenderLine(ls[0], false), RenderLine(ls[1], false)] by {
      assert ls[1..] == [ls[1]];
      assert ls[1..][1..] == [];
    }
    assert RenderLines(ls[..1]) == [RenderLine(ls[0], false)] by {
      assert ls[..1][1..] == [];
    }
    var g := ls[1];
    assert RenderLine(g, true) == Entry('G', {'o'}, "(2 * o)") by {
      assert ParameterSet("o") == {'o'};
      assert RenderLastTerm(g.body[0], true) == "2 * o";
      assert RenderTerms(g.body, true) == ["2 * o"];
    }
  }
}
