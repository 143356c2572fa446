/** A reference grammar for interpretation documents, independent of the
    parser: how a line is written (blanks removed) and what entry it stands
    for. The round-trip lemmas show that the parser reads the written form
    back into that entry. */
module Syntax {
  import opened Text
  import opened Interpret

  /** One factor of a product as written: an optional coefficient followed by
      `*`, a variable, and an optional degree in braces. An empty coefficient
      or degree is absent. */
  datatype Factor = Factor(coefficient: string, variable: char, degree: string)

  /** A monomial as written: a bare number, or a product of factors written
      side by side. */
  datatype Term = Number(digits: string) | Product(factors: seq<Factor>)

  /** A line of a document: a function with its parameter list and body, or a
      constant with its value. */
  datatype Line =
    | FunctionLine(name: char, parameters: seq<char>, body: seq<Term>)
    | ConstantLine(name: char, value: string)

  /** Characters that separate or introduce the parts of a polynomial, and so
      cannot stand for a variable in one. */
  predicate Reserved(c: char) {
    IsDigit(c) || IsBlank(c) || c in {'{', '}', '*', '+', '\n', '\r'}
  }

  /** A digit string the number reader accepts. */
  predicate Numeral(d: string) {
    AllDigits(d) && d != "0"
  }

  predicate FactorOk(alpha: CharClass, f: Factor) {
    && alpha(f.variable)
    && !Reserved(f.variable)
    && Numeral(f.coefficient)
    && Numeral(f.degree)
  }

  predicate FactorsOk(alpha: CharClass, fs: seq<Factor>) {
    forall i | 0 <= i < |fs| :: FactorOk(alpha, fs[i])
  }

  predicate TermOk(alpha: CharClass, t: Term) {
    match t
    case Number(d) => d != "" && Numeral(d)
    case Product(fs) => |fs| > 0 && FactorsOk(alpha, fs)
  }

  predicate PolynomialOk(alpha: CharClass, ts: seq<Term>) {
    |ts| > 0 && forall i | 0 <= i < |ts| :: TermOk(alpha, ts[i])
  }

  predicate LineOk(alpha: CharClass, sig: Signature, l: Line) {
    match l
    case FunctionLine(name, ps, body) =>
      && name in sig.functions
      && |ps| > 0
      && (forall i | 0 <= i < |ps| :: alpha(ps[i]))
      && PolynomialOk(alpha, body)
    case ConstantLine(name, value) =>
      && name !in sig.functions
      && name in sig.constants
      && Numeral(value)
  }

  predicate DocumentOk(alpha: CharClass, sig: Signature, ls: seq<Line>) {
    |ls| > 0 && forall i | 0 <= i < |ls| :: LineOk(alpha, sig, ls[i])
  }

  // Written forms.

  function DegreeText(d: string): string {
    if d == "" then "" else "{" + d + "}"
  }

  function FactorText(f: Factor): string {
    (if f.coefficient == "" then "" else f.coefficient + "*") + ([f.variable] + DegreeText(f.degree))
  }

  function FactorsText(fs: seq<Factor>): string {
    if |fs| == 0 then "" else FactorText(fs[0]) + FactorsText(fs[1..])
  }

  function TermText(t: Term): string {
    match t
    case Number(d) => d
    case Product(fs) => FactorsText(fs)
  }

  function PolynomialText(ts: seq<Term>): string
    requires |ts| > 0
  {
    if |ts| == 1 then TermText(ts[0]) else TermText(ts[0]) + ("+" + PolynomialText(ts[1..]))
  }

  function LineText(l: Line): string {
    match l
    case FunctionLine(name, ps, body) =>
      if |ps| == 0 || |body| == 0 then [name]
      else [name] + ("(" + (ArgumentsText(ps) + ("=" + PolynomialText(body))))
    case ConstantLine(name, value) => [name] + ("=" + value)
  }

  /** A document: every line followed by a line break. */
  function DocumentText(ls: seq<Line>): string {
    if |ls| == 0 then "" else LineText(ls[0]) + ("\n" + DocumentText(ls[1..]))
  }

  // Intended renderings.

  function RenderFactor(f: Factor): string {
    BuildMonomial(f.coefficient, [f.variable], f.degree)
  }

  function RenderFactors(fs: seq<Factor>): (r: seq<string>)
    ensures |r| == |fs|
  {
    if |fs| == 0 then [] else [RenderFactor(fs[0])] + RenderFactors(fs[1..])
  }

  /** A product renders as its factors joined by ` * `. */
  function RenderTerm(t: Term): string {
    match t
    case Number(d) => d
    case Product(fs) => Join(RenderFactors(fs), " * ")
  }

  /** What the parser yields for the last term of a polynomial. When the
      input ends right after that term and its last factor has no degree,
      only that factor is returned: the earlier factors are dropped. */
  function RenderLastTerm(t: Term, atEnd: bool): string {
    if atEnd && t.Product? && |t.factors| > 0 && t.factors[|t.factors| - 1].degree == ""
    then RenderFactor(t.factors[|t.factors| - 1])
    else RenderTerm(t)
  }

  function RenderTerms(ts: seq<Term>, atEnd: bool): (r: seq<string>)
    requires |ts| > 0
    ensures |r| == |ts|
  {
    if |ts| == 1 then [RenderLastTerm(ts[0], atEnd)]
    else [RenderTerm(ts[0])] + RenderTerms(ts[1..], atEnd)
  }

  /** The polynomial in parentheses, terms joined by ` + `; `atEnd` says
      whether the input ends right after it. */
  function RenderPolynomial(ts: seq<Term>, atEnd: bool): string
    requires |ts| > 0
  {
    "(" + Join(RenderTerms(ts, atEnd), " + ") + ")"
  }

  /** The names of a written parameter list, as a set. */
  function ParameterSet(ps: seq<char>): set<char> {
    set v | v in ps
  }

  /** The entry a line stands for; `atEnd` says whether the input ends
      right after the line. */
  function RenderLine(l: Line, atEnd: bool): Entry {
    match l
    case FunctionLine(name, ps, body) =>
      Entry(name, ParameterSet(ps), if |body| == 0 then "" else RenderPolynomial(body, atEnd))
    case ConstantLine(name, value) => Entry(name, {}, "(" + value + ")")
  }

  /** The entries of lines each followed by a line break. */
  function RenderLines(ls: seq<Line>): (r: seq<Entry>)
    ensures |r| == |ls|
  {
    if |ls| == 0 then [] else [RenderLine(ls[0], false)] + RenderLines(ls[1..])
  }
}
