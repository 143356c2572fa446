/** The recursive-descent interpretation parser `ParserInterpret` of
    src/parsers/parser_interpret.rs. It reads lines such as
    `F(x,y) = 2*x{2}y + y` or `c = 5` against a signature and produces one
    entry per line: the symbol, its parameter set and a normalised expression
    string. Each parsing function takes the scanner state and returns the
    value read together with the state after it, or the error that stops the
    parse. */
module Interpret {
  import opened Text
  import opened Scanning

  /** The `Model` the parser is given: function symbols with their arity and
      the constant symbols. */
  datatype Signature = Signature(functions: map<char, nat>, constants: set<char>)

  /** `ParsedInterpretFunction`: the parameters come out of a hash set, so
      their order is unspecified and they are modelled as a set. */
  datatype Entry = Entry(name: char, parameters: set<char>, expression: string)

  /** Why a parse stopped. `UnexpectedEof` is `peek` or `next` finding nothing
      where the parser applies `?` to it. */
  datatype ParseError =
    | UnexpectedEof
    | ExpectedChar(expected: char, got: char)
    | ExpectedEol(got: char)
    | ExpectedName(got: char)
    | ZeroNumber
    | ExpectedAlphabetic(got: char)
    | ExpectedCommaOrParen(got: char)
    | ExpectedPlusOrEol(got: char)
  {
    /** The error text. The wording of the first three belongs to scanner
        helpers that are not part of this model and is this model's own.
        Every text that reports a character ends with it, quoted when the
        source quotes it. */
    function Message(): (m: string)
      ensures |m| > 0
      ensures (this.ExpectedName? || this.ExpectedAlphabetic?) ==> m[|m| - 1] == this.got
      ensures (|| this.ExpectedChar? || this.ExpectedEol?
               || this.ExpectedCommaOrParen? || this.ExpectedPlusOrEol?) ==>
        |m| >= 2 && m[|m| - 2] == this.got && m[|m| - 1] == '\''
    {
      match this
      case UnexpectedEof => "unexpected end of input"
      case ExpectedChar(e, c) => "expected '" + [e] + "', got '" + [c] + "'"
      case ExpectedEol(c) => "expected end of line, got '" + [c] + "'"
      case ExpectedName(c) => "expected name of function or constant, got " + [c]
      case ZeroNumber => "Number can't be zero"
      case ExpectedAlphabetic(c) => "Expected alphabetic name, got " + [c]
      case ExpectedCommaOrParen(c) => "Expected ',' or ')',  got '" + [c] + "'"
      case ExpectedPlusOrEol(c) => "Expected '+' or eol,  got '" + [c] + "'"
    }
  }

  /** A parsing step: the value read and the scanner after it, or an error. */
  datatype Result<+T> = Ok(value: T, rest: Scanner) | Err(error: ParseError)

  /** The result of parsing a whole document. */
  datatype Outcome = Parsed(entries: seq<Entry>) | Failed(error: ParseError)

  /** `char::is_alphabetic`, left abstract: the parser is a function of it. */
  type CharClass = char -> bool

  /** The text a successful argument list consumes, blanks removed:
      `a,b,c)`. */
  function ArgumentsText(vs: seq<char>): (t: string)
    requires |vs| > 0
    ensures |t| == 2 * |vs|
    ensures t[0] == vs[0] && t[|t| - 1] == ')'
  {
    if |vs| == 1 then [vs[0], ')'] else [vs[0], ','] + ArgumentsText(vs[1..])
  }

  /** A string enclosed in a pair of parentheses. */
  predicate Parenthesised(e: string) {
    |e| >= 2 && e[0] == '(' && e[|e| - 1] == ')'
  }

  /** Shape every successfully parsed entry has. */
  predicate EntryFits(sig: Signature, e: Entry) {
    && Parenthesised(e.expression)
    && (|| (e.name in sig.functions && e.parameters != {})
        || (e.name !in sig.functions && e.name in sig.constants && e.parameters == {}))
  }

  lemma PrefixOfExtension<T>(xs: seq<T>, acc: seq<T>, x: T)
    requires |xs| > |acc| && xs[..|acc| + 1] == acc + [x]
    ensures xs[..|acc|] == acc && xs[|acc|] == x
  {
    assert xs[..|acc|] == xs[..|acc| + 1][..|acc|];
  }

  /** Scanner helper `read_exact_char`: the next character must be `expected`. */
  function ReadExactChar(s: Scanner, expected: char): (r: Result<()>)
    ensures r.Ok? <==> First(Pending(s)) == Some(expected)
    ensures r.Ok? ==> Consumed(s, r.rest) && Pending(s) == [expected] + Pending(r.rest)
    ensures First(Pending(s)).None? ==> r == Err(UnexpectedEof)
    ensures First(Pending(s)).Some? && Pending(s)[0] != expected ==>
      r == Err(ExpectedChar(expected, Pending(s)[0]))
  {
    var n := Next(s);
    match n.value
    case None => Err(UnexpectedEof)
    case Some(c) => if c == expected then Ok((), n.rest) else Err(ExpectedChar(expected, c))
  }

  /** Scanner helper `read_eol`: a line break is `\n`, `\r\n` or a lone `\r`.
      The `\n` of `\r\n` must follow the `\r` directly. */
  function ReadEol(s: Scanner): (r: Result<()>)
    ensures First(Pending(s)).None? ==> r == Err(UnexpectedEof)
    ensures First(Pending(s)).Some? && Pending(s)[0] !in {'\n', '\r'} ==>
      r == Err(ExpectedEol(Pending(s)[0]))
    ensures First(Pending(s)) == Some('\n') ==> r.Ok? && Pending(s) == "\n" + Pending(r.rest)
    ensures First(Pending(s)) == Some('\r') ==>
      && r.Ok?
      && (Pending(s) == "\r" + Pending(r.rest) || Pending(s) == "\r\n" + Pending(r.rest))
    ensures r.Ok? ==> Consumed(s, r.rest)
  {
    var n := Next(s);
    match n.value
    case None => Err(UnexpectedEof)
    case Some(c) =>
      if c == '\n' then Ok((), n.rest)
      else if c == '\r' then
        var t := n.rest;
        if t.pos < |t.input| && t.input[t.pos] == '\n' then
          AdvanceFromPeek(t, Advance(t));
          Ok((), Advance(t))
        else Ok((), t)
      else Err(ExpectedEol(c))
  }

  /** The loop of `parse_number_string`: take characters while `peek` shows an
      ASCII digit. Blanks between digits are skipped, so the digits read are
      the longest digit prefix of the pending text. */
  function ReadDigits(s: Scanner): (r: Step<string>)
    decreases |s.input| - s.pos
    ensures Stays(s, r.rest)
    ensures AllDigits(r.value)
    ensures |r.value| > 0 ==> Consumed(s, r.rest)
  {
    var p := Peek(s);
    match p.value
    case None => Step("", p.rest)
    case Some(c) =>
      if !IsDigit(c) then Step("", p.rest)
      else
        var n := Next(p.rest);
        var more := ReadDigits(n.rest);
        Step([c] + more.value, more.rest)
  }

  /** `parse_number_string`: the digit run, which is refused exactly when it is
      the single digit `0`. The empty run and runs such as `00` pass. */
  function ParseNumber(s: Scanner): (r: Result<string>)
    ensures r.Err? ==> r.error == ZeroNumber
    ensures r.Ok? ==>
      && AllDigits(r.value)
      && r.value != "0"
      && Stays(s, r.rest)
      && (|r.value| > 0 ==> Consumed(s, r.rest))
  {
    var d := ReadDigits(s);
    if d.value == "0" then Err(ZeroNumber) else Ok(d.value, d.rest)
  }

  /** `parse_variable`: the next character, which must be alphabetic. */
  function ParseVariable(alpha: CharClass, s: Scanner): (r: Result<char>)
    ensures r.Ok? <==> |Pending(s)| > 0 && alpha(Pending(s)[0])
    ensures r.Ok? ==> Consumed(s, r.rest) && Pending(s) == [r.value] + Pending(r.rest)
    ensures |Pending(s)| == 0 ==> r == Err(UnexpectedEof)
    ensures |Pending(s)| > 0 && !alpha(Pending(s)[0]) ==> r == Err(ExpectedAlphabetic(Pending(s)[0]))
  {
    var n := Next(s);
    match n.value
    case None => Err(UnexpectedEof)
    case Some(c) => if !alpha(c) then Err(ExpectedAlphabetic(c)) else Ok(c, n.rest)
  }

  /** The loop of `parse_function_arguments`, keeping the names in the order
      read: a name, then `,` to go on or `)` to stop. */
  function ReadArguments(alpha: CharClass, s: Scanner): (r: Result<seq<char>>)
    decreases |s.input| - s.pos
    ensures r.Ok? ==>
      && |r.value| > 0
      && (forall i | 0 <= i < |r.value| :: alpha(r.value[i]))
      && Consumed(s, r.rest)
  {
    match ParseVariable(alpha, s)
    case Err(e) => Err(e)
    case Ok(v, s1) =>
      var n := Next(s1);
      match n.value
      case None => Err(UnexpectedEof)
      case Some(p) =>
        if p == ')' then Ok([v], n.rest)
        else if p != ',' then Err(ExpectedCommaOrParen(p))
        else
          match ReadArguments(alpha, n.rest)
          case Err(e) => Err(e)
          case Ok(vs, t) => Ok([v] + vs, t)
  }

  /** `parse_function_arguments`: the parameter names as a set, so repeated
      names collapse. */
  function ParseFunctionArguments(alpha: CharClass, s: Scanner): (r: Result<set<char>>)
    ensures r.Ok? ==>
      && r.value != {}
      && (forall v | v in r.value :: alpha(v))
      && Consumed(s, r.rest)
  {
    match ReadArguments(alpha, s)
    case Err(e) => Err(e)
    case Ok(vs, t) =>
      var names := set v | v in vs;
      assert vs[0] in names;
      Ok(names, t)
  }

  /** `build_monomial`: `variable`, prefixed by `coefficient * ` and
      suffixed by `^degree` when those are not empty. */
  function BuildMonomial(coefficient: string, variable: string, degree: string): (m: string)
    ensures coefficient == "" && degree == "" ==> m == variable
    ensures |m| == |variable|
                   + (if coefficient == "" then 0 else |coefficient| + 3)
                   + (if degree == "" then 0 else |degree| + 1)
  {
    var withCoefficient := if coefficient != "" then coefficient + " * " + variable else variable;
    if degree != "" then withCoefficient + "^" + degree else withCoefficient
  }

  /** `parse_degree`: `{`, a number, `}`. */
  function ParseDegree(s: Scanner): (r: Result<string>)
    ensures r.Ok? ==>
      && AllDigits(r.value)
      && r.value != "0"
      && Consumed(s, r.rest)
  {
    match ReadExactChar(s, '{')
    case Err(e) => Err(e)
    case Ok(_, s1) =>
      match ParseNumber(s1)
      case Err(e) => Err(e)
      case Ok(d, s2) =>
        match ReadExactChar(s2, '}')
        case Err(e) => Err(e)
        case Ok(_, s3) => Ok(d, s3)
  }

  /** Where a monomial made of variable factors may end: the end of the
      input, `+` or a line break. */
  predicate EndsMonomial(t: string) {
    |t| == 0 || t[0] in {'+', '\n', '\r'}
  }

  /** Where a polynomial, and so a line, may end: the end of the input or a
      line break. */
  predicate LineEnd(t: string) {
    |t| == 0 || t[0] in {'\n', '\r'}
  }

  /** First half of the factor loop of `parse_monomial`, entered before a
      factor's variable with that factor's coefficient already read; `parts`
      holds the factors rendered so far. At the end of the input right after
      the variable only this factor is returned and `parts` is dropped. */
  function Factors(alpha: CharClass, s: Scanner, coefficient: string, parts: seq<string>): (r: Result<string>)
    decreases |s.input| - s.pos, 0
    ensures r.Ok? ==> Consumed(s, r.rest) && EndsMonomial(Pending(r.rest))
  {
    match ParseVariable(alpha, s)
    case Err(e) => Err(e)
    case Ok(v, s1) =>
      var p := Peek(s1);
      if p.value.None? then Ok(BuildMonomial(coefficient, [v], ""), p.rest)
      else
        match OptionalDegree(p.rest)
        case Err(e) => Err(e)
        case Ok(degree, s2) => MoreFactors(alpha, s2, parts + [BuildMonomial(coefficient, [v], degree)])
  }

  /** A factor's degree when `{` follows its variable, else the empty degree. */
  function OptionalDegree(s: Scanner): (r: Result<string>)
    ensures r.Ok? ==> Stays(s, r.rest) && AllDigits(r.value) && r.value != "0"
    ensures First(Pending(s)) != Some('{') ==> r == Ok("", Peek(s).rest)
  {
    var p := Peek(s);
    if p.value == Some('{') then ParseDegree(p.rest) else Ok("", p.rest)
  }

  /** Second half of the factor loop: stop before `+`, a line break or the end
      of the input with the factors joined by ` * `; otherwise read the next
      factor's coefficient, if it has one, and go on. */
  function MoreFactors(alpha: CharClass, s: Scanner, parts: seq<string>): (r: Result<string>)
    decreases |s.input| - s.pos, 1
    ensures r.Ok? ==> Stays(s, r.rest) && EndsMonomial(Pending(r.rest))
  {
    var q := Peek(s);
    if q.value.None? || q.value.value in {'+', '\n', '\r'} then Ok(Join(parts, " * "), q.rest)
    else if IsDigit(q.value.value) then
      match ParseNumber(q.rest)
      case Err(e) => Err(e)
      case Ok(c, s3) =>
        match ReadExactChar(s3, '*')
        case Err(e) => Err(e)
        case Ok(_, s4) => Factors(alpha, s4, c, parts)
    else Factors(alpha, q.rest, "", parts)
  }

  /** `parse_monomial`: a bare coefficient, or an optional `coefficient*`
      followed by variable factors. */
  function ParseMonomial(alpha: CharClass, s: Scanner): (r: Result<string>)
    ensures r.Ok? ==> Consumed(s, r.rest)
    ensures |Pending(s)| == 0 ==> r == Err(UnexpectedEof)
  {
    var p := Peek(s);
    match p.value
    case None => Err(UnexpectedEof)
    case Some(c) =>
      if IsDigit(c) then
        match ParseNumber(p.rest)
        case Err(e) => Err(e)
        case Ok(coefficient, s1) =>
          var q := Peek(s1);
          if q.value.None? || q.value.value != '*' then Ok(coefficient, q.rest)
          else
            match ReadExactChar(q.rest, '*')
            case Err(e) => Err(e)
            case Ok(_, s2) => Factors(alpha, s2, coefficient, [])
      else Factors(alpha, p.rest, "", [])
  }

  /** The loop of `parse_polynomial_expression`: monomials separated by `+`,
      stopping before a line break or at the end of the input. */
  function Monomials(alpha: CharClass, s: Scanner, parts: seq<string>): (r: Result<seq<string>>)
    decreases |s.input| - s.pos
    ensures r.Ok? ==>
      && Consumed(s, r.rest)
      && LineEnd(Pending(r.rest))
  {
    match ParseMonomial(alpha, s)
    case Err(e) => Err(e)
    case Ok(m, s1) =>
      var parts' := parts + [m];
      var p := Peek(s1);
      match p.value
      case None => Ok(parts', p.rest)
      case Some(c) =>
        if c == '\n' || c == '\r' then Ok(parts', p.rest)
        else if c != '+' then Err(ExpectedPlusOrEol(c))
        else
          match ReadExactChar(p.rest, '+')
          case Err(e) => Err(e)
          case Ok(_, s2) => Monomials(alpha, s2, parts')
  }

  /** `parse_polynomial_expression`: the monomials joined by ` + ` inside
      parentheses. The parameter set is not consulted. */
  function ParsePolynomial(alpha: CharClass, s: Scanner): (r: Result<string>)
    ensures r.Ok? ==>
      && Parenthesised(r.value)
      && Consumed(s, r.rest)
      && LineEnd(Pending(r.rest))
  {
    match Monomials(alpha, s, [])
    case Err(e) => Err(e)
    case Ok(parts, t) => Ok("(" + Join(parts, " + ") + ")", t)
  }

  /** `parse_function`: name, `(`, parameters, `=`, polynomial. Neither the
      name nor the number of parameters is checked against the signature. */
  function ParseFunction(alpha: CharClass, s: Scanner): (r: Result<Entry>)
    ensures r.Ok? ==>
      && First(Pending(s)) == Some(r.value.name)
      && r.value.parameters != {}
      && (forall v | v in r.value.parameters :: alpha(v))
      && Parenthesised(r.value.expression)
      && Consumed(s, r.rest)
      && LineEnd(Pending(r.rest))
  {
    match ParseFunctionHead(alpha, s)
    case Err(e) => Err(e)
    case Ok(head, s1) =>
      match ParseFunctionBody(alpha, s1)
      case Err(e) => Err(e)
      case Ok(expression, s2) => Ok(Entry(head.0, head.1, expression), s2)
  }

  /** The head of `parse_function`: the name, `(` and the parameters. */
  function ParseFunctionHead(alpha: CharClass, s: Scanner): (r: Result<(char, set<char>)>)
    ensures r.Ok? ==>
      && First(Pending(s)) == Some(r.value.0)
      && r.value.1 != {}
      && (forall v | v in r.value.1 :: alpha(v))
      && Consumed(s, r.rest)
  {
    var n := Next(s);
    match n.value
    case None => Err(UnexpectedEof)
    case Some(name) =>
      match ReadExactChar(n.rest, '(')
      case Err(e) => Err(e)
      case Ok(_, s1) =>
        match ParseFunctionArguments(alpha, s1)
        case Err(e) => Err(e)
        case Ok(parameters, s2) => Ok((name, parameters), s2)
  }

  /** The tail of `parse_function`: `=` and the polynomial. */
  function ParseFunctionBody(alpha: CharClass, s: Scanner): (r: Result<string>)
    ensures r.Ok? ==>
      && Parenthesised(r.value)
      && Consumed(s, r.rest)
      && LineEnd(Pending(r.rest))
  {
    match ReadExactChar(s, '=')
    case Err(e) => Err(e)
    case Ok(_, s1) => ParsePolynomial(alpha, s1)
  }

  /** `parse_constant`: name, `=`, number; the expression is the number in
      parentheses and there are no parameters. */
  function ParseConstant(s: Scanner): (r: Result<Entry>)
    ensures r.Ok? ==>
      && First(Pending(s)) == Some(r.value.name)
      && r.value.parameters == {}
      && Parenthesised(r.value.expression)
      && Consumed(s, r.rest)
  {
    var n := Next(s);
    match n.value
    case None => Err(UnexpectedEof)
    case Some(name) =>
      match ReadExactChar(n.rest, '=')
      case Err(e) => Err(e)
      case Ok(_, s1) =>
        match ParseNumber(s1)
        case Err(e) => Err(e)
        case Ok(number, s2) => Ok(Entry(name, {}, "(" + number + ")"), s2)
  }

  /** `parse_function_or_const`: a symbol that is a function of the signature
      starts a function entry; otherwise one that is a constant starts a
      constant entry; anything else is refused. */
  function ParseFunctionOrConst(alpha: CharClass, sig: Signature, s: Scanner): (r: Result<Entry>)
    ensures |Pending(s)| == 0 ==> r == Err(UnexpectedEof)
    ensures |Pending(s)| > 0 && Pending(s)[0] !in sig.functions && Pending(s)[0] !in sig.constants ==>
      r == Err(ExpectedName(Pending(s)[0]))
    ensures r.Ok? ==> r.value.name == Pending(s)[0] && EntryFits(sig, r.value) && Consumed(s, r.rest)
  {
    var p := Peek(s);
    match p.value
    case None => Err(UnexpectedEof)
    case Some(name) =>
      if name in sig.functions then ParseFunction(alpha, p.rest)
      else if name in sig.constants then ParseConstant(p.rest)
      else Err(ExpectedName(name))
  }

  /** The loop of `parse`: entries separated by line breaks, up to the end of
      the input; a line break at the very end is allowed. */
  function Entries(alpha: CharClass, sig: Signature, s: Scanner, acc: seq<Entry>): (r: Result<seq<Entry>>)
    decreases |s.input| - s.pos
    ensures r.Ok? ==> |r.value| > |acc| && r.value[..|acc|] == acc && Pending(r.rest) == ""
  {
    match ParseFunctionOrConst(alpha, sig, s)
    case Err(e) => Err(e)
    case Ok(entry, s1) =>
      var acc' := acc + [entry];
      var p := Peek(s1);
      if p.value.None? then Ok(acc', p.rest)
      else
        match ReadEol(p.rest)
        case Err(e) => Err(e)
        case Ok(_, s2) =>
          var q := Peek(s2);
          if q.value.None? then Ok(acc', q.rest)
          else
            match Entries(alpha, sig, q.rest, acc')
            case Err(e) => Err(e)
            case Ok(es, t) =>
              PrefixOfExtension(es, acc, entry);
              Ok(es, t)
  }

  /** `parse`: every entry of the document in input order, or the first error. */
  function Parse(alpha: CharClass, sig: Signature, input: string): (r: Outcome)
    ensures Strip(input) == "" ==> r == Failed(UnexpectedEof)
    ensures r.Parsed? ==> |r.entries| > 0
  {
    match Entries(alpha, sig, New(input), [])
    case Err(e) => Failed(e)
    case Ok(entries, _) => Parsed(entries)
  }
}
