# Interpretation parser of tofl-gpt-parser, in Dafny

This project models the core of the interpretation parser of the
`tofl-gpt-parser` repository (Rust) and proves properties of that model. The
parser reads an *interpretation*: one line per function or constant symbol of
a term-rewriting signature. Each line assigns the symbol a polynomial or a
number, for example `F(m,n) = m+n` or `c = 5`. The result is one entry per
line: the symbol, its parameter names and a normalised expression string such
as `(m + n)`.

Two source files are modelled.

- `src/models/data_structures.rs` holds the character scanner `Parser`.
  - `new`, `advance`, `peek` and `next` are modelled in module `Scanning`
    (scanner.dfy).
  - The line and column bookkeeping is in module `Positions`
    (positions.dfy).
- `src/parsers/parser_interpret.rs` holds the recursive-descent parser
  `ParserInterpret`. All of its reading functions and `build_monomial` are
  modelled in module `Interpret` (interpret.dfy).

The Rust structs are mutated in place. The model is immutable instead: a
`Scanner` value holds the input, the position, the line and the column. Each
operation returns the value it read together with the next scanner state, or
the error that ends the parse. A Rust `loop` becomes a recursive function over
the scanner state.

## How the properties are stated

Contracts are stated on `Pending(s)`, the input after the cursor with every
space and tab removed. This is what the scanner will still hand out, since
`peek` and `next` skip blanks.

The other modules state properties about these functions.

- `Text` (text.dfy): character classes, `Strip` (blank removal), the
  longest-digit-prefix function `DigitPrefix`, and `Join`.
- `Syntax` (syntax.dfy): a reference grammar for interpretation lines that is
  independent of the parser. It gives the written form of a line (`LineText`,
  `PolynomialText` and so on) and the entry that line should produce
  (`RenderLine`, `RenderPolynomial`).
- `TokenProperties`, `PolynomialProperties` and `DocumentProperties`: the
  round-trip theorems. Each reader, applied to the written form of a
  well-formed piece, returns exactly the intended rendering and consumes
  exactly that piece. The same files hold the error cases and the quirks of
  the source.
- `Steps` (steps.dfy): one unfolding step of each reader, used by the
  proofs.

## What the code checks and what it leaves unchecked

The model follows `src/parsers/parser_interpret.rs` as written. Its `TODO`
comments mark checks the code does not make, and the model does not make
them either:

- line 43: nothing checks that every function and constant of the signature
  received an interpretation;
- lines 62 and 84: the name of a function or constant is not checked beyond
  the signature lookup of lines 51-53;
- lines 68 and 142: the number of parameters is not compared with the arity;
- line 136: a parameter may have the name of a function or a constant;
- lines 194 and 229: the variables of a polynomial are not checked against
  the parameters.

Other behaviour of the code that the model reproduces:

- Only the digit run `0` is refused (line 115), for constants, coefficients
  and degrees alike. The empty run (`c =` gives the entry `()`) and runs
  such as `00` are accepted.
- A first character that is neither a function nor a constant of the
  signature ends the parse with "expected name of function or constant"
  (line 57).
- Parameters are collected in a `HashSet` (lines 133 and 137): repeated
  names collapse silently, and their order is lost.
- If the input ends right after a factor that has no degree,
  `parse_monomial` returns only that factor (line 199). The factors before
  it are dropped, so a last line `F(x,y) = xy` gives `(y)`, while the same
  line followed by a line break gives `(x * y)` (lines 207-216).

## Model

| member | source | states |
|---|---|---|
| Scanning.New | src/models/data_structures.rs:27-34 | A new scanner is at position 0 of line 1, column 0. What it has pending is the whole input with spaces and tabs removed. |
| Scanning.Peek | src/models/data_structures.rs:57-68 | `peek` returns the first pending character, or None exactly when only blanks remain. It leaves the pending text unchanged and moves nothing but the cursor. |
| Scanning.PeekScans | src/models/data_structures.rs:57-68 | `peek` moves the cursor over spaces and tabs only, onto the character it returns, which is not a blank. It returns None exactly when the cursor reaches the end. |
| Scanning.PeekIdempotent | src/models/data_structures.rs:57-68 | A second `peek` returns the same character and state as the first. |
| Scanning.Advance | src/models/data_structures.rs:36-55 | `advance` passes blanks and then exactly one further character. A `\n` moves to column 0 of the next line. Otherwise the line is kept and the column grows by the number of characters passed. At the end of the input nothing changes. |
| Scanning.Next | src/models/data_structures.rs:70-74 | `next` returns what `peek` returns. On a character c, the pending text was c followed by the new pending text, so exactly c is consumed. On None, nothing is pending before or after. |
| Scanning.NextScans | src/models/data_structures.rs:70-74 | After `next`, the last consumed input character is the returned one, and only blanks precede it. `\n` starts the next line at column 0; any other character adds 1 to the column, and the blanks `peek` skipped are not counted. |
| Positions.NewConsistent | src/models/data_structures.rs:27-34 | A new scanner satisfies the counter invariant: the line is 1 plus the line breaks before the cursor, and the column is at most the distance from the line start. |
| Positions.PeekConsistent | src/models/data_structures.rs:57-68 | `peek` preserves the counter invariant. |
| Positions.AdvanceConsistent | src/models/data_structures.rs:36-55 | `advance` preserves the counter invariant. |
| Positions.NextConsistent | src/models/data_structures.rs:70-74 | `next` preserves the counter invariant. |
| Positions.ConsistentBounds | src/models/data_structures.rs:2-7 | Under the invariant, line - 1 + column <= position <= input length. So position and column never exceed the input length, and the line never exceeds it by more than one. |
| Positions.CountersFit | src/models/data_structures.rs:2-7 | On an input of fewer than 2^32 - 1 characters, the position, the line and the column all fit a `u32`. |
| Positions.LineReachesLengthPlusOne | src/models/data_structures.rs:36-55 | The line bound is reached: after the input `\n\n` the line is 3, one more than the input length. |
| Interpret.ParseError.Message | src/parsers/parser_interpret.rs:57-162 | The error texts of lines 57, 116, 126, 145 and 162, and the model's own texts for the scanner helpers' errors. No text is empty, and every text that reports a character ends with that character, quoted where the source quotes it. |
| Interpret.ReadExactChar | src/parsers/parser_interpret.rs:64-71 | `read_exact_char(c)`, as used at lines 65, 71, 86, 164, 188, 225, 234 and 236, succeeds if and only if the next non-blank character is c, and then consumes exactly it. At the end of the input it gives the end-of-input error; on another character, the expected-character error naming both. |
| Interpret.ReadEol | src/parsers/parser_interpret.rs:29-33 | `read_eol`, as used at line 32: `\n` is consumed alone; `\r` is consumed, alone or together with a `\n` after it; any other character gives the expected-line-break error naming it; the end of the input gives the end-of-input error. A success consumes input. |
| Interpret.ParseNumber | src/parsers/parser_interpret.rs:97-120 | An error is always the zero-number error. A success is a digit run other than `0` that consumes input when not empty. |
| TokenProperties.ReadDigitsSpec | src/parsers/parser_interpret.rs:97-111 | The digit loop returns exactly the longest digit prefix of the pending text, blanks between digits ignored, and consumes exactly that. |
| TokenProperties.ParseNumberSpec | src/parsers/parser_interpret.rs:97-120 | `parse_number_string` fails if and only if the longest digit prefix is `0`. Otherwise it returns that prefix and consumes only it, so the empty run and `00` pass. |
| TokenProperties.ParseNumberReads | src/parsers/parser_interpret.rs:97-120 | A written numeral other than `0`, followed by a non-digit, is returned, and the following text is left pending. |
| Interpret.ParseVariable | src/parsers/parser_interpret.rs:122-130 | Succeeds if and only if the next pending character is alphabetic, and consumes exactly that character. At the end of the input the error is end-of-input; otherwise it is "expected alphabetic name". |
| Interpret.ReadArguments | src/parsers/parser_interpret.rs:132-148 | A success is a nonempty list of alphabetic names that consumed input. |
| TokenProperties.ReadArgumentsSound | src/parsers/parser_interpret.rs:132-148 | Whatever the argument loop accepts was written `a,b,...,z)`. |
| TokenProperties.ReadArgumentsReads | src/parsers/parser_interpret.rs:132-148 | Every written list `a,b,...,z)` of alphabetic names is read back in order, and the text after `)` is left pending. |
| TokenProperties.ArgumentSeparatorRefused | src/parsers/parser_interpret.rs:139-146 | After a name, any character other than `,` and `)` fails with "Expected ',' or ')'" naming that character. |
| Interpret.ParseFunctionArguments | src/parsers/parser_interpret.rs:132-148 | A success is a nonempty set of alphabetic names that consumed input. |
| TokenProperties.ParseFunctionArgumentsReads | src/parsers/parser_interpret.rs:132-148 | On a written list, a name is in the result if and only if it was written. |
| TokenProperties.DuplicateParametersCollapse | src/parsers/parser_interpret.rs:133-137 | `x,y,x)` gives the set {x, y}: the repeated name collapses without an error. |
| Interpret.BuildMonomial | src/parsers/parser_interpret.rs:242-254 | With no coefficient and no degree the monomial is the variable. Otherwise its length is the variable's, plus coefficient and ` * `, plus `^` and degree. |
| TokenProperties.SplitBuildMonomial | src/parsers/parser_interpret.rs:242-254 | `build_monomial` loses nothing. An independent decoder recovers the coefficient, the one-character variable and the degree from its output. |
| Interpret.ParseDegree | src/parsers/parser_interpret.rs:233-239 | A success is a digit run other than `0` that consumed input. |
| TokenProperties.ParseDegreeReads | src/parsers/parser_interpret.rs:233-239 | On `{d}`, the degree `0` gives the zero-number error. Any other digit run d is returned with the braces consumed. |
| TokenProperties.ParseDegreeSound | src/parsers/parser_interpret.rs:233-239 | Whatever `parse_degree` accepts was written `{digits}`. |
| Interpret.OptionalDegree | src/parsers/parser_interpret.rs:198-206 | A degree is read only when `{` comes next. Otherwise the degree is empty and only blanks are passed. |
| Interpret.Factors | src/parsers/parser_interpret.rs:193-207 | A success consumed input and stops before `+`, a line break or the end of the input. |
| Interpret.MoreFactors | src/parsers/parser_interpret.rs:209-230 | A success stops before `+`, a line break or the end of the input. |
| Interpret.ParseMonomial | src/parsers/parser_interpret.rs:173-231 | A success consumed input. Nothing pending gives the end-of-input error. |
| PolynomialProperties.OptionalDegreeReads | src/parsers/parser_interpret.rs:198-206 | A written degree `{d}` is read back. When none is written, the degree is empty and nothing is consumed. |
| PolynomialProperties.CoefficientReads | src/parsers/parser_interpret.rs:178-189 | A written coefficient and its `*` are read back, and the text after `*` is left pending. |
| PolynomialProperties.FactorsReads | src/parsers/parser_interpret.rs:193-208 | From a factor's variable on, the rest of a written product is read to the intended rendering, and exactly that product is consumed. |
| PolynomialProperties.MoreFactorsReads | src/parsers/parser_interpret.rs:209-230 | The remaining factors of a written product are read to the intended rendering, and exactly those are consumed. |
| PolynomialProperties.NextFactorWithCoefficient | src/parsers/parser_interpret.rs:220-228 | A later factor with a coefficient is read, coefficient and `*` first. |
| PolynomialProperties.NextFactorPlain | src/parsers/parser_interpret.rs:220-228 | A later factor without a coefficient is read from its variable. |
| PolynomialProperties.NumberMonomialReads | src/parsers/parser_interpret.rs:178-187 | A written number not followed by `*` is a whole monomial, returned as written. |
| PolynomialProperties.ScaledProductReads | src/parsers/parser_interpret.rs:176-193 | A product whose first factor has a coefficient is read to its rendering. |
| PolynomialProperties.PlainProductReads | src/parsers/parser_interpret.rs:176-193 | A product whose first factor has no coefficient is read to its rendering. |
| PolynomialProperties.ProductReads | src/parsers/parser_interpret.rs:173-231 | Every written product is read to its factors rendered by `build_monomial` and joined by ` * `. The exception: at the end of the input after a last factor without a degree, only that factor is returned. |
| PolynomialProperties.TermReads | src/parsers/parser_interpret.rs:173-231 | Every written monomial, number or product, is read to its intended rendering, and exactly it is consumed. |
| PolynomialProperties.ProductCutAtEnd | src/parsers/parser_interpret.rs:197-216 | `xy` at the end of the input gives `(y)`. Followed by a line break, it gives `(x * y)`. |
| Interpret.Monomials | src/parsers/parser_interpret.rs:153-168 | A success consumed input and stops before a line break or at the end of the input. |
| Interpret.ParsePolynomial | src/parsers/parser_interpret.rs:150-171 | A success is parenthesised, consumed input, and stops before a line break or at the end of the input. |
| PolynomialProperties.MonomialsReads | src/parsers/parser_interpret.rs:153-168 | The monomials of a written polynomial are read in order to their renderings and appended to those read before. |
| PolynomialProperties.PolynomialReads | src/parsers/parser_interpret.rs:150-171 | Every written polynomial is read to its monomials joined by ` + ` in parentheses, consuming exactly it. |
| PolynomialProperties.PolynomialReadsBeforeLineBreak | src/parsers/parser_interpret.rs:156-160 | Before a line break, no factor of any written polynomial is dropped. |
| PolynomialProperties.StrayAfterMonomial | src/parsers/parser_interpret.rs:156-162 | When the first monomial is a number, a character after it other than `+`, a line break, `*` or a digit fails with "Expected '+' or eol" naming it. |
| PolynomialProperties.ZeroLeadingCoefficientRefused | src/parsers/parser_interpret.rs:176-179 | A monomial that starts with the digit run `0`, as a coefficient or as the whole number, fails with the zero-number error. |
| PolynomialProperties.ZeroLaterCoefficientRefused | src/parsers/parser_interpret.rs:220-224 | A later factor whose coefficient is the digit run `0` fails with the zero-number error. |
| PolynomialProperties.FactorsZero | src/parsers/parser_interpret.rs:193-230 | From a factor's variable on, written factors followed by a zero coefficient fail with the zero-number error. |
| PolynomialProperties.MoreFactorsZero | src/parsers/parser_interpret.rs:209-230 | Any written factors followed by a zero coefficient fail with the zero-number error. |
| PolynomialProperties.NextFactorZeroScaled | src/parsers/parser_interpret.rs:220-228 | A later factor with a coefficient, followed by written factors and a zero coefficient, fails with the zero-number error. |
| PolynomialProperties.NextFactorZeroPlain | src/parsers/parser_interpret.rs:220-228 | A later factor without a coefficient, followed by written factors and a zero coefficient, fails with the zero-number error. |
| PolynomialProperties.ScaledProductZero | src/parsers/parser_interpret.rs:176-193 | A monomial that starts with a scaled factor and reaches a zero coefficient fails with the zero-number error. |
| PolynomialProperties.PlainProductZero | src/parsers/parser_interpret.rs:176-193 | A monomial that starts with a plain factor and reaches a zero coefficient fails with the zero-number error. |
| PolynomialProperties.MonomialZero | src/parsers/parser_interpret.rs:173-231 | A zero coefficient after any written factors of the same monomial, none included, fails the monomial with the zero-number error. |
| PolynomialProperties.MonomialsZero | src/parsers/parser_interpret.rs:153-168 | The monomial loop reads the written monomials before a zero coefficient and then fails with the zero-number error. |
| PolynomialProperties.ZeroCoefficientRefused | src/parsers/parser_interpret.rs:150-231 | A coefficient written `0` fails the polynomial with the zero-number error wherever it stands: after any written monomials, and after any written factors of its own monomial. |
| Interpret.ParseFunctionHead | src/parsers/parser_interpret.rs:60-67 | A success returns the first pending character as the name and a nonempty set of alphabetic parameters, and consumed input. |
| Interpret.ParseFunctionBody | src/parsers/parser_interpret.rs:70-73 | A success is parenthesised and stops before a line break or at the end of the input. |
| Interpret.ParseFunction | src/parsers/parser_interpret.rs:60-80 | A success names the first pending character, has nonempty alphabetic parameters and a parenthesised expression, and stops before a line break or at the end of the input. |
| DocumentProperties.ParseFunctionHeadReads | src/parsers/parser_interpret.rs:60-67 | `name(a,...,z)` is read to the name and the set of the written parameters. |
| DocumentProperties.ParseFunctionBodyReads | src/parsers/parser_interpret.rs:70-73 | `=` and a written polynomial are read to the polynomial's rendering. |
| DocumentProperties.ParseFunctionReads | src/parsers/parser_interpret.rs:60-80 | A written function line is read to the entry of its name, its parameter set and its rendered body. |
| Interpret.ParseConstant | src/parsers/parser_interpret.rs:82-95 | A success names the first pending character, has no parameters and a parenthesised expression, and consumed input. |
| DocumentProperties.ParseConstantReads | src/parsers/parser_interpret.rs:82-95 | `c=d` with d equal to `0` fails with the zero-number error. Any other digit run, the empty one and `00` included, gives the entry with no parameters and `(d)`. |
| Interpret.ParseFunctionOrConst | src/parsers/parser_interpret.rs:48-58 | Nothing pending gives the end-of-input error. A first character outside both symbol sets gives "expected name of function or constant" naming it. A success is an entry for that character that fits the signature. |
| DocumentProperties.LineReads | src/parsers/parser_interpret.rs:48-58 | Every well-formed line, followed by a line break or the end of the input, is read to the entry it stands for. |
| Interpret.Entries | src/parsers/parser_interpret.rs:26-40 | A success extends the entries read before by at least one and leaves nothing pending. |
| DocumentProperties.EntriesReads | src/parsers/parser_interpret.rs:26-40 | The lines of a written document, each ended by a line break, are read in order to their entries. |
| DocumentProperties.EntriesReadsUnterminated | src/parsers/parser_interpret.rs:26-40 | The same holds when the last line has no line break; that line is read as ending the input. |
| DocumentProperties.LastLineReads | src/parsers/parser_interpret.rs:27-30 | A last line that ends the input adds its entry, and the loop stops. |
| DocumentProperties.EarlierLineReads | src/parsers/parser_interpret.rs:27-39 | A line followed by a line break and more text adds its entry, and the loop goes on after the break. |
| Interpret.Parse | src/parsers/parser_interpret.rs:23-44 | A document without non-blank characters fails with the end-of-input error. A success has at least one entry. |
| DocumentProperties.ParseReads | src/parsers/parser_interpret.rs:23-44 | Every well-formed document, with any blanks, parses to the entries of its lines in order. |
| DocumentProperties.ParseReadsUnterminated | src/parsers/parser_interpret.rs:23-44 | The same holds for a well-formed document whose last line has no line break. |
| DocumentProperties.UnknownNameRefused | src/parsers/parser_interpret.rs:48-57 | A document whose first symbol is neither a function nor a constant fails at that symbol. |
| DocumentProperties.ZeroCoefficientFunctionRefused | src/parsers/parser_interpret.rs:60-80 | A function line whose body holds a coefficient written `0` fails with the zero-number error. |
| DocumentProperties.ZeroCoefficientLineRefused | src/parsers/parser_interpret.rs:23-80 | A document whose first line is such a function line fails with the zero-number error. |
| DocumentProperties.ZeroTimesVariableRefused | src/parsers/parser_interpret.rs:23-80 | The document `F(m) = 0*m` fails with the zero-number error. |
| DocumentProperties.ZeroConstantRefused | src/parsers/parser_interpret.rs:82-95 | A document whose first line is a constant with value `0` fails with the zero-number error. |
| DocumentProperties.TestInterpretation | tests/parser_test.rs:18-31 | The test interpretation `F(m,n) = m+n` / `G(o) = 2*o` parses to `F {m,n} (m + n)` and `G {o} (2 * o)`. |
| DocumentProperties.TestUnterminatedInterpretation | tests/parser_test.rs:35-41 | The same interpretation without the final line break, as the end-to-end test sends it, gives the same entries. |

## Left out

- The HTTP server (src/server) and the JSON boundary are I/O around the parser.
- The TRS parser is left out: src/parsers/parser_trs.rs is a stub. The
  signature (`Model`) it would produce is a parameter of every parsing
  function.
- The `Parse` trait is left out; it is only the interface `parse` implements.
- `ParserInterpret::new` only pairs a scanner with the signature.
- `char::is_alphabetic` is a parameter (`alpha`) of the parser, because the
  Unicode tables are not modelled. The round-trip lemmas ask that the
  written names satisfy `alpha`. For the variables of a polynomial they also
  ask, through `Syntax.FactorOk`, that the variable is not `Reserved`: not a
  digit, space, tab, `{`, `}`, `*`, `+`, `\n` or `\r`. None of these is
  alphabetic, so for the real `is_alphabetic` this asks nothing more.
- The scanner helpers `read_exact_char` and `read_eol` are not part of this
  model's source. They are modelled by their use:
  - `read_exact_char(c)` takes the next non-blank character and requires it
    to be c;
  - `read_eol` accepts `\n`, a lone `\r`, or `\r` with a `\n` directly after
    it.
- The texts of the end-of-input, expected-character and expected-line-break
  errors are this model's own wording. The other error texts follow the code.
- `peek` and `next` return `Option` in data_structures.rs, but
  parser_interpret.rs applies `?` to them and matches `Ok`/`Err`. The model
  reads None as the end of the input. Under `?`, None is the end-of-input
  error.
- Scanning.Advance: the `u32` counters are unbounded integers, not 32-bit.
  Positions.CountersFit shows they fit a `u32` for inputs of fewer than
  2^32 - 1 characters. The line number is the counter that needs the
  margin: it can reach the input length plus one.
- Scanning.Peek: the loop bound `self.input.len() as u32` (data_structures.rs
  lines 38 and 58) truncates for inputs of 2^32 characters or more. The
  model compares with the full length, so it does not describe such inputs.
- The `TODO` checks of the code are not made by the code, so they are not
  modelled (see "What the code checks and what it leaves unchecked").
- The round-trip lemmas cover documents whose lines are written in the
  reference grammar with `\n` line breaks. Lines ended by `\r` or `\r\n` are
  described only by the contracts of `ReadEol` and `Entries`.
- Interpret.Entries: the contract does not say which entries are read. That
  is stated by the DocumentProperties lemmas, for written documents only.
