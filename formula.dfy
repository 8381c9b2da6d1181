/**
 * The text side of formula evaluation: whole-word substitution of variable
 * values into a lower-cased formula, the character whitelist, and the
 * arithmetic the evaluator gives the result (a tokenizer, a recursive-descent
 * parser to an expression tree, and the evaluation of that tree over `real`).
 *
 * After substitution the formula is a sequence of pieces: characters of the
 * original text and substituted values. A substituted value is kept whole, as
 * one number; its decimal spelling is not modelled.
 */
module Formula {
  import opened Wrappers
  import opened Text

  /** Why an evaluation failed. */
  datatype Reason = InvalidFormula | NotANumber | SyntaxError

  const ErrorPrefix: string := "Formula evaluation error: "

  /** The message of the single error every failure is rethrown as. */
  function Message(r: Reason): (m: string)
    ensures |m| > |ErrorPrefix| && m[..|ErrorPrefix|] == ErrorPrefix
    ensures r == InvalidFormula ==> m[|ErrorPrefix|..] == "Invalid formula"
    ensures r == NotANumber ==> m[|ErrorPrefix|..] == "Formula result is not a valid number"
  {
    var inner := match r
      case InvalidFormula => "Invalid formula"
      case NotANumber => "Formula result is not a valid number"
      case SyntaxError => "Unexpected token";
    assert (ErrorPrefix + inner)[|ErrorPrefix|..] == inner;
    ErrorPrefix + inner
  }

  // ---------------------------------------------------------------------
  // Pieces and whole-word substitution
  // ---------------------------------------------------------------------

  /** One piece of a formula after substitution: an original character or a substituted value. */
  datatype Piece = Ch(c: char) | Num(v: real)

  function Chars(s: string): (ps: seq<Piece>)
    ensures |ps| == |s|
    ensures forall i :: 0 <= i < |s| ==> ps[i] == Ch(s[i])
  {
    seq(|s|, i requires 0 <= i < |s| => Ch(s[i]))
  }

  /** The first character of the piece is a `\w` character (a value's spelling starts with `-` when negative). */
  predicate StartsWord(p: Piece)
  {
    match p
    case Ch(c) => IsWordChar(c)
    case Num(v) => v >= 0.0
  }

  /** The last character of the piece is a `\w` character (a value's spelling ends with a digit). */
  predicate EndsWord(p: Piece)
  {
    match p
    case Ch(c) => IsWordChar(c)
    case Num(_) => true
  }

  /** `\b` at index `i`: exactly one of the two sides is a word character; outside the text is not. */
  predicate Boundary(ps: seq<Piece>, i: int)
    requires 0 <= i <= |ps|
  {
    (i > 0 && EndsWord(ps[i - 1])) != (i < |ps| && StartsWord(ps[i]))
  }

  /** `\bpat\b` matches at index `i`. */
  predicate MatchAt(ps: seq<Piece>, pat: string, i: int)
  {
    && 0 <= i && i + |pat| <= |ps|
    && (forall k :: 0 <= k < |pat| ==> ps[i + k] == Ch(pat[k]))
    && Boundary(ps, i) && Boundary(ps, i + |pat|)
  }

  /**
   * A global regular-expression replace of `\bpat\b` by `v`, scanning from
   * index `i`: after a match the scan resumes behind it, and after an empty
   * match one character further on.
   */
  function ReplaceFrom(ps: seq<Piece>, pat: string, v: real, i: int): seq<Piece>
    requires 0 <= i <= |ps|
    decreases |ps| - i
  {
    if MatchAt(ps, pat, i) then
      if |pat| > 0 then [Num(v)] + ReplaceFrom(ps, pat, v, i + |pat|)
      else if i < |ps| then [Num(v), ps[i]] + ReplaceFrom(ps, pat, v, i + 1)
      else [Num(v)]
    else if i < |ps| then [ps[i]] + ReplaceFrom(ps, pat, v, i + 1)
    else []
  }

  /** `text.replace(new RegExp('\\b' + pat + '\\b', 'g'), v)`. */
  function ReplaceWord(ps: seq<Piece>, pat: string, v: real): seq<Piece>
  {
    ReplaceFrom(ps, pat, v, 0)
  }

  /** No whole-word occurrence of `pat` at or after index `i`: the scan copies the rest unchanged. */
  lemma {:induction false} ReplaceFromNoMatch(ps: seq<Piece>, pat: string, v: real, i: int)
    requires 0 <= i <= |ps|
    requires forall j :: i <= j <= |ps| ==> !MatchAt(ps, pat, j)
    ensures ReplaceFrom(ps, pat, v, i) == ps[i..]
    decreases |ps| - i
  {
    if i < |ps| {
      ReplaceFromNoMatch(ps, pat, v, i + 1);
      assert ps[i..] == [ps[i]] + ps[i + 1..];
    }
  }

  /**
   * Only whole words are replaced: a text in which `pat` never occurs as a
   * whole word (for instance only inside longer words) is left unchanged.
   */
  lemma ReplaceWordNoMatch(ps: seq<Piece>, pat: string, v: real)
    requires forall j :: 0 <= j <= |ps| ==> !MatchAt(ps, pat, j)
    ensures ReplaceWord(ps, pat, v) == ps
  {
    ReplaceFromNoMatch(ps, pat, v, 0);
  }

  /**
   * The first whole-word occurrence of a non-empty `pat` is replaced by the
   * value; everything before it is copied unchanged and the scan resumes
   * behind it.
   */
  lemma {:induction false} ReplaceFromFirstMatch(ps: seq<Piece>, pat: string, v: real, i: int, m: int)
    requires |pat| > 0 && 0 <= i <= m
    requires MatchAt(ps, pat, m)
    requires forall j :: i <= j < m ==> !MatchAt(ps, pat, j)
    ensures ReplaceFrom(ps, pat, v, i) == ps[i..m] + [Num(v)] + ReplaceFrom(ps, pat, v, m + |pat|)
    decreases m - i
  {
    if i < m {
      ReplaceFromFirstMatch(ps, pat, v, i + 1, m);
      assert ps[i..m] == [ps[i]] + ps[i + 1..m];
    }
  }

  /**
   * Every variable in turn, in the engine's iteration order, each name
   * lower-cased and replaced by its value.
   */
  function SubstituteAll(ps: seq<Piece>, names: seq<string>, values: map<string, real>): seq<Piece>
    requires forall n :: n in names ==> n in values
    decreases |names|
  {
    if names == [] then ps
    else
      var last := names[|names| - 1];
      ReplaceWord(SubstituteAll(ps, names[..|names| - 1], values), Lower(last), values[last])
  }

  /** No variable occurs as a whole word: substitution leaves the text unchanged. */
  lemma {:induction false} SubstituteAllNoMatch(ps: seq<Piece>, names: seq<string>, values: map<string, real>)
    requires forall n :: n in names ==> n in values
    requires forall n, j :: n in names && 0 <= j <= |ps| ==> !MatchAt(ps, Lower(n), j)
    ensures SubstituteAll(ps, names, values) == ps
    decreases |names|
  {
    if names != [] {
      var last := names[|names| - 1];
      SubstituteAllNoMatch(ps, names[..|names| - 1], values);
      ReplaceWordNoMatch(ps, Lower(last), values[last]);
    }
  }

  /** A name that is not even a substring of the text has no whole-word occurrence in it. */
  lemma NotContainedNoMatch(text: string, pat: string)
    requires !Contains(text, pat)
    ensures forall j :: 0 <= j <= |text| ==> !MatchAt(Chars(text), pat, j)
  {
    forall j | 0 <= j <= |text| && MatchAt(Chars(text), pat, j)
      ensures false
    {
      assert text[j..j + |pat|] == pat;
      assert OccursAt(text, pat, j);
    }
  }

  // ---------------------------------------------------------------------
  // The whitelist
  // ---------------------------------------------------------------------

  /** `[\d+\-*\/().\s]`; a substituted value is spelled with digits, `.` and `-`. */
  predicate Allowed(p: Piece)
  {
    match p
    case Num(_) => true
    case Ch(c) => IsDigit(c) || c in "+-*/()." || IsWhitespace(c)
  }

  /** `/^[\d+\-*\/().\s]+$/.test(text)`: non-empty and every piece allowed. */
  predicate PassesWhitelist(ps: seq<Piece>)
  {
    |ps| > 0 && forall k :: 0 <= k < |ps| ==> Allowed(ps[k])
  }

  // ---------------------------------------------------------------------
  // Tokens
  // ---------------------------------------------------------------------

  /** The tokens the whitelisted characters can form; every literal is non-negative. */
  datatype Token = Lit(v: real) | Plus | Minus | Times | Slash | Open | Close

  predicate IsNumChar(p: Piece)
  {
    p.Ch? && (IsDigit(p.c) || p.c == '.')
  }

  /** The length of the run of digits and dots at the start of `ps`. */
  function RunLength(ps: seq<Piece>): (n: nat)
    ensures n <= |ps|
    ensures forall k :: 0 <= k < n ==> IsNumChar(ps[k])
    ensures n == |ps| || !IsNumChar(ps[n])
  {
    if ps != [] && IsNumChar(ps[0]) then 1 + RunLength(ps[1..]) else 0
  }

  /** The characters of a run of character pieces. */
  function RunText(ps: seq<Piece>): (s: string)
    requires forall k :: 0 <= k < |ps| ==> ps[k].Ch?
    ensures |s| == |ps| && forall k :: 0 <= k < |ps| ==> s[k] == ps[k].c
  {
    seq(|ps|, k requires 0 <= k < |ps| && ps[k].Ch? => ps[k].c)
  }

  function DigitValue(c: char): nat
  {
    if IsDigit(c) then (c as int - '0' as int) as nat else 0
  }

  /** The value of a string of decimal digits. */
  function DigitsValue(s: string): nat
  {
    if s == [] then 0 else DigitsValue(s[..|s| - 1]) * 10 + DigitValue(s[|s| - 1])
  }

  function Pow10(n: nat): (p: nat)
    ensures p >= 1
  {
    if n == 0 then 1 else 10 * Pow10(n - 1)
  }

  /** The index of the first `.` in `s`, or `|s|`. */
  function DotIndex(s: string): (k: nat)
    ensures k <= |s|
    ensures forall j :: 0 <= j < k ==> s[j] != '.'
    ensures k < |s| ==> s[k] == '.'
  {
    if s == [] then 0 else if s[0] == '.' then 0 else 1 + DotIndex(s[1..])
  }

  /**
   * A decimal literal made of digits and at most one dot, with at least one
   * digit (`12`, `12.`, `.5`, `12.5`); anything else made of digits and dots
   * (`.`, `1.2.3`) is a syntax error.
   */
  function LiteralValue(s: string): (r: Option<real>)
    requires forall k :: 0 <= k < |s| ==> IsDigit(s[k]) || s[k] == '.'
    ensures r.Some? ==> r.value >= 0.0
    ensures (forall k :: 0 <= k < |s| ==> IsDigit(s[k])) && |s| > 0 ==> r == Some(DigitsValue(s) as real)
  {
    var k := DotIndex(s);
    var whole, fraction := s[..k], if k < |s| then s[k + 1..] else [];
    if k == |s| then
      if s == [] then None else Some(DigitsValue(s) as real)
    else if '.' in fraction || (whole == [] && fraction == []) then None
    else Some(DigitsValue(whole) as real + DigitsValue(fraction) as real / Pow10(|fraction|) as real)
  }

  predicate NextIsChar(ps: seq<Piece>, c: char)
  {
    |ps| > 1 && ps[1] == Ch(c)
  }

  /** The next piece is a negative value, whose spelling starts with `-`. */
  predicate NextIsNegative(ps: seq<Piece>)
  {
    |ps| > 1 && ps[1].Num? && ps[1].v < 0.0
  }

  /** The tokens a substituted value lexes to: a literal, after a minus sign when the value is negative. */
  function ValueTokens(v: real): seq<Token>
  {
    if v < 0.0 then [Minus, Lit(-v)] else [Lit(v)]
  }

  function Prepend(ts: seq<Token>, rest: Option<seq<Token>>): Option<seq<Token>>
  {
    match rest
    case None => None
    case Some(more) => Some(ts + more)
  }

  /**
   * Lexing the whitelisted text. White space separates tokens; a run of digits
   * and dots is one literal; a negative value is a minus sign and a literal.
   * `++` and `--` are increment and decrement operators, which no arithmetic
   * on literals accepts, so they are syntax errors. Two stars, two slashes
   * and slash-star (exponentiation and comments in JavaScript) are rejected
   * as well: they lie outside the arithmetic modelled here.
   */
  function Tokenize(ps: seq<Piece>): Option<seq<Token>>
    decreases |ps|
  {
    if ps == [] then Some([])
    else match ps[0]
      case Num(v) =>
        Prepend(ValueTokens(v), Tokenize(ps[1..]))
      case Ch(c) =>
        if IsWhitespace(c) then Tokenize(ps[1..])
        else if IsDigit(c) || c == '.' then
          var n := RunLength(ps);
          match LiteralValue(RunText(ps[..n]))
          case None => None
          case Some(v) => Prepend([Lit(v)], Tokenize(ps[n..]))
        else if c == '+' then
          if NextIsChar(ps, '+') then None else Prepend([Plus], Tokenize(ps[1..]))
        else if c == '-' then
          if NextIsChar(ps, '-') || NextIsNegative(ps) then None else Prepend([Minus], Tokenize(ps[1..]))
        else if c == '*' then
          if NextIsChar(ps, '*') then None else Prepend([Times], Tokenize(ps[1..]))
        else if c == '/' then
          if NextIsChar(ps, '/') || NextIsChar(ps, '*') then None else Prepend([Slash], Tokenize(ps[1..]))
        else if c == '(' then Prepend([Open], Tokenize(ps[1..]))
        else if c == ')' then Prepend([Close], Tokenize(ps[1..]))
        else None
  }

  // ---------------------------------------------------------------------
  // Expressions
  // ---------------------------------------------------------------------

  datatype BinOp = AddOp | SubOp | MulOp | DivOp

  /** The arithmetic the evaluator accepts: literals, unary `-` and `+`, and the four operators. */
  datatype Expr = Const(v: real) | Neg(e: Expr) | Pos(e: Expr) | Bin(op: BinOp, left: Expr, right: Expr)

  /** Real division, defined only for a non-zero divisor. */
  function Divide(x: real, y: real): (q: real)
    requires y != 0.0
    ensures q * y == x
  {
    x / y
  }

  /** The value of an expression; dividing by zero yields no number. */
  function Eval(e: Expr): Option<real>
  {
    match e
    case Const(v) => Some(v)
    case Neg(a) => (match Eval(a) case None => None case Some(x) => Some(-x))
    case Pos(a) => Eval(a)
    case Bin(op, a, b) =>
      match (Eval(a), Eval(b))
      case (Some(x), Some(y)) =>
        (match op
         case AddOp => Some(x + y)
         case SubOp => Some(x - y)
         case MulOp => Some(x * y)
         case DivOp => if y == 0.0 then None else Some(Divide(x, y)))
      case _ => None
  }

  // ---------------------------------------------------------------------
  // The parser: sum := product (('+' | '-') product)*,
  // product := unary (('*' | '/') unary)*, unary := ('-' | '+') unary | primary,
  // primary := literal | '(' sum ')'. Each returns the tree and the next index.
  // ---------------------------------------------------------------------

  function ParseSum(ts: seq<Token>, i: nat): (r: Option<(Expr, nat)>)
    requires i <= |ts|
    ensures r.Some? ==> i < r.value.1 <= |ts|
    decreases |ts| - i, 3
  {
    match ParseProduct(ts, i)
    case None => None
    case Some((left, j)) => SumRest(ts, j, left)
  }

  function SumRest(ts: seq<Token>, i: nat, acc: Expr): (r: Option<(Expr, nat)>)
    requires i <= |ts|
    ensures r.Some? ==> i <= r.value.1 <= |ts|
    decreases |ts| - i, 2
  {
    if i < |ts| && (ts[i] == Plus || ts[i] == Minus) then
      match ParseProduct(ts, i + 1)
      case None => None
      case Some((right, j)) => SumRest(ts, j, Bin(if ts[i] == Plus then AddOp else SubOp, acc, right))
    else Some((acc, i))
  }

  function ParseProduct(ts: seq<Token>, i: nat): (r: Option<(Expr, nat)>)
    requires i <= |ts|
    ensures r.Some? ==> i < r.value.1 <= |ts|
    decreases |ts| - i, 1
  {
    match ParseUnary(ts, i)
    case None => None
    case Some((left, j)) => ProductRest(ts, j, left)
  }

  function ProductRest(ts: seq<Token>, i: nat, acc: Expr): (r: Option<(Expr, nat)>)
    requires i <= |ts|
    ensures r.Some? ==> i <= r.value.1 <= |ts|
    decreases |ts| - i, 2
  {
    if i < |ts| && (ts[i] == Times || ts[i] == Slash) then
      match ParseUnary(ts, i + 1)
      case None => None
      case Some((right, j)) => ProductRest(ts, j, Bin(if ts[i] == Times then MulOp else DivOp, acc, right))
    else Some((acc, i))
  }

  function ParseUnary(ts: seq<Token>, i: nat): (r: Option<(Expr, nat)>)
    requires i <= |ts|
    ensures r.Some? ==> i < r.value.1 <= |ts|
    decreases |ts| - i, 0, 1
  {
    if i == |ts| then None
    else match ts[i]
      case Minus => UnaryOf(ts, i, true)
      case Plus => UnaryOf(ts, i, false)
      case Lit(v) => Some((Const(v), i + 1))
      case Open =>
        (match ParseSum(ts, i + 1)
         case None => None
         case Some((inner, j)) => if j < |ts| && ts[j] == Close then Some((inner, j + 1)) else None)
      case _ => None
  }

  /** A unary minus (`negate`) or plus at index `i`, applied to the unary expression behind it. */
  function UnaryOf(ts: seq<Token>, i: nat, negate: bool): (r: Option<(Expr, nat)>)
    requires i < |ts|
    ensures r.Some? ==> i < r.value.1 <= |ts|
    decreases |ts| - i, 0, 0
  {
    match ParseUnary(ts, i + 1)
    case None => None
    case Some((operand, j)) => Some((if negate then Neg(operand) else Pos(operand), j))
  }

  /** The whole token sequence must be one expression. */
  function ParseAll(ts: seq<Token>): Option<Expr>
  {
    match ParseSum(ts, 0)
    case None => None
    case Some((e, j)) => if j == |ts| then Some(e) else None
  }

  // ---------------------------------------------------------------------
  // Evaluation of a substituted text and of a formula
  // ---------------------------------------------------------------------

  /**
   * The text starts with white space holding a line terminator. Behind
   * `return` that ends the statement (automatic semicolon insertion), so the
   * function returns `undefined` and the expression is never evaluated.
   */
  predicate LeadingLineBreak(ps: seq<Piece>)
  {
    && ps != [] && ps[0].Ch? && IsWhitespace(ps[0].c)
    && (IsLineTerminator(ps[0].c) || LeadingLineBreak(ps[1..]))
  }

  /**
   * Evaluating the substituted text as `return <text>`: the whitelist first,
   * then syntax, then the value. An empty statement returns `undefined`, and
   * so does `return` followed by a line break; neither is a number.
   */
  function EvaluatePieces(ps: seq<Piece>): Result<real, Reason>
  {
    if !PassesWhitelist(ps) then Err(InvalidFormula)
    else match Tokenize(ps)
      case None => Err(SyntaxError)
      case Some(ts) =>
        if ts == [] then Err(NotANumber)
        else match ParseAll(ts)
          case None => Err(SyntaxError)
          case Some(e) =>
            if LeadingLineBreak(ps) then Err(NotANumber)
            else match Eval(e)
              case None => Err(NotANumber)
              case Some(v) => Ok(v)
  }

  /** `evaluateFormula` for the variables `names`/`values`, in that iteration order. */
  function Evaluation(formula: string, names: seq<string>, values: map<string, real>): Result<real, Reason>
    requires forall n :: n in names ==> n in values
  {
    EvaluatePieces(SubstituteAll(Chars(Lower(formula)), names, values))
  }

  // ---------------------------------------------------------------------
  // Reading back a printed expression
  // ---------------------------------------------------------------------

  function OpToken(op: BinOp): Token
  {
    match op
    case AddOp => Plus
    case SubOp => Minus
    case MulOp => Times
    case DivOp => Slash
  }

  /** The fully parenthesised token spelling of an expression. */
  function Print(e: Expr): (ts: seq<Token>)
    ensures |ts| > 0
  {
    match e
    case Const(v) => [Lit(v)]
    case Neg(a) => [Minus, Open] + Print(a) + [Close]
    case Pos(a) => [Plus, Open] + Print(a) + [Close]
    case Bin(op, a, b) => [Open] + Print(a) + [OpToken(op)] + Print(b) + [Close]
  }

  /** Every constant is non-negative, as every literal the tokenizer produces is. */
  predicate Readable(e: Expr)
  {
    match e
    case Const(v) => v >= 0.0
    case Neg(a) => Readable(a)
    case Pos(a) => Readable(a)
    case Bin(_, a, b) => Readable(a) && Readable(b)
  }

  /** A slice of a slice: where `q` sits at offset `off` of `p`, and `p` at `i` of `ts`. */
  lemma SliceOfSlice(ts: seq<Token>, i: nat, p: seq<Token>, off: nat, q: seq<Token>)
    requires i + |p| <= |ts| && ts[i..i + |p|] == p
    requires off + |q| <= |p| && p[off..off + |q|] == q
    ensures ts[i + off..i + off + |q|] == q
  {
    assert forall k :: 0 <= k < |q| ==> ts[i + off + k] == p[off + k] == q[k];
  }

  /** A printed expression followed by a closing parenthesis reads back as a whole sum. */
  lemma ParseSumBeforeClose(e: Expr, ts: seq<Token>, i: nat)
    requires Readable(e)
    requires i + |Print(e)| < |ts| && ts[i..i + |Print(e)|] == Print(e) && ts[i + |Print(e)|] == Close
    ensures ParseSum(ts, i) == Some((e, i + |Print(e)|))
    decreases e, 3
  {
    var n := i + |Print(e)|;
    ParsePrinted(e, ts, i);
    assert ProductRest(ts, n, e) == Some((e, n));
    assert ParseProduct(ts, i) == Some((e, n));
    assert SumRest(ts, n, e) == Some((e, n));
  }

  /** A printed expression reads back, as a unary expression, to itself, wherever it sits. */
  lemma {:induction false} ParsePrinted(e: Expr, ts: seq<Token>, i: nat)
    requires Readable(e)
    requires i + |Print(e)| <= |ts| && ts[i..i + |Print(e)|] == Print(e)
    ensures ParseUnary(ts, i) == Some((e, i + |Print(e)|))
    decreases e, 2
  {
    match e
    case Const(v) =>
      assert ts[i] == Print(e)[0];
      ParseLiteral(v, ts, i);
    case Neg(a) =>
      SignLayout(true, a, ts, i);
      ParsePrintedSign(true, a, ts, i);
    case Pos(a) =>
      SignLayout(false, a, ts, i);
      ParsePrintedSign(false, a, ts, i);
    case Bin(op, a, b) =>
      BinLayout(op, a, b, ts, i);
      ParsePrintedBin(op, a, b, ts, i);
  }

  /** A literal reads back as a constant. */
  lemma ParseLiteral(v: real, ts: seq<Token>, i: nat)
    requires i < |ts| && ts[i] == Lit(v)
    ensures ParseUnary(ts, i) == Some((Const(v), i + 1))
  {
  }

  /** Where the parts of a printed signed expression sit. */
  lemma SignLayout(negate: bool, a: Expr, ts: seq<Token>, i: nat)
    requires var p := Print(if negate then Neg(a) else Pos(a)); i + |p| <= |ts| && ts[i..i + |p|] == p
    ensures |Print(if negate then Neg(a) else Pos(a))| == |Print(a)| + 3
    ensures ts[i] == (if negate then Minus else Plus) && ts[i + 1] == Open
    ensures ts[i + 2..i + 2 + |Print(a)|] == Print(a)
    ensures i + 2 + |Print(a)| < |ts| && ts[i + 2 + |Print(a)|] == Close
  {
    var p := Print(if negate then Neg(a) else Pos(a));
    assert ts[i] == p[0];
    assert ts[i + 1] == p[1];
    SliceOfSlice(ts, i, p, 2, Print(a));
    assert ts[i + 2 + |Print(a)|] == p[2 + |Print(a)|];
  }

  /** The sign case: a sign, an opening parenthesis, the operand and a closing parenthesis. */
  lemma {:induction false} ParsePrintedSign(negate: bool, a: Expr, ts: seq<Token>, i: nat)
    requires Readable(a)
    requires i + 2 + |Print(a)| < |ts|
    requires ts[i] == (if negate then Minus else Plus) && ts[i + 1] == Open
    requires ts[i + 2..i + 2 + |Print(a)|] == Print(a) && ts[i + 2 + |Print(a)|] == Close
    ensures ParseUnary(ts, i) == Some((if negate then Neg(a) else Pos(a), i + 3 + |Print(a)|))
    decreases if negate then Neg(a) else Pos(a), 1
  {
    ParseSumBeforeClose(a, ts, i + 2);
    assert ParseUnary(ts, i + 1) == Some((a, i + 3 + |Print(a)|));
  }

  /** The operator case: both operands in one pair of parentheses, laid out as `BinLayout` finds them. */
  lemma {:induction false} ParsePrintedBin(op: BinOp, a: Expr, b: Expr, ts: seq<Token>, i: nat)
    requires Readable(a) && Readable(b)
    requires i + 2 + |Print(a)| + |Print(b)| < |ts|
    requires ts[i] == Open && ts[i + 1 + |Print(a)|] == OpToken(op) && ts[i + 2 + |Print(a)| + |Print(b)|] == Close
    requires ts[i + 1..i + 1 + |Print(a)|] == Print(a)
    requires ts[i + 2 + |Print(a)|..i + 2 + |Print(a)| + |Print(b)|] == Print(b)
    ensures ParseUnary(ts, i) == Some((Bin(op, a, b), i + 3 + |Print(a)| + |Print(b)|))
    decreases Bin(op, a, b), 1
  {
    var la, lb := |Print(a)|, |Print(b)|;
    ParsePrinted(a, ts, i + 1);
    ParsePrinted(b, ts, i + 2 + la);
    BinStep(ts, i, op, a, b, la, lb);
  }

  /**
   * `(a op b)` at index `i`, given where the operands and the operator sit
   * and that each operand reads back as a unary expression.
   */
  lemma BinStep(ts: seq<Token>, i: nat, op: BinOp, a: Expr, b: Expr, la: nat, lb: nat)
    requires i + 2 + la + lb < |ts|
    requires ts[i] == Open && ts[i + 1 + la] == OpToken(op) && ts[i + 2 + la + lb] == Close
    requires ParseUnary(ts, i + 1) == Some((a, i + 1 + la))
    requires ParseUnary(ts, i + 2 + la) == Some((b, i + 2 + la + lb))
    ensures ParseUnary(ts, i) == Some((Bin(op, a, b), i + 3 + la + lb))
  {
    var n1, n2 := i + 1 + la, i + 2 + la + lb;
    if op == MulOp || op == DivOp {
      ProductStep(ts, i + 1, n1, n2, op, a, b);
    } else {
      SumStep(ts, i + 1, n1, n2, op, a, b);
    }
  }

  /** Where the parts of a printed operator expression sit. */
  lemma BinLayout(op: BinOp, a: Expr, b: Expr, ts: seq<Token>, i: nat)
    requires i + |Print(Bin(op, a, b))| <= |ts| && ts[i..i + |Print(Bin(op, a, b))|] == Print(Bin(op, a, b))
    ensures |Print(Bin(op, a, b))| == |Print(a)| + |Print(b)| + 3
    ensures ts[i] == Open
    ensures ts[i + 1..i + 1 + |Print(a)|] == Print(a)
    ensures ts[i + 1 + |Print(a)|] == OpToken(op)
    ensures ts[i + 2 + |Print(a)|..i + 2 + |Print(a)| + |Print(b)|] == Print(b)
    ensures i + 2 + |Print(a)| + |Print(b)| < |ts|
    ensures ts[i + 2 + |Print(a)| + |Print(b)|] == Close
  {
    assert Print(Bin(op, a, b)) == [Open] + Print(a) + [OpToken(op)] + Print(b) + [Close];
    InfixLayout(ts, i, Print(a), OpToken(op), Print(b));
  }

  /** Where the parts of `[Open] + pa + [t] + pb + [Close]` sit once it is laid at index `i`. */
  lemma InfixLayout(ts: seq<Token>, i: nat, pa: seq<Token>, t: Token, pb: seq<Token>)
    requires var p := [Open] + pa + [t] + pb + [Close]; i + |p| <= |ts| && ts[i..i + |p|] == p
    ensures ts[i] == Open && ts[i + 1..i + 1 + |pa|] == pa && ts[i + 1 + |pa|] == t
    ensures ts[i + 2 + |pa|..i + 2 + |pa| + |pb|] == pb
    ensures i + 2 + |pa| + |pb| < |ts| && ts[i + 2 + |pa| + |pb|] == Close
  {
    var p := [Open] + pa + [t] + pb + [Close];
    assert ts[i] == p[0];
    assert p[1..1 + |pa|] == pa;
    SliceOfSlice(ts, i, p, 1, pa);
    assert p[2 + |pa|..2 + |pa| + |pb|] == pb;
    SliceOfSlice(ts, i, p, 2 + |pa|, pb);
    assert ts[i + 1 + |pa|] == p[1 + |pa|];
    assert ts[i + 2 + |pa| + |pb|] == p[2 + |pa| + |pb|];
  }

  /** `(a * b)` and `(a / b)`: the product takes both operands and the sum stops at the parenthesis. */
  lemma ProductStep(ts: seq<Token>, i: nat, n1: nat, n2: nat, op: BinOp, a: Expr, b: Expr)
    requires op == MulOp || op == DivOp
    requires i <= n1 < n2 < |ts|
    requires ParseUnary(ts, i) == Some((a, n1)) && ts[n1] == OpToken(op)
    requires ParseUnary(ts, n1 + 1) == Some((b, n2)) && ts[n2] == Close
    ensures i > 0 && ts[i - 1] == Open ==> ParseUnary(ts, i - 1) == Some((Bin(op, a, b), n2 + 1))
  {
    var e := Bin(op, a, b);
    assert ProductRest(ts, n2, e) == Some((e, n2));
    assert ProductRest(ts, n1, a) == Some((e, n2));
    assert ParseProduct(ts, i) == Some((e, n2));
    assert SumRest(ts, n2, e) == Some((e, n2));
    assert ParseSum(ts, i) == Some((e, n2));
  }

  /** `(a + b)` and `(a - b)`: the product stops at the operator and the sum takes the second operand. */
  lemma SumStep(ts: seq<Token>, i: nat, n1: nat, n2: nat, op: BinOp, a: Expr, b: Expr)
    requires op == AddOp || op == SubOp
    requires i <= n1 < n2 < |ts|
    requires ParseUnary(ts, i) == Some((a, n1)) && ts[n1] == OpToken(op)
    requires ParseUnary(ts, n1 + 1) == Some((b, n2)) && ts[n2] == Close
    ensures i > 0 && ts[i - 1] == Open ==> ParseUnary(ts, i - 1) == Some((Bin(op, a, b), n2 + 1))
  {
    var e := Bin(op, a, b);
    assert ProductRest(ts, n1, a) == Some((a, n1));
    assert ParseProduct(ts, i) == Some((a, n1));
    assert ProductRest(ts, n2, b) == Some((b, n2));
    assert ParseProduct(ts, n1 + 1) == Some((b, n2));
    assert SumRest(ts, n2, e) == Some((e, n2));
    assert SumRest(ts, n1, a) == Some((e, n2));
    assert ParseSum(ts, i) == Some((e, n2));
  }

  /** Parsing the printed tokens gives back the expression. */
  lemma ParseAllPrinted(e: Expr)
    requires Readable(e)
    ensures ParseAll(Print(e)) == Some(e)
  {
    var ts := Print(e);
    assert ts[0..|ts|] == ts;
    ParsePrinted(e, ts, 0);
    assert ProductRest(ts, |ts|, e) == Some((e, |ts|));
    assert ParseProduct(ts, 0) == Some((e, |ts|));
    assert SumRest(ts, |ts|, e) == Some((e, |ts|));
  }

  /** A token as one piece of text; a literal as a value. */
  function TokenPiece(t: Token): Piece
  {
    match t
    case Lit(v) => Num(v)
    case Plus => Ch('+')
    case Minus => Ch('-')
    case Times => Ch('*')
    case Slash => Ch('/')
    case Open => Ch('(')
    case Close => Ch(')')
  }

  /** Tokens spelled out, each followed by a space. */
  function Render(ts: seq<Token>): (ps: seq<Piece>)
    ensures |ps| == 2 * |ts|
  {
    if ts == [] then [] else [TokenPiece(ts[0]), Ch(' ')] + Render(ts[1..])
  }

  predicate LiteralsNonNegative(ts: seq<Token>)
  {
    forall k :: 0 <= k < |ts| && ts[k].Lit? ==> ts[k].v >= 0.0
  }

  /** One spelled-out token, followed by its space, lexes as that token. */
  lemma TokenizeRenderedToken(t: Token, rest: seq<Piece>)
    requires t.Lit? ==> t.v >= 0.0
    ensures Tokenize([TokenPiece(t), Ch(' ')] + rest) == Prepend([t], Tokenize(rest))
  {
    var spaced := [Ch(' ')] + rest;
    assert [TokenPiece(t), Ch(' ')] + rest == [TokenPiece(t)] + spaced;
    TokenizeSpace(rest);
    if t.Lit? {
      TokenizeValue(t.v, spaced);
      assert ValueTokens(t.v) == [t];
    } else {
      TokenizeOperator(TokenPiece(t).c, t, spaced);
    }
  }

  /** Lexing spelled-out tokens gives the tokens back. */
  lemma {:induction false} TokenizeRender(ts: seq<Token>)
    requires LiteralsNonNegative(ts)
    ensures Tokenize(Render(ts)) == Some(ts)
  {
    if ts != [] {
      assert LiteralsNonNegative(ts[1..]) by {
        forall k | 0 <= k < |ts[1..]| && ts[1..][k].Lit?
          ensures ts[1..][k].v >= 0.0
        {
          assert ts[1..][k] == ts[k + 1];
        }
      }
      TokenizeRender(ts[1..]);
      TokenizeRenderedToken(ts[0], Render(ts[1..]));
      assert ts == [ts[0]] + ts[1..];
    }
  }

  /** Spelled-out tokens pass the whitelist. */
  lemma {:induction false} RenderAllowed(ts: seq<Token>)
    ensures forall k :: 0 <= k < |Render(ts)| ==> Allowed(Render(ts)[k])
  {
    if ts != [] {
      RenderAllowed(ts[1..]);
      var ps := Render(ts);
      forall k | 0 <= k < |ps|
        ensures Allowed(ps[k])
      {
        if k >= 2 {
          assert ps[k] == Render(ts[1..])[k - 2];
        }
      }
    }
  }

  lemma {:induction false} PrintReadableLiterals(e: Expr)
    requires Readable(e)
    ensures LiteralsNonNegative(Print(e))
  {
    match e
    case Const(v) =>
    case Neg(a) => PrintReadableLiterals(a);
    case Pos(a) => PrintReadableLiterals(a);
    case Bin(op, a, b) => PrintReadableLiterals(a); PrintReadableLiterals(b);
  }

  /**
   * The evaluator agrees with the arithmetic: the text of any expression
   * evaluates to the expression's value, and to "not a number" exactly when
   * the expression divides by zero.
   */
  lemma EvaluatePrinted(e: Expr)
    requires Readable(e)
    ensures Eval(e).Some? ==> EvaluatePieces(Render(Print(e))) == Ok(Eval(e).value)
    ensures Eval(e).None? ==> EvaluatePieces(Render(Print(e))) == Err(NotANumber)
  {
    PrintReadableLiterals(e);
    TokenizeRender(Print(e));
    RenderAllowed(Print(e));
    ParseAllPrinted(e);
    assert Render(Print(e))[0] == TokenPiece(Print(e)[0]);
  }

  // ---------------------------------------------------------------------
  // Worked examples
  // ---------------------------------------------------------------------

  /** With the variables `waist` and `hip`, `waist/4` is a quarter of the waist (80 gives 20, -80 gives -20). */
  lemma WaistOverFour(waist: real, hip: real)
    ensures Evaluation("waist/4", ["waist", "hip"], map["waist" := waist, "hip" := hip]) == Ok(Divide(waist, 4.0))
  {
    WaistOverFourSubstituted(waist, hip);
    QuotientByDigit(waist, '4');
  }

  /** Only the whole word `waist` is replaced; `hip` does not occur. */
  lemma WaistOverFourSubstituted(waist: real, hip: real)
    ensures SubstituteAll(Chars(Lower("waist/4")), ["waist", "hip"], map["waist" := waist, "hip" := hip])
         == [Num(waist), Ch('/'), Ch('4')]
  {
    var values := map["waist" := waist, "hip" := hip];
    assert Lower("waist/4") == "waist/4";
    var ps := Chars("waist/4");
    assert ps == [Ch('w'), Ch('a'), Ch('i'), Ch('s'), Ch('t'), Ch('/'), Ch('4')];
    assert MatchAt(ps, "waist", 0);
    ReplaceFromFirstMatch(ps, "waist", waist, 0, 0);
    ReplaceFromNoMatch(ps, "waist", waist, 5);
    var q := [Num(waist), Ch('/'), Ch('4')];
    assert ReplaceWord(ps, "waist", waist) == q;
    assert ["waist", "hip"][..1] == ["waist"];
    assert Lower("waist") == "waist" && Lower("hip") == "hip";
    assert SubstituteAll(ps, ["waist"], values) == q;
    forall j | 0 <= j <= |q|
      ensures !MatchAt(q, "hip", j)
    {
      assert q[0] != Ch("hip"[0]);
    }
    ReplaceWordNoMatch(q, "hip", hip);
  }

  /** The length of a run of digits followed by something that is not a digit or a dot. */
  lemma {:induction false} RunLengthDigits(d: string, rest: seq<Piece>)
    requires forall k :: 0 <= k < |d| ==> IsDigit(d[k])
    requires rest == [] || !IsNumChar(rest[0])
    ensures RunLength(Chars(d) + rest) == |d|
  {
    if d != [] {
      RunLengthDigits(d[1..], rest);
      assert (Chars(d) + rest)[1..] == Chars(d[1..]) + rest;
    } else {
      assert Chars(d) + rest == rest;
    }
  }

  /** A run of digits lexes as one literal with the digits' value. */
  lemma TokenizeDigits(d: string, rest: seq<Piece>)
    requires |d| > 0 && forall k :: 0 <= k < |d| ==> IsDigit(d[k])
    requires rest == [] || !IsNumChar(rest[0])
    ensures Tokenize(Chars(d) + rest) == Prepend([Lit(DigitsValue(d) as real)], Tokenize(rest))
  {
    var ps := Chars(d) + rest;
    RunLengthDigits(d, rest);
    assert ps[..|d|] == Chars(d);
    assert RunText(Chars(d)) == d;
    assert LiteralValue(d) == Some(DigitsValue(d) as real);
    assert ps[|d|..] == rest;
    assert ps[0] == Ch(d[0]) && IsDigit(d[0]) && !IsWhitespace(d[0]);
  }

  /** An operator character that does not start `**`, `//` or a comment lexes as that operator. */
  lemma TokenizeOperator(c: char, t: Token, rest: seq<Piece>)
    requires (c, t) in {('+', Plus), ('-', Minus), ('*', Times), ('/', Slash), ('(', Open), (')', Close)}
    requires rest == [] || (rest[0] != Ch(c) && rest[0] != Ch('*') && !(rest[0].Num? && rest[0].v < 0.0))
    ensures Tokenize([Ch(c)] + rest) == Prepend([t], Tokenize(rest))
  {
    var ps := [Ch(c)] + rest;
    assert ps[0] == Ch(c) && ps[1..] == rest;
    assert !IsWhitespace(c) && !IsDigit(c) && c != '.';
    if c == '+' {
      assert !NextIsChar(ps, '+');
    } else if c == '-' {
      assert !NextIsChar(ps, '-') && !NextIsNegative(ps);
    } else if c == '*' {
      assert !NextIsChar(ps, '*');
    } else if c == '/' {
      assert !NextIsChar(ps, '/') && !NextIsChar(ps, '*');
    }
  }

  /** A substituted value lexes as a literal, preceded by a minus sign when negative. */
  lemma TokenizeValue(v: real, rest: seq<Piece>)
    ensures Tokenize([Num(v)] + rest) == Prepend(ValueTokens(v), Tokenize(rest))
  {
    assert ([Num(v)] + rest)[1..] == rest;
  }

  /** The expression a substituted value reads back as: a literal, negated when the value is negative. */
  function ValueExpr(v: real): (e: Expr)
    ensures Eval(e) == Some(v)
  {
    if v < 0.0 then Neg(Const(-v)) else Const(v)
  }

  /** The tokens of a substituted value read back, as a unary expression, to the value. */
  lemma ParseValue(ts: seq<Token>, i: nat, v: real)
    requires i + |ValueTokens(v)| <= |ts| && ts[i..i + |ValueTokens(v)|] == ValueTokens(v)
    ensures ParseUnary(ts, i) == Some((ValueExpr(v), i + |ValueTokens(v)|))
  {
    assert ts[i] == ValueTokens(v)[0];
    if v < 0.0 {
      assert ts[i + 1] == ValueTokens(v)[1];
      assert ParseUnary(ts, i + 1) == Some((Const(-v), i + 2));
    }
  }

  /** Evaluation follows its stages: whitelist, lexing, parsing, arithmetic. */
  lemma EvaluateSteps(ps: seq<Piece>, ts: seq<Token>, e: Expr)
    requires PassesWhitelist(ps) && Tokenize(ps) == Some(ts) && ts != [] && ParseAll(ts) == Some(e)
    requires !LeadingLineBreak(ps)
    ensures EvaluatePieces(ps) == if Eval(e).Some? then Ok(Eval(e).value) else Err(NotANumber)
  {
  }

  /** `x/d`, for a single digit `d`, lexes as a literal, a slash and the digit's value. */
  lemma TokenizeQuotientByDigit(x: real, d: char)
    requires IsDigit(d)
    ensures Tokenize([Num(x), Ch('/'), Ch(d)]) == Some(ValueTokens(x) + [Slash, Lit(DigitValue(d) as real)])
  {
    var y := DigitValue(d) as real;
    var digit: seq<Piece> := [Ch(d)];
    TokenizeDigits([d], []);
    assert Chars([d]) + [] == digit;
    assert Tokenize([]) == Some([]);
    assert DigitsValue([d]) == DigitValue(d) by {
      assert [d][..0] == [];
    }
    assert Tokenize(digit) == Prepend([Lit(y)], Some([]));
    assert [Lit(y)] + [] == [Lit(y)];
    TokenizeOperator('/', Slash, digit);
    var slash := [Ch('/')] + digit;
    assert Tokenize(slash) == Prepend([Slash], Some([Lit(y)]));
    assert [Slash] + [Lit(y)] == [Slash, Lit(y)];
    TokenizeValue(x, slash);
    assert [Num(x)] + slash == [Num(x), Ch('/'), Ch(d)];
  }

  /** A value and a literal separated by a slash parse as their quotient. */
  lemma ParseQuotient(x: real, y: real)
    ensures ParseAll(ValueTokens(x) + [Slash, Lit(y)]) == Some(Bin(DivOp, ValueExpr(x), Const(y)))
  {
    var ts := ValueTokens(x) + [Slash, Lit(y)];
    var n := |ValueTokens(x)|;
    var e := Bin(DivOp, ValueExpr(x), Const(y));
    assert ts[0..n] == ValueTokens(x);
    ParseValue(ts, 0, x);
    assert ts[n] == Slash && ts[n + 1] == Lit(y);
    assert ParseUnary(ts, n + 1) == Some((Const(y), n + 2));
    assert ProductRest(ts, n + 2, e) == Some((e, n + 2));
    assert ProductRest(ts, n, ValueExpr(x)) == Some((e, n + 2));
    assert ParseProduct(ts, 0) == Some((e, n + 2));
    assert SumRest(ts, n + 2, e) == Some((e, n + 2));
  }

  /** A value divided by a non-zero digit: `x/d` is x / d. */
  lemma QuotientByDigit(x: real, d: char)
    requires IsDigit(d) && DigitValue(d) != 0
    ensures EvaluatePieces([Num(x), Ch('/'), Ch(d)]) == Ok(Divide(x, DigitValue(d) as real))
  {
    QuotientSteps(x, d);
  }

  /** Dividing by the digit zero gives no finite number. */
  lemma QuotientByZero(x: real, d: char)
    requires IsDigit(d) && DigitValue(d) == 0
    ensures EvaluatePieces([Num(x), Ch('/'), Ch(d)]) == Err(NotANumber)
  {
    QuotientSteps(x, d);
    DivisionByZero(ValueExpr(x), Const(DigitValue(d) as real));
  }

  /** Eval yields no number for a division by zero. */
  lemma DivisionByZero(a: Expr, b: Expr)
    requires Eval(b) == Some(0.0)
    ensures Eval(Bin(DivOp, a, b)) == None
  {
  }

  /** The stages of evaluating `x/d`, up to the final division. */
  lemma QuotientSteps(x: real, d: char)
    requires IsDigit(d)
    ensures var e := Bin(DivOp, ValueExpr(x), Const(DigitValue(d) as real));
      EvaluatePieces([Num(x), Ch('/'), Ch(d)]) == if Eval(e).Some? then Ok(Eval(e).value) else Err(NotANumber)
  {
    var y := DigitValue(d) as real;
    var q := [Num(x), Ch('/'), Ch(d)];
    assert Allowed(q[0]) && Allowed(q[1]) && Allowed(q[2]);
    TokenizeQuotientByDigit(x, d);
    ParseQuotient(x, y);
    EvaluateSteps(q, ValueTokens(x) + [Slash, Lit(y)], Bin(DivOp, ValueExpr(x), Const(y)));
  }

  /** A piece outside the whitelist, such as a letter, makes the formula invalid. */
  lemma ForeignPieceRejected(ps: seq<Piece>, k: int)
    requires 0 <= k < |ps| && !Allowed(ps[k])
    ensures EvaluatePieces(ps) == Err(InvalidFormula)
  {
  }

  /**
   * When no variable's name occurs in the lower-cased formula, substitution
   * leaves it as it is, so a character outside the whitelist (the letters of
   * an unknown name, say) makes it invalid.
   */
  lemma UnknownNameRejected(formula: string, names: seq<string>, values: map<string, real>, k: int)
    requires forall n :: n in names ==> n in values
    requires forall n :: n in names ==> !Contains(Lower(formula), Lower(n))
    requires 0 <= k < |formula| && !Allowed(Ch(Lower(formula)[k]))
    ensures Evaluation(formula, names, values) == Err(InvalidFormula)
  {
    var ps := Chars(Lower(formula));
    forall n, j | n in names && 0 <= j <= |ps|
      ensures !MatchAt(ps, Lower(n), j)
    {
      NotContainedNoMatch(Lower(formula), Lower(n));
    }
    SubstituteAllNoMatch(ps, names, values);
    ForeignPieceRejected(ps, k);
  }

  /** The empty formula is invalid, whatever the variables. */
  lemma EmptyFormulaRejected(names: seq<string>, values: map<string, real>)
    requires forall n :: n in names ==> n in values
    ensures Evaluation("", names, values) == Err(InvalidFormula)
  {
    var ps := Chars(Lower(""));
    assert ps == [];
    forall n, j | n in names && 0 <= j <= |ps|
      ensures !MatchAt(ps, Lower(n), j)
    {
      assert !Boundary(ps, 0);
    }
    SubstituteAllNoMatch(ps, names, values);
  }

  /** `hip` inside the word `hipster` is not a whole word, so the formula is left with letters. */
  lemma HipsterRejected(waist: real, hip: real)
    ensures Evaluation("hipster", ["waist", "hip"], map["waist" := waist, "hip" := hip]) == Err(InvalidFormula)
  {
    var values := map["waist" := waist, "hip" := hip];
    var ps := Chars("hipster");
    assert Lower("hipster") == "hipster";
    HipsterHasNoWholeWord(ps);
    SubstituteAllNoMatch(ps, ["waist", "hip"], values);
    ForeignPieceRejected(ps, 0);
  }

  /** Neither `waist` nor `hip` occurs as a whole word in `hipster`. */
  lemma HipsterHasNoWholeWord(ps: seq<Piece>)
    requires ps == Chars("hipster")
    ensures forall n, j :: n in ["waist", "hip"] && 0 <= j <= |ps| ==> !MatchAt(ps, Lower(n), j)
  {
    assert Lower("waist") == "waist" && Lower("hip") == "hip";
    assert ps == [Ch('h'), Ch('i'), Ch('p'), Ch('s'), Ch('t'), Ch('e'), Ch('r')];
    forall j | 0 <= j <= |ps|
      ensures !MatchAt(ps, "waist", j)
    {
      if j < |ps| {
        assert ps[j] != Ch('w');
      }
    }
    forall j | 0 <= j <= |ps|
      ensures !MatchAt(ps, "hip", j)
    {
      if j == 0 {
        assert !Boundary(ps, 3);
      } else if j < |ps| {
        assert ps[j] != Ch('h');
      }
    }
  }

  /** With the variables `waist` and `hip`, `hip + 10` is the hip plus ten (90 gives 100, -90 gives -80). */
  lemma HipPlusTen(waist: real, hip: real)
    ensures Evaluation("hip + 10", ["waist", "hip"], map["waist" := waist, "hip" := hip]) == Ok(hip + 10.0)
  {
    HipPlusTenSubstituted(waist, hip);
    PlusTen(hip);
  }

  /** The substituted text `x + 10` evaluates to x + 10. */
  lemma PlusTen(x: real)
    ensures EvaluatePieces([Num(x), Ch(' '), Ch('+'), Ch(' '), Ch('1'), Ch('0')]) == Ok(x + 10.0)
  {
    var q := [Num(x), Ch(' '), Ch('+'), Ch(' '), Ch('1'), Ch('0')];
    assert Allowed(q[0]) && Allowed(q[1]) && Allowed(q[2]) && Allowed(q[3]) && Allowed(q[4]) && Allowed(q[5]);
    TokenizeHipPlusTen(x);
    ParseSumOfTwo(x, 10.0);
    EvaluateSteps(q, ValueTokens(x) + [Plus, Lit(10.0)], Bin(AddOp, ValueExpr(x), Const(10.0)));
  }

  /** `waist` does not occur in `hip + 10`; the whole word `hip` at its start is replaced. */
  lemma HipPlusTenSubstituted(waist: real, hip: real)
    ensures SubstituteAll(Chars(Lower("hip + 10")), ["waist", "hip"], map["waist" := waist, "hip" := hip])
         == [Num(hip), Ch(' '), Ch('+'), Ch(' '), Ch('1'), Ch('0')]
  {
    var values := map["waist" := waist, "hip" := hip];
    assert Lower("hip + 10") == "hip + 10";
    assert Lower("waist") == "waist" && Lower("hip") == "hip";
    var ps := Chars("hip + 10");
    SubstituteTwo(ps, "waist", "hip", values);
    HipPlusTenReplaced(ps, waist, hip);
  }

  lemma HipPlusTenReplaced(ps: seq<Piece>, waist: real, hip: real)
    requires ps == Chars("hip + 10")
    ensures ReplaceWord(ReplaceWord(ps, "waist", waist), "hip", hip) == [Num(hip), Ch(' '), Ch('+'), Ch(' '), Ch('1'), Ch('0')]
  {
    HipPlusTenWords(ps);
    ReplaceAbsentThenLeading(ps, "waist", "hip", waist, hip);
    assert [Num(hip)] + ps[3..] == [Num(hip), Ch(' '), Ch('+'), Ch(' '), Ch('1'), Ch('0')];
  }

  /**
   * A name with no whole-word occurrence leaves the text alone; a second name
   * occurring as a whole word only at the start replaces that prefix.
   */
  lemma ReplaceAbsentThenLeading(ps: seq<Piece>, a: string, b: string, va: real, vb: real)
    requires |b| > 0 && forall j :: 0 <= j <= |ps| ==> !MatchAt(ps, a, j)
    requires MatchAt(ps, b, 0) && forall j :: |b| <= j <= |ps| ==> !MatchAt(ps, b, j)
    ensures ReplaceWord(ReplaceWord(ps, a, va), b, vb) == [Num(vb)] + ps[|b|..]
  {
    ReplaceWordNoMatch(ps, a, va);
    ReplaceFromFirstMatch(ps, b, vb, 0, 0);
    ReplaceFromNoMatch(ps, b, vb, |b|);
  }

  /** Substituting two variables replaces the first, then the second. */
  lemma SubstituteTwo(ps: seq<Piece>, a: string, b: string, values: map<string, real>)
    requires a in values && b in values
    ensures SubstituteAll(ps, [a, b], values) == ReplaceWord(ReplaceWord(ps, Lower(a), values[a]), Lower(b), values[b])
  {
    assert [a, b][..1] == [a];
    assert [a][..0] == [];
    assert SubstituteAll(ps, [], values) == ps;
    assert SubstituteAll(ps, [a], values) == ReplaceWord(ps, Lower(a), values[a]);
  }

  /** In `hip + 10`, `waist` never occurs and `hip` occurs as a whole word only at the start. */
  lemma HipPlusTenWords(ps: seq<Piece>)
    requires ps == Chars("hip + 10")
    ensures forall j :: 0 <= j <= |ps| ==> !MatchAt(ps, "waist", j)
    ensures MatchAt(ps, "hip", 0)
    ensures forall j :: 3 <= j <= |ps| ==> !MatchAt(ps, "hip", j)
  {
    assert ps == [Ch('h'), Ch('i'), Ch('p'), Ch(' '), Ch('+'), Ch(' '), Ch('1'), Ch('0')];
    forall j | 0 <= j <= |ps|
      ensures !MatchAt(ps, "waist", j)
    {
      if j < |ps| {
        assert ps[j + 0] != Ch("waist"[0]);
      }
    }
    forall j | 3 <= j <= |ps|
      ensures !MatchAt(ps, "hip", j)
    {
      if j < |ps| {
        assert ps[j + 0] != Ch("hip"[0]);
      }
    }
  }

  /** White space between tokens is skipped. */
  lemma TokenizeSpace(rest: seq<Piece>)
    ensures Tokenize([Ch(' ')] + rest) == Tokenize(rest)
  {
    assert ([Ch(' ')] + rest)[1..] == rest;
  }

  /** `x + 10` lexes as a literal, a plus and the literal ten. */
  lemma TokenizeHipPlusTen(x: real)
    ensures Tokenize([Num(x), Ch(' '), Ch('+'), Ch(' '), Ch('1'), Ch('0')]) == Some(ValueTokens(x) + [Plus, Lit(10.0)])
  {
    var ten: seq<Piece> := [Ch('1'), Ch('0')];
    TokenizeDigits("10", []);
    assert Chars("10") + [] == ten;
    assert Tokenize([]) == Some([]);
    assert DigitsValue("10") == 10 by {
      assert "10"[..1] == "1";
      assert "1"[..0] == [];
    }
    assert Tokenize(ten) == Prepend([Lit(10.0)], Some([]));
    assert [Lit(10.0)] + [] == [Lit(10.0)];
    var spaced := [Ch(' ')] + ten;
    TokenizeSpace(ten);
    TokenizeOperator('+', Plus, spaced);
    var plus := [Ch('+')] + spaced;
    assert Tokenize(plus) == Prepend([Plus], Some([Lit(10.0)]));
    assert [Plus] + [Lit(10.0)] == [Plus, Lit(10.0)];
    TokenizeSpace(plus);
    var rest := [Ch(' ')] + plus;
    TokenizeValue(x, rest);
    assert [Num(x)] + rest == [Num(x), Ch(' '), Ch('+'), Ch(' '), Ch('1'), Ch('0')];
  }

  /** A value and a literal separated by a plus parse as their sum. */
  lemma ParseSumOfTwo(x: real, y: real)
    ensures ParseAll(ValueTokens(x) + [Plus, Lit(y)]) == Some(Bin(AddOp, ValueExpr(x), Const(y)))
  {
    var ts := ValueTokens(x) + [Plus, Lit(y)];
    var n := |ValueTokens(x)|;
    var a := ValueExpr(x);
    var e := Bin(AddOp, a, Const(y));
    assert ts[0..n] == ValueTokens(x);
    ParseValue(ts, 0, x);
    assert ts[n] == Plus && ts[n + 1] == Lit(y);
    assert ProductRest(ts, n, a) == Some((a, n));
    assert ParseProduct(ts, 0) == Some((a, n));
    assert ParseUnary(ts, n + 1) == Some((Const(y), n + 2));
    assert ProductRest(ts, n + 2, Const(y)) == Some((Const(y), n + 2));
    assert ParseProduct(ts, n + 1) == Some((Const(y), n + 2));
    assert SumRest(ts, n + 2, e) == Some((e, n + 2));
    assert SumRest(ts, n, a) == Some((e, n + 2));
  }

  /** `alert(1)` is rejected whatever the values of `waist` and `hip`. */
  lemma AlertRejected(waist: real, hip: real)
    ensures Evaluation("alert(1)", ["waist", "hip"], map["waist" := waist, "hip" := hip]) == Err(InvalidFormula)
  {
    var text := "alert(1)";
    assert Lower(text) == text;
    assert Lower("waist") == "waist" && Lower("hip") == "hip";
    forall pat | pat in ["waist", "hip"]
      ensures !Contains(text, pat)
    {
      forall i | 0 <= i <= |text|
        ensures !OccursAt(text, pat, i)
      {
        if i < |text| && i + |pat| <= |text| {
          assert text[i..i + |pat|][0] == text[i];
        }
      }
    }
    UnknownNameRejected(text, ["waist", "hip"], map["waist" := waist, "hip" := hip], 0);
  }

  /**
   * A variable named `alert` does not help: its value is substituted, and a
   * number followed by a parenthesis is a call of a number, which fails (a
   * type error in JavaScript, reported here as a syntax error).
   */
  lemma AlertBoundRejected(v: real)
    ensures Evaluation("alert(1)", ["alert"], map["alert" := v]) == Err(SyntaxError)
  {
    AlertSubstituted(v);
    var q := [Num(v), Ch('('), Ch('1'), Ch(')')];
    assert Allowed(q[0]) && Allowed(q[1]) && Allowed(q[2]) && Allowed(q[3]);
    TokenizeCallOfValue(v);
    ParseCallOfValue(v);
  }

  /** A value followed by a parenthesised expression is not one expression. */
  lemma ParseCallOfValue(v: real)
    ensures ParseAll(ValueTokens(v) + [Open, Lit(1.0), Close]) == None
  {
    var ts := ValueTokens(v) + [Open, Lit(1.0), Close];
    var n := |ValueTokens(v)|;
    assert ts[0..n] == ValueTokens(v);
    ParseValue(ts, 0, v);
    assert ts[n] == Open;
    assert ProductRest(ts, n, ValueExpr(v)) == Some((ValueExpr(v), n));
    assert ParseProduct(ts, 0) == Some((ValueExpr(v), n));
    assert SumRest(ts, n, ValueExpr(v)) == Some((ValueExpr(v), n));
    assert ParseSum(ts, 0) == Some((ValueExpr(v), n));
  }

  /** With only `alert` bound, `alert(1)` becomes the value, then `(1)`. */
  lemma AlertSubstituted(v: real)
    ensures SubstituteAll(Chars(Lower("alert(1)")), ["alert"], map["alert" := v]) == [Num(v), Ch('('), Ch('1'), Ch(')')]
  {
    assert Lower("alert(1)") == "alert(1)" && Lower("alert") == "alert";
    var ps := Chars("alert(1)");
    assert ps == [Ch('a'), Ch('l'), Ch('e'), Ch('r'), Ch('t'), Ch('('), Ch('1'), Ch(')')];
    assert MatchAt(ps, "alert", 0);
    forall j | 5 <= j <= |ps|
      ensures !MatchAt(ps, "alert", j)
    {
      if j < |ps| {
        assert ps[j + 0] != Ch("alert"[0]);
      }
    }
    ReplaceFromFirstMatch(ps, "alert", v, 0, 0);
    ReplaceFromNoMatch(ps, "alert", v, 5);
    assert ["alert"][..0] == [];
    assert SubstituteAll(ps, [], map["alert" := v]) == ps;
  }

  /** `v(1)` lexes as the value's tokens and a parenthesised one. */
  lemma TokenizeCallOfValue(v: real)
    ensures Tokenize([Num(v), Ch('('), Ch('1'), Ch(')')]) == Some(ValueTokens(v) + [Open, Lit(1.0), Close])
  {
    var close: seq<Piece> := [Ch(')')];
    TokenizeOperator(')', Close, []);
    assert [Ch(')')] + [] == close;
    assert Tokenize([]) == Some([]);
    assert Tokenize(close) == Prepend([Close], Some([]));
    assert [Close] + [] == [Close];
    TokenizeDigits("1", close);
    assert Chars("1") + close == [Ch('1'), Ch(')')];
    assert DigitsValue("1") == 1 by {
      assert "1"[..0] == [];
    }
    assert Tokenize([Ch('1'), Ch(')')]) == Prepend([Lit(1.0)], Some([Close]));
    assert [Lit(1.0)] + [Close] == [Lit(1.0), Close];
    TokenizeOperator('(', Open, [Ch('1'), Ch(')')]);
    assert [Ch('(')] + [Ch('1'), Ch(')')] == [Ch('('), Ch('1'), Ch(')')];
    assert Tokenize([Ch('('), Ch('1'), Ch(')')]) == Prepend([Open], Some([Lit(1.0), Close]));
    assert [Open] + [Lit(1.0), Close] == [Open, Lit(1.0), Close];
    TokenizeValue(v, [Ch('('), Ch('1'), Ch(')')]);
    assert [Num(v)] + [Ch('('), Ch('1'), Ch(')')] == [Num(v), Ch('('), Ch('1'), Ch(')')];
  }

  /**
   * `return` followed by a line break returns `undefined`: the text `\n5` is
   * not a number, while ` 5`, with a space in front, is 5.
   */
  lemma LineBreakAfterReturn()
    ensures EvaluatePieces(Chars("\n5")) == Err(NotANumber)
    ensures EvaluatePieces(Chars(" 5")) == Ok(5.0)
  {
    var five: seq<Piece> := [Ch('5')];
    TokenizeDigits("5", []);
    assert Chars("5") + [] == five;
    assert Tokenize([]) == Some([]);
    assert DigitsValue("5") == 5 by {
      assert "5"[..0] == [];
    }
    assert Tokenize(five) == Prepend([Lit(5.0)], Some([]));
    assert [Lit(5.0)] + [] == [Lit(5.0)];
    assert ParseAll([Lit(5.0)]) == Some(Const(5.0)) by {
      var ts := [Lit(5.0)];
      assert ParseUnary(ts, 0) == Some((Const(5.0), 1));
      assert ParseProduct(ts, 0) == Some((Const(5.0), 1));
    }
    var broken := Chars("\n5");
    assert broken == [Ch('\n'), Ch('5')];
    assert broken[1..] == five;
    assert Allowed(broken[0]) && Allowed(broken[1]);
    assert LeadingLineBreak(broken);
    var spaced := Chars(" 5");
    assert spaced == [Ch(' '), Ch('5')];
    assert spaced[1..] == five;
    assert Allowed(spaced[0]) && Allowed(spaced[1]);
    assert !LeadingLineBreak(spaced[1..]);
    EvaluateSteps(spaced, [Lit(5.0)], Const(5.0));
  }
}
