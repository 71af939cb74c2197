/** The tokens of an SQL fragment. Text is read left to right, each token as long as possible. */
module SqlLexer {
  import opened Text

  datatype Keyword =
    | KwAnd | KwOr | KwNot | KwIn | KwBetween | KwLike | KwEscape | KwIs | KwNull
    | KwAsc | KwDesc | KwNulls | KwFirst | KwLast

  datatype Comparison = CmpEqual | CmpNotEqual | CmpLess | CmpLessOrEqual | CmpGreater | CmpGreaterOrEqual

  datatype Token =
    | Quoted(name: string)
    | Dot | LParen | RParen | Comma
    | Word(keyword: Keyword)
    | Cmp(comparison: Comparison)
    | Param(number: nat)
    | Literal(text: string)

  function KeywordText(k: Keyword): string {
    match k
    case KwAnd => "AND"
    case KwOr => "OR"
    case KwNot => "NOT"
    case KwIn => "IN"
    case KwBetween => "BETWEEN"
    case KwLike => "LIKE"
    case KwEscape => "ESCAPE"
    case KwIs => "IS"
    case KwNull => "NULL"
    case KwAsc => "ASC"
    case KwDesc => "DESC"
    case KwNulls => "NULLS"
    case KwFirst => "FIRST"
    case KwLast => "LAST"
  }

  function KeywordOf(word: string): Option<Keyword> {
    if word == "AND" then Some(KwAnd)
    else if word == "OR" then Some(KwOr)
    else if word == "NOT" then Some(KwNot)
    else if word == "IN" then Some(KwIn)
    else if word == "BETWEEN" then Some(KwBetween)
    else if word == "LIKE" then Some(KwLike)
    else if word == "ESCAPE" then Some(KwEscape)
    else if word == "IS" then Some(KwIs)
    else if word == "NULL" then Some(KwNull)
    else if word == "ASC" then Some(KwAsc)
    else if word == "DESC" then Some(KwDesc)
    else if word == "NULLS" then Some(KwNulls)
    else if word == "FIRST" then Some(KwFirst)
    else if word == "LAST" then Some(KwLast)
    else None
  }

  function ComparisonText(c: Comparison): string {
    match c
    case CmpEqual => "="
    case CmpNotEqual => "<>"
    case CmpLess => "<"
    case CmpLessOrEqual => "<="
    case CmpGreater => ">"
    case CmpGreaterOrEqual => ">="
  }

  function ComparisonOf(text: string): Option<Comparison> {
    if text == "=" then Some(CmpEqual)
    else if text == "<>" then Some(CmpNotEqual)
    else if text == "<" then Some(CmpLess)
    else if text == "<=" then Some(CmpLessOrEqual)
    else if text == ">" then Some(CmpGreater)
    else if text == ">=" then Some(CmpGreaterOrEqual)
    else None
  }

  predicate WordChar(c: char) { 'a' <= c <= 'z' || 'A' <= c <= 'Z' || IsDigit(c) || c == '_' || c == '$' }

  predicate ComparisonChar(c: char) { c == '<' || c == '>' || c == '=' }

  // ---------------------------------------------------------------- reading

  /** One step: skip a space, or read a token and how many characters it took. */
  datatype Step = Bad | Skip | Read(token: Token, length: nat)

  /** A delimited token: the closing delimiter ends it; a doubled one is not supported. */
  function ReadDelimited(s: string, delimiter: char): Option<nat>
    requires s != ""
    ensures var r := ReadDelimited(s, delimiter); r.Some? ==> 2 <= r.value <= |s|
  {
    var n := 1 + Run(s[1..], c => c != delimiter);
    if n == |s| || (n + 1 < |s| && s[n + 1] == delimiter) then None else Some(n + 1)
  }

  function Next(s: string): (r: Step)
    requires s != ""
    ensures r.Read? ==> 0 < r.length <= |s|
  {
    var c := s[0];
    if c == ' ' then Skip
    else if c == '.' then Read(Dot, 1)
    else if c == '(' then Read(LParen, 1)
    else if c == ')' then Read(RParen, 1)
    else if c == ',' then Read(Comma, 1)
    else if c == '"' then
      var n := ReadDelimited(s, '"');
      if n.None? then Bad else Read(Quoted(s[1..n.value - 1]), n.value)
    else if c == '\'' then
      var n := ReadDelimited(s, '\'');
      if n.None? then Bad else Read(Literal(s[1..n.value - 1]), n.value)
    else if c == '$' then
      var n := Run(s[1..], WordChar);
      var digits := s[1..n + 1];
      if n == 0 || exists i :: 0 <= i < n && !IsDigit(digits[i]) then Bad else Read(Param(NumeralValue(digits)), n + 1)
    else if ComparisonChar(c) then
      var n := Run(s, ComparisonChar);
      var comparison := ComparisonOf(s[..n]);
      if comparison.None? then Bad else Read(Cmp(comparison.value), n)
    else if WordChar(c) then
      var n := Run(s, WordChar);
      var keyword := KeywordOf(s[..n]);
      if keyword.None? then Bad else Read(Word(keyword.value), n)
    else Bad
  }

  function Prepend(t: Token, rest: Option<seq<Token>>): Option<seq<Token>> {
    match rest
    case None => None
    case Some(ts) => Some([t] + ts)
  }

  function Lex(s: string): Option<seq<Token>>
    decreases |s|
  {
    if s == "" then Some([])
    else
      match Next(s)
      case Bad => None
      case Skip => Lex(s[1..])
      case Read(token, length) => Prepend(token, Lex(s[length..]))
  }

  // ---------------------------------------------------------------- writing

  /** A space or a token of the text to write. */
  datatype Piece = Gap | Lexeme(token: Token)

  function TokenText(t: Token): string {
    match t
    case Quoted(name) => "\"" + name + "\""
    case Dot => "."
    case LParen => "("
    case RParen => ")"
    case Comma => ","
    case Word(k) => KeywordText(k)
    case Cmp(c) => ComparisonText(c)
    case Param(n) => "$" + Decimal(n)
    case Literal(text) => "'" + text + "'"
  }

  function PieceText(p: Piece): string {
    match p
    case Gap => " "
    case Lexeme(t) => TokenText(t)
  }

  function Render(ps: seq<Piece>): string {
    if ps == [] then "" else PieceText(ps[0]) + Render(ps[1..])
  }

  function PieceTokens(p: Piece): seq<Token> {
    match p
    case Gap => []
    case Lexeme(t) => [t]
  }

  function Tokens(ps: seq<Piece>): seq<Token> {
    if ps == [] then [] else PieceTokens(ps[0]) + Tokens(ps[1..])
  }

  lemma {:induction false} RenderConcat(a: seq<Piece>, b: seq<Piece>)
    ensures Render(a + b) == Render(a) + Render(b)
  {
    hide Render, PieceText;
    if a == [] {
      RenderNil();
      assert a + b == b && "" + Render(b) == Render(b);
    } else {
      RenderConcat(a[1..], b);
      RenderCons(a[0], a[1..] + b);
      RenderCons(a[0], a[1..]);
      assert [a[0]] + a[1..] == a && a + b == [a[0]] + (a[1..] + b);
      ConcatAssociates(PieceText(a[0]), Render(a[1..]), Render(b));
    }
  }

  lemma RenderNil()
    ensures Render([]) == ""
  {
  }

  lemma RenderCons(p: Piece, ps: seq<Piece>)
    ensures Render([p] + ps) == PieceText(p) + Render(ps)
  {
    assert ([p] + ps)[1..] == ps;
  }

  lemma TokensStep(ps: seq<Piece>)
    requires ps != []
    ensures Tokens(ps) == PieceTokens(ps[0]) + Tokens(ps[1..])
  {
  }

  lemma {:induction false} TokensConcat(a: seq<Piece>, b: seq<Piece>)
    ensures Tokens(a + b) == Tokens(a) + Tokens(b)
  {
    if a == [] {
      assert a + b == b;
    } else {
      TokensConcat(a[1..], b);
      TokensStep(a);
      TokensStep(a + b);
      hide Tokens, PieceTokens;
      assert (a + b)[0] == a[0] && (a + b)[1..] == a[1..] + b;
      ConcatAssociates(PieceTokens(a[0]), Tokens(a[1..]), Tokens(b));
    }
  }

  // ---------------------------------------------------------------- reading back what was written

  predicate Writable(t: Token) {
    match t
    case Quoted(name) => '"' !in name
    case Literal(text) => '\'' !in text
    case _ => true
  }

  /** A token that runs on may not be followed directly by text that would extend it. */
  predicate Standalone(t: Token) {
    t.Dot? || t.LParen? || t.RParen? || t.Comma?
  }

  /** q may be written directly after p. */
  predicate Separates(p: Piece, q: Piece) {
    p.Gap? || q.Gap? || Standalone(p.token) || Standalone(q.token)
  }

  ghost predicate Readable(ps: seq<Piece>) {
    && (forall i :: 0 <= i < |ps| && ps[i].Lexeme? ==> Writable(ps[i].token))
    && (forall i :: 0 <= i < |ps| - 1 ==> Separates(ps[i], ps[i + 1]))
  }

  /** Text that cannot extend the token before it. */
  predicate Stops(rest: string) {
    rest == "" || rest[0] in {' ', '.', '(', ')', ','}
  }

  lemma KeywordReads(k: Keyword)
    ensures KeywordOf(KeywordText(k)) == Some(k)
    ensures forall i :: 0 <= i < |KeywordText(k)| ==> WordChar(KeywordText(k)[i])
    ensures KeywordText(k) != "" && KeywordText(k)[0] != '$' && !ComparisonChar(KeywordText(k)[0])
  {
  }

  lemma ComparisonReads(c: Comparison)
    ensures ComparisonOf(ComparisonText(c)) == Some(c) && ComparisonText(c) != ""
    ensures forall i :: 0 <= i < |ComparisonText(c)| ==> ComparisonChar(ComparisonText(c)[i])
  {
  }

  lemma DelimitedReads(body: string, delimiter: char, rest: string)
    requires delimiter !in body && (rest == "" || rest[0] != delimiter)
    ensures ReadDelimited([delimiter] + body + [delimiter] + rest, delimiter) == Some(|body| + 2)
  {
    var s := [delimiter] + body + [delimiter] + rest;
    assert s[1..] == body + [delimiter] + rest;
    RunStops(s[1..], c => c != delimiter, |body|);
  }

  lemma BodyBetween(open_: char, body: string, close: char, rest: string)
    ensures ([open_] + body + [close] + rest)[1..|body| + 1] == body
    ensures ([open_] + body + [close] + rest)[0] == open_
  {
    assert [open_] + body + [close] + rest == [open_] + (body + ([close] + rest));
    assert ([open_] + (body + ([close] + rest)))[1..] == body + ([close] + rest);
  }

  lemma QuotedReads(name: string, rest: string)
    requires '"' !in name && Stops(rest)
    ensures Next(TokenText(Quoted(name)) + rest) == Read(Quoted(name), |name| + 2)
  {
    hide ReadDelimited;
    assert TokenText(Quoted(name)) + rest == ['"'] + name + ['"'] + rest;
    DelimitedReads(name, '"', rest);
    BodyBetween('"', name, '"', rest);
  }

  lemma LiteralReads(text: string, rest: string)
    requires '\'' !in text && Stops(rest)
    ensures Next(TokenText(Literal(text)) + rest) == Read(Literal(text), |text| + 2)
  {
    hide ReadDelimited;
    assert TokenText(Literal(text)) + rest == ['\''] + text + ['\''] + rest;
    DelimitedReads(text, '\'', rest);
    BodyBetween('\'', text, '\'', rest);
  }

  lemma ParamReads(n: nat, rest: string)
    requires Stops(rest)
    ensures Next(TokenText(Param(n)) + rest) == Read(Param(n), |Decimal(n)| + 1)
  {
    var s, digits := TokenText(Param(n)) + rest, Decimal(n);
    DecimalRoundTrip(n);
    hide Decimal, NumeralValue;
    assert s[1..] == digits + rest;
    assert forall i :: 0 <= i < |digits| ==> IsDigit(digits[i]) && s[1..][i] == digits[i];
    RunStops(s[1..], WordChar, |digits|);
    assert s[1..|digits| + 1] == digits;
  }

  lemma WordReads(k: Keyword, rest: string)
    requires Stops(rest)
    ensures Next(KeywordText(k) + rest) == Read(Word(k), |KeywordText(k)|)
  {
    KeywordReads(k);
    var s, word := KeywordText(k) + rest, KeywordText(k);
    assert forall i :: 0 <= i < |word| ==> s[i] == word[i];
    RunStops(s, WordChar, |word|);
    assert s[..|word|] == word;
    assert WordChar(s[0]) && s[0] != '$';
    hide KeywordText, KeywordOf;
  }

  lemma ComparisonTokenReads(c: Comparison, rest: string)
    requires Stops(rest)
    ensures Next(ComparisonText(c) + rest) == Read(Cmp(c), |ComparisonText(c)|)
  {
    ComparisonReads(c);
    var s, text := ComparisonText(c) + rest, ComparisonText(c);
    assert forall i :: 0 <= i < |text| ==> s[i] == text[i];
    RunStops(s, ComparisonChar, |text|);
    assert s[..|text|] == text;
    assert ComparisonChar(s[0]);
    hide ComparisonText, ComparisonOf;
  }

  /** A written token is read back, with nothing of what follows. */
  lemma TokenReads(t: Token, rest: string)
    requires Writable(t) && (Standalone(t) || Stops(rest))
    ensures TokenText(t) != "" && Next(TokenText(t) + rest) == Read(t, |TokenText(t)|)
  {
    match t {
      case Quoted(name) => QuotedReads(name, rest); hide Next;
      case Literal(text) => LiteralReads(text, rest); hide Next;
      case Param(n) => ParamReads(n, rest); hide Next;
      case Cmp(c) => ComparisonTokenReads(c, rest); hide Next;
      case Word(k) => WordReads(k, rest); hide Next;
      case _ =>
    }
  }

  lemma RenderStops(ps: seq<Piece>)
    requires ps == [] || ps[0].Gap? || Standalone(ps[0].token)
    ensures Stops(Render(ps))
  {
  }

  /** A readable list stays readable without its first piece. */
  lemma ReadableTail(ps: seq<Piece>)
    requires ps != [] && Readable(ps)
    ensures Readable(ps[1..])
    ensures ps[0].Lexeme? ==> Writable(ps[0].token) && (Standalone(ps[0].token) || Stops(Render(ps[1..])))
  {
    hide Writable, Separates;
    var rest := ps[1..];
    forall i | 0 <= i < |rest| && rest[i].Lexeme? ensures Writable(rest[i].token) {
      assert rest[i] == ps[i + 1];
    }
    forall i | 0 <= i < |rest| - 1 ensures Separates(rest[i], rest[i + 1]) {
      assert rest[i] == ps[i + 1] && rest[i + 1] == ps[i + 2];
    }
    if ps[0].Lexeme? && !Standalone(ps[0].token) {
      if |ps| > 1 {
        assert Separates(ps[0], ps[1]);
        SeparatedStops(ps);
      }
    }
  }

  lemma SeparatedStops(ps: seq<Piece>)
    requires |ps| > 1 && Separates(ps[0], ps[1]) && ps[0].Lexeme? && !Standalone(ps[0].token)
    ensures Stops(Render(ps[1..]))
  {
    RenderStops(ps[1..]);
  }

  /** Lexing a readable list of pieces gives exactly its tokens. */
  lemma {:induction false} LexReadsBack(ps: seq<Piece>)
    requires Readable(ps)
    ensures Lex(Render(ps)) == Some(Tokens(ps))
  {
    if ps != [] {
      var rest := ps[1..];
      ReadableTail(ps);
      LexReadsBack(rest);
      var s := Render(ps);
      if ps[0].Gap? {
        assert s[1..] == Render(rest);
        assert [] + Tokens(rest) == Tokens(rest);
      } else {
        var t := ps[0].token;
        TokenReads(t, Render(rest));
        hide Next, TokenText, Standalone, Readable, Writable;
        assert s[|TokenText(t)|..] == Render(rest);
      }
    }
  }
}
