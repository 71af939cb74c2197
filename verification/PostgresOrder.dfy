/** The projection and the ORDER BY fragment: their text is read back, has one derivation, and orders
    rows as the plan does (section 10.10 of ISO/IEC 9075-2:2003). */
module PostgresOrder {
  import opened Text
  import opened Types
  import opened Schemas
  import opened Compile
  import opened Admission
  import NormalForm
  import opened SqlLexer
  import opened SqlGrammar
  import opened SqlMeaning
  import opened Postgres
  import opened PostgresCompiler
  import opened PostgresProofs
  import opened PostgresReadable
  import RowOrder

  // ---------------------------------------------------------------- the grammar

  datatype Sense = Unstated | Asc | Desc

  datatype Placement = Default | First | Last

  /** One element of a list of columns, with the order it asks for. */
  datatype OrderTerm = OrderTerm(column: Column, sense: Sense, placement: Placement)

  function SenseWords(sense: Sense): seq<Keyword> {
    match sense
    case Unstated => []
    case Asc => [KwAsc]
    case Desc => [KwDesc]
  }

  function PlacementWords(placement: Placement): seq<Keyword> {
    match placement
    case Default => []
    case First => [KwNulls, KwFirst]
    case Last => [KwNulls, KwLast]
  }

  function WordsOf(t: OrderTerm): seq<Keyword> { SenseWords(t.sense) + PlacementWords(t.placement) }

  function WordTokens(words: seq<Keyword>): seq<Token> {
    if words == [] then [] else [Word(words[0])] + WordTokens(words[1..])
  }

  function TermYield(t: OrderTerm): seq<Token> { ColumnYield(t.column) + WordTokens(WordsOf(t)) }

  function ListYield(terms: seq<OrderTerm>): seq<Token> {
    if terms == [] then []
    else if |terms| == 1 then TermYield(terms[0])
    else TermYield(terms[0]) + [Comma] + ListYield(terms[1..])
  }

  predicate WellFormedList(terms: seq<OrderTerm>) {
    forall t <- terms :: t.column != []
  }

  // ---------------------------------------------------------------- its parser

  function ParseSense(ts: seq<Token>): (Sense, seq<Token>) {
    if At(ts, 0, Word(KwAsc)) then (Asc, ts[1..])
    else if At(ts, 0, Word(KwDesc)) then (Desc, ts[1..])
    else (Unstated, ts)
  }

  function ParsePlacement(ts: seq<Token>): Parsed<Placement> {
    if !At(ts, 0, Word(KwNulls)) then Done(Default, ts)
    else if At(ts, 1, Word(KwFirst)) then Done(First, ts[2..])
    else if At(ts, 1, Word(KwLast)) then Done(Last, ts[2..])
    else Fail
  }

  function ParseTerm(ts: seq<Token>): (r: Parsed<OrderTerm>)
    ensures r.Done? ==> |r.rest| < |ts| && r.value.column != []
  {
    match ParseColumn(ts)
    case Fail => Fail
    case Done(column, rest) =>
      var (sense, more) := ParseSense(rest);
      match ParsePlacement(more)
      case Fail => Fail
      case Done(placement, last) => Done(OrderTerm(column, sense, placement), last)
  }

  function ParseTerms(ts: seq<Token>): (r: Parsed<seq<OrderTerm>>)
    ensures r.Done? ==> |r.rest| < |ts| && r.value != [] && WellFormedList(r.value)
    decreases |ts|
  {
    match ParseTerm(ts)
    case Fail => Fail
    case Done(t, rest) =>
      if !At(rest, 0, Comma) then Done([t], rest)
      else
        match ParseTerms(rest[1..])
        case Fail => Fail
        case Done(more, last) => Done([t] + more, last)
  }

  function ParseList(ts: seq<Token>): Option<seq<OrderTerm>> {
    if ts == [] then Some([])
    else
      match ParseTerms(ts)
      case Fail => None
      case Done(terms, rest) => if rest == [] then Some(terms) else None
  }

  lemma TermParses(t: OrderTerm, rest: seq<Token>)
    requires t.column != [] && (rest == [] || rest[0] == Comma)
    ensures ParseTerm(TermYield(t) + rest) == Done(t, rest)
  {
    var words := WordTokens(WordsOf(t));
    ConcatAssociates(ColumnYield(t.column), words, rest);
    WordsParse(t, rest);
    hide ColumnYield, ParseColumn, WordTokens, ParseSense, ParsePlacement;
    ColumnParses(t.column, words + rest);
  }

  lemma WordsParse(t: OrderTerm, rest: seq<Token>)
    requires rest == [] || rest[0] == Comma
    ensures var (sense, more) := ParseSense(WordTokens(WordsOf(t)) + rest);
      sense == t.sense && ParsePlacement(more) == Done(t.placement, rest)
    ensures !At(WordTokens(WordsOf(t)) + rest, 0, Dot)
  {
    var sense, placement := SenseWords(t.sense), PlacementWords(t.placement);
    PlacementParses(t.placement, rest);
    var ts := WordTokens(placement) + rest;
    SenseParses(t.sense, ts);
    hide ParseSense, ParsePlacement, SenseWords, PlacementWords, WordTokens;
    WordsConcat(sense, placement);
    ConcatAssociates(WordTokens(sense), WordTokens(placement), rest);
  }

  lemma SenseParses(sense: Sense, rest: seq<Token>)
    requires rest == [] || rest[0] == Comma || rest[0] == Word(KwNulls)
    ensures ParseSense(WordTokens(SenseWords(sense)) + rest) == (sense, rest)
    ensures !At(WordTokens(SenseWords(sense)) + rest, 0, Dot)
  {
    WordsAre(SenseWords(sense));
    assert (WordTokens(SenseWords(sense)) + rest)[|SenseWords(sense)|..] == rest;
  }

  lemma PlacementParses(placement: Placement, rest: seq<Token>)
    requires rest == [] || rest[0] == Comma
    ensures var ts := WordTokens(PlacementWords(placement)) + rest;
      ParsePlacement(ts) == Done(placement, rest) && (ts == [] || ts[0] == Comma || ts[0] == Word(KwNulls))
  {
    WordsAre(PlacementWords(placement));
    assert (WordTokens(PlacementWords(placement)) + rest)[|PlacementWords(placement)|..] == rest;
  }

  lemma {:induction false} WordsAre(words: seq<Keyword>)
    ensures |WordTokens(words)| == |words| && forall i :: 0 <= i < |words| ==> WordTokens(words)[i] == Word(words[i])
  {
    if words != [] {
      WordsAre(words[1..]);
    }
  }

  lemma {:induction false} WordsConcat(a: seq<Keyword>, b: seq<Keyword>)
    ensures WordTokens(a + b) == WordTokens(a) + WordTokens(b)
  {
    if a == [] {
      assert a + b == b;
    } else {
      WordsConcat(a[1..], b);
      assert (a + b)[1..] == a[1..] + b;
    }
  }

  lemma {:induction false} TermsParse(terms: seq<OrderTerm>)
    requires terms != [] && WellFormedList(terms)
    ensures ParseTerms(ListYield(terms)) == Done(terms, [])
  {
    hide ParseTerm, TermYield;
    assert terms == [terms[0]] + terms[1..];
    if |terms| == 1 {
      assert terms == [terms[0]];
      TermParses(terms[0], []);
      assert TermYield(terms[0]) + [] == TermYield(terms[0]);
    } else {
      var rest := [Comma] + ListYield(terms[1..]);
      TermsParse(terms[1..]);
      TermParses(terms[0], rest);
      ConcatAssociates(TermYield(terms[0]), [Comma], ListYield(terms[1..]));
      assert rest[1..] == ListYield(terms[1..]);
    }
  }

  lemma TermSound(ts: seq<Token>)
    ensures var r := ParseTerm(ts); r.Done? ==> TermYield(r.value) + r.rest == ts
  {
    ColumnSound(ts);
    var c := ParseColumn(ts);
    if c.Done? {
      WordsSound(c.value, c.rest);
      var r := ParseTerm(ts);
      if r.Done? {
        hide ParseColumn, ColumnYield, ParseSense, ParsePlacement, WordTokens, WordsOf;
        ConcatAssociates(ColumnYield(c.value), WordTokens(WordsOf(r.value)), r.rest);
      }
    }
  }

  lemma WordsSound(column: Column, ts: seq<Token>)
    ensures var (sense, more) := ParseSense(ts); var placement := ParsePlacement(more);
      placement.Done? ==> WordTokens(WordsOf(OrderTerm(column, sense, placement.value))) + placement.rest == ts
  {
    var (sense, more) := ParseSense(ts);
    var placement := ParsePlacement(more);
    SenseSound(ts);
    PlacementSound(more);
    if placement.Done? {
      var first, second := SenseWords(sense), PlacementWords(placement.value);
      hide ParseSense, ParsePlacement, SenseWords, PlacementWords, WordTokens;
      WordsConcat(first, second);
      ConcatAssociates(WordTokens(first), WordTokens(second), placement.rest);
    }
  }

  lemma SenseSound(ts: seq<Token>)
    ensures var (sense, more) := ParseSense(ts); WordTokens(SenseWords(sense)) + more == ts
  {
    WordsAre(SenseWords(ParseSense(ts).0));
  }

  lemma PlacementSound(ts: seq<Token>)
    ensures var r := ParsePlacement(ts); r.Done? ==> WordTokens(PlacementWords(r.value)) + r.rest == ts
  {
    var r := ParsePlacement(ts);
    if r.Done? {
      WordsAre(PlacementWords(r.value));
    }
  }

  lemma {:induction false} TermsSound(ts: seq<Token>)
    ensures var r := ParseTerms(ts); r.Done? ==> ListYield(r.value) + r.rest == ts
    decreases |ts|
  {
    hide ParseTerm, TermYield;
    TermSound(ts);
    var t := ParseTerm(ts);
    if t.Done? && At(t.rest, 0, Comma) {
      TermsSound(t.rest[1..]);
      var r := ParseTerms(t.rest[1..]);
      if r.Done? {
        assert t.rest == [Comma] + t.rest[1..];
        assert ([t.value] + r.value)[1..] == r.value;
        ConcatAssociates(TermYield(t.value) + [Comma], ListYield(r.value), r.rest);
        ConcatAssociates(TermYield(t.value), [Comma], t.rest[1..]);
      }
    }
  }

  /** A token list has at most one derivation, and the parser finds it. */
  lemma ListIsDerivation(ts: seq<Token>, terms: seq<OrderTerm>)
    ensures ParseList(ts) == Some(terms) <==> ListYield(terms) == ts && WellFormedList(terms)
  {
    hide ParseTerms, ListYield;
    if terms != [] && WellFormedList(terms) {
      TermsParse(terms);
      YieldsSomething(terms);
    }
    TermsSound(ts);
    NothingYielded();
    var r := ParseTerms(ts);
    if r.Done? && r.rest == [] {
      assert ListYield(r.value) + [] == ListYield(r.value);
    }
  }

  lemma YieldsSomething(terms: seq<OrderTerm>)
    requires terms != [] && WellFormedList(terms)
    ensures ListYield(terms) != []
  {
    assert terms[0] in terms;
  }

  lemma NothingYielded()
    ensures ListYield([]) == []
  {
  }

  // ---------------------------------------------------------------- what the compiler prints

  function WordPieces(words: seq<Keyword>): seq<Piece> {
    if words == [] then [] else [Gap, Lexeme(Word(words[0]))] + WordPieces(words[1..])
  }

  function TermPieces(t: OrderTerm): seq<Piece> { ColumnPieces(t.column) + WordPieces(WordsOf(t)) }

  function ListParts(terms: seq<OrderTerm>): (parts: seq<seq<Piece>>)
    ensures |parts| == |terms|
  {
    seq(|terms|, i requires 0 <= i < |terms| => TermPieces(terms[i]))
  }

  function ListPieces(terms: seq<OrderTerm>): seq<Piece> { JoinPieces(ListParts(terms), [Lexeme(Comma), Gap]) }

  /** The terms of a plan's order under a mapping. */
  ghost function TermOf(m: Mapping, term: SortTerm): OrderTerm
    requires term.name in m.sorts
  {
    OrderTerm(ColumnNamed(m.sorts[term.name]),
              if term.direction == Descending then Desc else Asc,
              if term.nulls == NullsFirst then First else if term.nulls == NullsLast then Last else Default)
  }

  ghost function TermsOf(m: Mapping, sorts: seq<SortTerm>): (terms: seq<OrderTerm>)
    requires forall term <- sorts :: term.name in m.sorts
    ensures |terms| == |sorts|
  {
    seq(|sorts|, i requires 0 <= i < |sorts| => TermOf(m, sorts[i]))
  }

  ghost function FieldsOf(m: Mapping, fields: seq<string>): (terms: seq<OrderTerm>)
    requires forall f <- fields :: f in m.fields
    ensures |terms| == |fields|
  {
    seq(|fields|, i requires 0 <= i < |fields| => OrderTerm(ColumnNamed(m.fields[fields[i]]), Unstated, Default))
  }

  function WordsText(words: seq<Keyword>): string {
    if words == [] then "" else " " + KeywordText(words[0]) + WordsText(words[1..])
  }

  lemma {:induction false} RenderWords(words: seq<Keyword>)
    ensures Render(WordPieces(words)) == WordsText(words)
  {
    hide Render;
    if words == [] {
      RenderNil();
    } else {
      RenderWords(words[1..]);
      RenderOne(Word(words[0]));
      RenderCons(Gap, [Lexeme(Word(words[0]))]);
      assert [Gap] + [Lexeme(Word(words[0]))] == [Gap, Lexeme(Word(words[0]))];
      RenderConcat([Gap, Lexeme(Word(words[0]))], WordPieces(words[1..]));
    }
  }

  lemma {:induction false} WordsTextConcat(a: seq<Keyword>, b: seq<Keyword>)
    ensures WordsText(a + b) == WordsText(a) + WordsText(b)
  {
    hide KeywordText;
    if a == [] {
      assert a + b == b && "" + WordsText(b) == WordsText(b);
    } else {
      WordsTextConcat(a[1..], b);
      assert (a + b)[1..] == a[1..] + b;
      ConcatAssociates(" " + KeywordText(a[0]), WordsText(a[1..]), WordsText(b));
    }
  }

  lemma SenseText(d: Direction)
    requires ValidDirection(d)
    ensures WordsText(SenseWords(if d == Descending then Desc else Asc)) == " " + DirectionText(d)
  {
    var words := SenseWords(if d == Descending then Desc else Asc);
    assert words[1..] == [];
  }

  lemma PlacementText(n: NullOrder)
    requires ValidNulls(n)
    ensures WordsText(PlacementWords(if n == NullsFirst then First else if n == NullsLast then Last else Default))
      == NullsText(n)
  {
    if n != NullsUnset {
      var words := PlacementWords(if n == NullsFirst then First else Last);
      assert words[1..] == [words[1]] && words[1..][1..] == [];
      assert WordsText(words[1..]) == " " + KeywordText(words[1]);
      assert WordsText(words) == " " + KeywordText(KwNulls) + (" " + KeywordText(words[1]));
      assert " " + KeywordText(KwNulls) + (" " + KeywordText(KwFirst)) == NullsText(NullsFirst);
      assert " " + KeywordText(KwNulls) + (" " + KeywordText(KwLast)) == NullsText(NullsLast);
    }
  }

  /** The text of a sort term is that of its pieces. */
  lemma TermText(m: Mapping, term: SortTerm)
    requires term.name in m.sorts && ValidDirection(term.direction) && ValidNulls(term.nulls)
    ensures Render(TermPieces(TermOf(m, term))) == SortText(m, term)
  {
    var t := TermOf(m, term);
    ColumnIsNamed(m.sorts[term.name]);
    RenderIdentifier(m.sorts[term.name]);
    RenderWords(WordsOf(t));
    WordsTextConcat(SenseWords(t.sense), PlacementWords(t.placement));
    SenseText(term.direction);
    PlacementText(term.nulls);
    hide Render, ColumnPieces, WordPieces, WordsText, QuoteIdentifier, DirectionText, NullsText, SenseWords,
      PlacementWords;
    RenderConcat(ColumnPieces(t.column), WordPieces(WordsOf(t)));
    ConcatAssociates(QuoteIdentifier(m.sorts[term.name]), " " + DirectionText(term.direction), NullsText(term.nulls));
    ConcatAssociates(QuoteIdentifier(m.sorts[term.name]), " ", DirectionText(term.direction));
  }

  lemma OrderText(m: Mapping, sorts: seq<SortTerm>)
    requires forall term <- sorts :: term.name in m.sorts && ValidDirection(term.direction) && ValidNulls(term.nulls)
    ensures Join(SortTexts(m, sorts), ", ") == Render(ListPieces(TermsOf(m, sorts)))
  {
    var parts := ListParts(TermsOf(m, sorts));
    hide Render, SortText, TermPieces, JoinPieces;
    forall i | 0 <= i < |sorts| ensures Texts(parts)[i] == SortTexts(m, sorts)[i] {
      TermText(m, sorts[i]);
    }
    assert Texts(parts) == SortTexts(m, sorts);
    CommaText();
    RenderJoin(parts, [Lexeme(Comma), Gap]);
  }

  lemma ProjectionText(m: Mapping, fields: seq<string>)
    requires forall f <- fields :: f in m.fields
    ensures Join(FieldTexts(m, fields), ", ") == Render(ListPieces(FieldsOf(m, fields)))
  {
    var terms := FieldsOf(m, fields);
    var parts := ListParts(terms);
    forall i | 0 <= i < |fields| ensures Texts(parts)[i] == FieldTexts(m, fields)[i] {
      assert WordsOf(terms[i]) == [];
      assert TermPieces(terms[i]) == ColumnPieces(terms[i].column);
      ColumnIsNamed(m.fields[fields[i]]);
      RenderIdentifier(m.fields[fields[i]]);
    }
    assert Texts(parts) == FieldTexts(m, fields);
    hide Render, TermPieces, JoinPieces;
    CommaText();
    RenderJoin(parts, [Lexeme(Comma), Gap]);
  }

  // ---------------------------------------------------------------- and how it is read

  lemma {:induction false} WordsReadable(words: seq<Keyword>)
    ensures Readable(WordPieces(words)) && OpenStart(WordPieces(words))
    ensures Tokens(WordPieces(words)) == WordTokens(words)
  {
    if words != [] {
      var head := [Gap, Lexeme(Word(words[0]))];
      WordsReadable(words[1..]);
      ReadableConcat(head, WordPieces(words[1..]));
      TokensConcat(head, WordPieces(words[1..]));
      assert head[1..] == [Lexeme(Word(words[0]))] && head[1..][1..] == [];
      assert Tokens(head) == [Word(words[0])];
    }
  }

  /** Its column is what a quotable identifier stands for. */
  ghost predicate Plain(t: OrderTerm) {
    exists identifier :: Quotable(identifier) && Names(t.column, identifier)
  }

  lemma TermReadable(t: OrderTerm)
    requires Plain(t)
    ensures Readable(TermPieces(t)) && Tokens(TermPieces(t)) == TermYield(t) && t.column != []
  {
    var identifier :| Quotable(identifier) && Names(t.column, identifier);
    ColumnIsNamed(identifier);
    NamesOnly(t.column, ColumnNamed(identifier), identifier);
    WordsReadable(WordsOf(t));
    hide Readable, WordPieces, WordTokens, ColumnPieces, ColumnYield;
    ComparedReadable(identifier, WordPieces(WordsOf(t)));
    TokensConcat(ColumnPieces(t.column), WordPieces(WordsOf(t)));
    ColumnTokens(t.column);
  }

  lemma {:induction false} ListTokens(terms: seq<OrderTerm>)
    requires forall t <- terms :: Plain(t)
    ensures Tokens(ListPieces(terms)) == ListYield(terms)
  {
    hide Plain, TermPieces, TermYield;
    if |terms| == 1 {
      TermReadable(terms[0]);
    } else if |terms| > 1 {
      TermReadable(terms[0]);
      ListTokens(terms[1..]);
      assert ListParts(terms)[1..] == ListParts(terms[1..]);
      hide Tokens;
      TokensConcat(TermPieces(terms[0]) + [Lexeme(Comma), Gap], ListPieces(terms[1..]));
      TokensConcat(TermPieces(terms[0]), [Lexeme(Comma), Gap]);
      CommaTokens();
    }
  }

  lemma CommaTokens()
    ensures Tokens([Lexeme(Comma), Gap]) == [Comma]
  {
    assert [Lexeme(Comma), Gap][1..] == [Gap] && [Gap][1..] == [];
  }

  /** Lexing the text of a list and parsing the tokens gives the list back. */
  lemma ListReadsBack(terms: seq<OrderTerm>)
    requires forall t <- terms :: Plain(t)
    ensures Lex(Render(ListPieces(terms))) == Some(ListYield(terms)) && ParseList(ListYield(terms)) == Some(terms)
  {
    hide Plain, TermPieces, Lex, Render, Readable, JoinPieces, ListYield, ParseList;
    var parts := ListParts(terms);
    forall i | 0 <= i < |terms| ensures Readable(parts[i]) && terms[i].column != [] {
      TermReadable(terms[i]);
    }
    assert Readable([Lexeme(Comma), Gap]) by { CommaReadable(); }
    JoinReadable(parts, [Lexeme(Comma), Gap]);
    LexReadsBack(ListPieces(terms));
    ListTokens(terms);
    ListIsDerivation(ListYield(terms), terms);
  }

  lemma CommaReadable()
    ensures Readable([Lexeme(Comma), Gap])
  {
  }

  // ---------------------------------------------------------------- what it means

  /** Null is larger than every value. */
  function NullsLargest(c: RowOrder.Collation, x: Option<Value>, y: Option<Value>): Ordering {
    if x.None? && y.None? then Equal else if x.None? then Greater else if y.None? then Less
      else c.order(x.value, y.value)
  }

  function Turned(sense: Sense, o: Ordering): Ordering { if sense == Desc then RowOrder.Flip(o) else o }

  /** An explicit placement decides where nulls go; without one they are larger than every value, and
      turn round with the values when the sense is descending. */
  function TermOrder(c: RowOrder.Collation, t: OrderTerm, x: Option<Value>, y: Option<Value>): Ordering {
    if t.placement == Default || x.None? == y.None? then Turned(t.sense, NullsLargest(c, x, y))
    else if x.None? == (t.placement == First) then Less
    else Greater
  }

  /** How a database orders two rows under a list of terms. */
  function ListOrder(c: RowOrder.Collation, terms: seq<OrderTerm>, a: Column -> Option<Value>,
                     b: Column -> Option<Value>): Ordering {
    if terms == [] then Equal
    else
      var first := TermOrder(c, terms[0], a(terms[0].column), b(terms[0].column));
      if first != Equal then first else ListOrder(c, terms[1..], a, b)
  }

  /** A database row and the row of a plan's order show the same cells. */
  ghost predicate Shows(m: Mapping, sorts: seq<SortTerm>, cells: Column -> Option<Value>, row: RowOrder.Row)
    requires forall term <- sorts :: term.name in m.sorts
  {
    forall term <- sorts :: cells(ColumnNamed(m.sorts[term.name])) == RowOrder.Cell(row, term.name)
  }

  lemma {:induction false} OrderMeans(c: RowOrder.Collation, m: Mapping, sorts: seq<SortTerm>,
                                      a: Column -> Option<Value>, b: Column -> Option<Value>, x: RowOrder.Row,
                                        y: RowOrder.Row)
    requires RowOrder.Preorder(c)
    requires forall term <- sorts :: term.name in m.sorts && ValidDirection(term.direction) && ValidNulls(term.nulls)
    requires Shows(m, sorts, a, x) && Shows(m, sorts, b, y)
    ensures ListOrder(c, TermsOf(m, sorts), a, b) == RowOrder.RowsOrder(c, sorts, x, y)
  {
    if sorts != [] {
      assert TermsOf(m, sorts)[1..] == TermsOf(m, sorts[1..]);
      OrderMeans(c, m, sorts[1..], a, b, x, y);
      TermMeans(c, m, sorts[0], RowOrder.Cell(x, sorts[0].name), RowOrder.Cell(y, sorts[0].name));
      hide TermOrder, RowOrder.CellOrder;
    }
  }

  lemma TermMeans(c: RowOrder.Collation, m: Mapping, term: SortTerm, x: Option<Value>, y: Option<Value>)
    requires RowOrder.Preorder(c) && term.name in m.sorts && ValidDirection(term.direction) && ValidNulls(term.nulls)
    ensures TermOrder(c, TermOf(m, term), x, y) == RowOrder.CellOrder(c, term, x, y)
  {
    if x.Some? && y.Some? {
      assert c.order(y.value, x.value) == RowOrder.Flip(c.order(x.value, y.value));
    }
  }

  /** For every compiled plan whose sorts are mapped to quotable identifiers: the ORDER BY text lexes,
      has the plan's terms as its one derivation, and orders any two rows as the plan's order does. */
  lemma {:induction false} CompiledOrdering(schema: Schema, request: Request, options: CompileOptions, m: Mapping,
                         c: RowOrder.Collation, a: Column -> Option<Value>, b: Column -> Option<Value>, x: RowOrder.Row,
                           y: RowOrder.Row)
    requires ValidSchema(schema) && CompileRun(schema, request, options).trail.violations == [] && QuotableMapping(m)
    requires forall term <- CompileRun(schema, request, options).plan.sorts :: term.name in m.sorts
    ensures var sorts := CompileRun(schema, request, options).plan.sorts; var terms := TermsOf(m, sorts);
      && Lex(Join(SortTexts(m, sorts), ", ")) == Some(ListYield(terms))
      && (forall other :: ListYield(other) == ListYield(terms) && WellFormedList(other) <==> other == terms)
      && (RowOrder.Preorder(c) && Shows(m, sorts, a, x) && Shows(m, sorts, b, y) ==>
            ListOrder(c, terms, a, b) == RowOrder.RowsOrder(c, sorts, x, y))
  {
    var sorts := CompileRun(schema, request, options).plan.sorts;
    PlanSortsValid(schema, request, options);
    var terms := TermsOf(m, sorts);
    forall i | 0 <= i < |terms| ensures Plain(terms[i]) {
      assert Quotable(m.sorts[sorts[i].name]);
    }
    hide CompileRun, QuotableMapping, Lex, Render, ListYield, ListOrder, RowOrder.RowsOrder, Plain, ParseList,
      WellFormedList;
    OrderText(m, sorts);
    ListReadsBack(terms);
    forall other ensures ListYield(other) == ListYield(terms) && WellFormedList(other) <==> other == terms {
      ListIsDerivation(ListYield(terms), other);
    }
    if RowOrder.Preorder(c) && Shows(m, sorts, a, x) && Shows(m, sorts, b, y) {
      OrderMeans(c, m, sorts, a, b, x, y);
    }
  }

  lemma PlanSortsValid(schema: Schema, request: Request, options: CompileOptions)
    requires ValidSchema(schema) && CompileRun(schema, request, options).trail.violations == []
    ensures forall term <- CompileRun(schema, request, options).plan.sorts ::
      ValidDirection(term.direction) && ValidNulls(term.nulls)
  {
    Accepted(schema, request, options);
    hide CompileRun, ValidSchema, RequestOk;
    NormalForm.FinalSortsSettle(schema, request, options);
  }

  /** The projection lexes, and its one derivation is the list of the fields' columns. */
  lemma ProjectionReadsBack(m: Mapping, fields: seq<string>)
    requires QuotableMapping(m) && forall f <- fields :: f in m.fields
    ensures var columns := FieldsOf(m, fields);
      && Lex(Join(FieldTexts(m, fields), ", ")) == Some(ListYield(columns))
      && forall other :: ListYield(other) == ListYield(columns) && WellFormedList(other) <==> other == columns
  {
    var columns := FieldsOf(m, fields);
    forall i | 0 <= i < |columns| ensures Plain(columns[i]) {
      assert Quotable(m.fields[fields[i]]);
    }
    hide QuotableMapping, Lex, Render, ListYield, Plain, ParseList, WellFormedList;
    ProjectionText(m, fields);
    ListReadsBack(columns);
    forall other ensures ListYield(other) == ListYield(columns) && WellFormedList(other) <==> other == columns {
      ListIsDerivation(ListYield(columns), other);
    }
  }
}
