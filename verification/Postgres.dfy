/** The PostgreSQL adapter: a plan is printed as SQL fragments and a list of positional arguments. */
module Postgres {
  import opened Text
  import opened Types
  import opened SqlLexer
  import opened SqlGrammar
  import Like

  datatype Mapping = Mapping(
    fields: map<string, string>,
    filters: map<string, string>,
    sorts: map<string, string>,
    constraints: map<string, string>)

  // ---------------------------------------------------------------- identifiers

  /** The letter and digit tables of Go's unicode package. */
  datatype UnicodeTables = UnicodeTables(letter: char -> bool, digit: char -> bool)

  predicate IdentifierChar(u: UnicodeTables, c: char, first: bool) {
    c == '_' || u.letter(c) || (!first && u.digit(c))
  }

  predicate ValidSegment(u: UnicodeTables, part: string) {
    part != "" && forall i :: 0 <= i < |part| ==> IdentifierChar(u, part[i], i == 0)
  }

  predicate ValidIdentifier(u: UnicodeTables, identifier: string) {
    var parts := Split(identifier, '.');
    |parts| <= 3 && forall i :: 0 <= i < |parts| ==> ValidSegment(u, parts[i])
  }

  /** What quoting relies on: an identifier without quotation marks. */
  predicate Quotable(identifier: string) { '"' !in identifier }

  ghost predicate QuotableMapping(m: Mapping) {
    && (forall k <- m.fields :: Quotable(m.fields[k]))
    && (forall k <- m.filters :: Quotable(m.filters[k]))
    && (forall k <- m.sorts :: Quotable(m.sorts[k]))
    && (forall k <- m.constraints :: Quotable(m.constraints[k]))
  }

  lemma JoinedParts(parts: seq<string>, separator: string, c: char)
    requires c !in separator && forall p <- parts :: c !in p
    ensures c !in Join(parts, separator)
  {
  }

  lemma ValidIsQuotable(u: UnicodeTables, identifier: string)
    requires !u.letter('"') && !u.digit('"') && ValidIdentifier(u, identifier)
    ensures Quotable(identifier)
  {
    var parts := Split(identifier, '.');
    forall p | p in parts ensures '"' !in p {
      var i :| 0 <= i < |parts| && parts[i] == p;
      assert ValidSegment(u, parts[i]);
      forall j | 0 <= j < |p| ensures p[j] != '"' {
        assert IdentifierChar(u, p[j], j == 0);
      }
    }
    JoinedParts(parts, ".", '"');
    JoinSplit(identifier, '.');
  }

  ghost predicate EntriesValid(u: UnicodeTables, values: map<string, string>) {
    forall k <- values :: k != "" && ValidIdentifier(u, values[k])
  }

  method CheckEntries(u: UnicodeTables, values: map<string, string>) returns (ok: bool)
    ensures ok <==> EntriesValid(u, values)
  {
    var names := values.Keys;
    while names != {}
      invariant names <= values.Keys
      invariant forall k | k in values && k !in names :: k != "" && ValidIdentifier(u, values[k])
      decreases names
    {
      var name :| name in names;
      if name == "" || !ValidIdentifier(u, values[name]) {
        assert name in values;
        return false;
      }
      names := names - {name};
    }
    return true;
  }

  /** A compiler exists exactly for mappings of nonempty names to valid identifiers; every identifier
      it holds can be quoted. */
  method NewCompiler(u: UnicodeTables, mapping: Mapping) returns (compiler: Option<Mapping>)
    ensures compiler.Some? <==>
      && EntriesValid(u, mapping.fields) && EntriesValid(u, mapping.filters)
      && EntriesValid(u, mapping.sorts) && EntriesValid(u, mapping.constraints)
    ensures compiler.Some? ==> compiler.value == mapping
    ensures compiler.Some? && !u.letter('"') && !u.digit('"') ==> QuotableMapping(mapping)
  {
    var all := [mapping.fields, mapping.filters, mapping.sorts, mapping.constraints];
    for i := 0 to |all|
      invariant forall j :: 0 <= j < i ==> EntriesValid(u, all[j])
    {
      var ok := CheckEntries(u, all[i]);
      if !ok {
        assert !EntriesValid(u, all[i]);
        return None;
      }
    }
    assert EntriesValid(u, all[0]) && EntriesValid(u, all[1]) && EntriesValid(u, all[2]) && EntriesValid(u, all[3]);
    if !u.letter('"') && !u.digit('"') {
      forall j, k | 0 <= j < 4 && k in all[j] ensures Quotable(all[j][k]) {
        ValidIsQuotable(u, all[j][k]);
      }
      assert all[0] == mapping.fields && all[1] == mapping.filters && all[2] == mapping.sorts
        && all[3] == mapping.constraints;
    }
    compiler := Some(mapping);
  }

  function Quotes(parts: seq<string>): (quoted: seq<string>)
    ensures |quoted| == |parts|
  {
    seq(|parts|, i requires 0 <= i < |parts| => "\"" + parts[i] + "\"")
  }

  function QuoteIdentifier(identifier: string): string {
    Join(Quotes(Split(identifier, '.')), ".")
  }

  // ---------------------------------------------------------------- what is printed, piece by piece

  function ColumnOf(identifier: string): (c: Column)
    ensures c != []
  {
    Split(identifier, '.')
  }

  /** What column an identifier names: the one whose dot-free parts, joined with dots, are the identifier. */
  ghost predicate Names(c: Column, identifier: string) {
    c != [] && (forall part <- c :: '.' !in part) && Join(c, ".") == identifier
  }

  lemma NamesOnly(c: Column, d: Column, identifier: string)
    requires Names(c, identifier) && Names(d, identifier)
    ensures c == d
  {
    SplitJoin(c, '.');
    SplitJoin(d, '.');
  }

  ghost function ColumnNamed(identifier: string): (c: Column)
    ensures Names(c, identifier)
  {
    JoinSplit(identifier, '.');
    assert Names(Split(identifier, '.'), identifier);
    var c :| Names(c, identifier);
    c
  }

  /** The column that is printed is the one the identifier names. */
  lemma ColumnIsNamed(identifier: string)
    ensures ColumnOf(identifier) == ColumnNamed(identifier)
  {
    JoinSplit(identifier, '.');
    NamesOnly(ColumnOf(identifier), ColumnNamed(identifier), identifier);
  }

  /** A letter or an underscore, then letters, digits and underscores. */
  ghost predicate PartFits(u: UnicodeTables, part: string) {
    && part != "" && (part[0] == '_' || u.letter(part[0]))
    && forall c <- part[1..] :: c == '_' || u.letter(c) || u.digit(c)
  }

  /** An identifier names a column of at most three such parts. */
  lemma IdentifierExactly(u: UnicodeTables, identifier: string)
    ensures ValidIdentifier(u, identifier) <==>
      |ColumnNamed(identifier)| <= 3 && forall part <- ColumnNamed(identifier) :: PartFits(u, part)
  {
    ColumnIsNamed(identifier);
    var parts := Split(identifier, '.');
    hide Split;
    forall part ensures ValidSegment(u, part) <==> PartFits(u, part) {
      PartExactly(u, part);
    }
    hide ValidSegment, PartFits;
    forall part | part in parts ensures exists i :: 0 <= i < |parts| && parts[i] == part {}
  }

  lemma PartExactly(u: UnicodeTables, part: string)
    ensures ValidSegment(u, part) <==> PartFits(u, part)
  {
    if PartFits(u, part) {
      forall i | 0 <= i < |part| ensures IdentifierChar(u, part[i], i == 0) {
        if i > 0 {
          assert part[i] == part[1..][i - 1];
        }
      }
    }
    if ValidSegment(u, part) {
      forall c | c in part[1..] ensures c == '_' || u.letter(c) || u.digit(c) {
        var i :| 0 <= i < |part[1..]| && part[1..][i] == c;
        assert IdentifierChar(u, part[i + 1], false);
      }
    }
  }

  function ColumnPieces(c: Column): seq<Piece> {
    if c == [] then []
    else if |c| == 1 then [Lexeme(Quoted(c[0]))]
    else [Lexeme(Quoted(c[0])), Lexeme(Dot)] + ColumnPieces(c[1..])
  }

  /** Lists of pieces with a separator between them. */
  function JoinPieces(parts: seq<seq<Piece>>, separator: seq<Piece>): seq<Piece> {
    if parts == [] then []
    else if |parts| == 1 then parts[0]
    else parts[0] + separator + JoinPieces(parts[1..], separator)
  }

  function Spaced(k: Keyword): seq<Piece> { [Gap, Lexeme(Word(k)), Gap] }

  function Parenthesised(ps: seq<Piece>): seq<Piece> { [Lexeme(LParen)] + ps + [Lexeme(RParen)] }

  function ParamPiece(n: nat): seq<Piece> { [Lexeme(Param(n))] }

  /** The placeholders n+1 to n+k, separately. */
  function Placeholders(n: nat, k: nat): (ps: seq<seq<Piece>>)
    ensures |ps| == k && forall i :: 0 <= i < k ==> ps[i] == ParamPiece(n + 1 + i)
  {
    seq(k, i requires 0 <= i < k => ParamPiece(n + 1 + i))
  }

  function ComparisonOperator(op: Operator): Option<Comparison> {
    match op
    case OpEqual => Some(CmpEqual)
    case OpNotEqual => Some(CmpNotEqual)
    case OpLess => Some(CmpLess)
    case OpLessOrEqual => Some(CmpLessOrEqual)
    case OpGreater => Some(CmpGreater)
    case OpGreaterOrEqual => Some(CmpGreaterOrEqual)
    case _ => None
  }

  /** What follows the column of a predicate whose first operand is argument n+1. */
  function TestPieces(p: Predicate, n: nat): Option<seq<Piece>> {
    match p.operator
    case OpIsNull => Some([Gap, Lexeme(Word(KwIs)), Gap, Lexeme(Word(KwNull))])
    case OpBetween => Some(Spaced(KwBetween) + ParamPiece(n + 1) + Spaced(KwAnd) + ParamPiece(n + 2))
    case OpIn =>
      Some(Spaced(KwIn) + Parenthesised(JoinPieces(Placeholders(n, |p.values|), [Lexeme(Comma), Gap])))
    case OpNotIn =>
      Some([Gap, Lexeme(Word(KwNot))] + Spaced(KwIn)
           + Parenthesised(JoinPieces(Placeholders(n, |p.values|), [Lexeme(Comma), Gap])))
    case OpContains | OpStartsWith | OpEndsWith =>
      Some(Spaced(KwLike) + ParamPiece(n + 1) + Spaced(KwEscape) + [Lexeme(Literal("\\"))])
    case OpUnknown(_) => None
    case _ => Some([Gap, Lexeme(Cmp(ComparisonOperator(p.operator).value)), Gap] + ParamPiece(n + 1))
  }

  function LikePattern(op: Operator, text: string): string {
    (if op != OpStartsWith then "%" else "") + Like.EscapeLike(text) + (if op != OpEndsWith then "%" else "")
  }

  /** The values a predicate binds, in order; a pattern operand is escaped and wrapped. */
  function LeafArguments(p: Predicate): seq<Value>
    requires LeafPrintable(p)
  {
    match p.operator
    case OpIsNull => []
    case OpBetween => [p.values[0], p.values[1]]
    case OpIn | OpNotIn => p.values
    case OpContains | OpStartsWith | OpEndsWith => [Value(TypeString, LikePattern(p.operator, p.values[0].text))]
    case OpUnknown(_) => []
    case _ => [p.values[0]]
  }

  /** The operands that the printer reads without looking are there. */
  predicate LeafPrintable(p: Predicate) {
    match p.operator
    case OpIsNull | OpIn | OpNotIn | OpUnknown(_) => true
    case OpBetween => |p.values| >= 2
    case _ => |p.values| >= 1
  }

  predicate Printable(e: FilterExpr)
    decreases e
  {
    if e.leaf.Some? then LeafPrintable(e.leaf.value)
    else
      && (e.logic == LogicNot ==> e.children != [])
      && forall i :: 0 <= i < |e.children| ==> Printable(e.children[i])
  }

  function FilterArguments(e: FilterExpr): seq<Value>
    requires Printable(e)
    decreases e, |e.children| + 1
  {
    if e.leaf.Some? then LeafArguments(e.leaf.value) else ChildArguments(e, |e.children|)
  }

  /** The arguments of the first k children. */
  function ChildArguments(e: FilterExpr, k: nat): seq<Value>
    requires e.leaf.None? && Printable(e) && k <= |e.children|
    decreases e, k
  {
    if k == 0 then [] else ChildArguments(e, k - 1) + FilterArguments(e.children[k - 1])
  }

  /** A filter printed after n arguments; None when a name has no mapping, or an operator or a logic
      is not known. */
  function FilterPieces(m: Mapping, e: FilterExpr, n: nat): Option<seq<Piece>>
    requires Printable(e)
    decreases e, |e.children| + 1
  {
    if e.leaf.Some? then
      var p := e.leaf.value;
      if p.name !in m.filters then None
      else
        match TestPieces(p, n)
        case None => None
        case Some(test) => Some(ColumnPieces(ColumnOf(m.filters[p.name])) + test)
    else
      match ChildPieces(m, e, |e.children|, n)
      case None => None
      case Some(children) =>
        match e.logic
        case LogicAnd => Some(JoinPieces(children, Spaced(KwAnd)))
        case LogicOr => Some(JoinPieces(children, Spaced(KwOr)))
        case LogicNot => Some([Lexeme(Word(KwNot)), Gap] + children[0])
        case LogicUnknown(_) => None
  }

  /** The first k children, each in parentheses. */
  function ChildPieces(m: Mapping, e: FilterExpr, k: nat, n: nat): (r: Option<seq<seq<Piece>>>)
    requires e.leaf.None? && Printable(e) && k <= |e.children|
    ensures r.Some? ==> |r.value| == k
    decreases e, k
  {
    if k == 0 then Some([])
    else
      match ChildPieces(m, e, k - 1, n)
      case None => None
      case Some(before) =>
        match FilterPieces(m, e.children[k - 1], n + |ChildArguments(e, k - 1)|)
        case None => None
        case Some(child) => Some(before + [Parenthesised(child)])
  }

  /** The first k mandatory constraints; constraint i compares with argument i+1. */
  function ConstraintPieces(m: Mapping, cs: seq<Constraint>, k: nat): (r: Option<seq<seq<Piece>>>)
    requires k <= |cs|
    ensures r.Some? ==> |r.value| == k
  {
    if k == 0 then Some([])
    else
      match ConstraintPieces(m, cs, k - 1)
      case None => None
      case Some(before) =>
        if cs[k - 1].name !in m.constraints then None
        else Some(before + [ColumnPieces(ColumnOf(m.constraints[cs[k - 1].name]))
                            + [Gap, Lexeme(Cmp(CmpEqual)), Gap] + ParamPiece(k)])
  }

  function ConstraintValues(cs: seq<Constraint>): (vs: seq<Value>)
    ensures |vs| == |cs|
  {
    seq(|cs|, i requires 0 <= i < |cs| => cs[i].value)
  }

  /** The parts of the WHERE fragment: all constraints together, then the filter. */
  function WhereParts(constraints: seq<seq<Piece>>, filter: Option<seq<Piece>>): seq<seq<Piece>> {
    (if constraints == [] then [] else [Parenthesised(JoinPieces(constraints, Spaced(KwAnd)))])
    + (if filter.None? then [] else [Parenthesised(filter.value)])
  }

  function WherePieces(m: Mapping, plan: PlanData): Option<seq<Piece>>
    requires plan.filter.Some? ==> Printable(plan.filter.value)
  {
    match ConstraintPieces(m, plan.constraints, |plan.constraints|)
    case None => None
    case Some(constraints) =>
      if plan.filter.None? then Some(JoinPieces(WhereParts(constraints, None), Spaced(KwAnd)))
      else
        match FilterPieces(m, plan.filter.value, |plan.constraints|)
        case None => None
        case Some(filter) => Some(JoinPieces(WhereParts(constraints, Some(filter)), Spaced(KwAnd)))
  }

  function PlanArguments(plan: PlanData): seq<Value>
    requires plan.filter.Some? ==> Printable(plan.filter.value)
  {
    ConstraintValues(plan.constraints) + if plan.filter.Some? then FilterArguments(plan.filter.value) else []
  }

  /** strings.ToUpper on ASCII text. */
  function Upper(s: string): string {
    if s == "" then ""
    else [if 'a' <= s[0] <= 'z' then (s[0] as int - 'a' as int + 'A' as int) as char else s[0]] + Upper(s[1..])
  }

  function DirectionText(d: Direction): string {
    match d
    case Ascending => "ASC"
    case Descending => "DESC"
    case DirectionUnknown(spelling) => Upper(spelling)
  }

  function NullsText(n: NullOrder): string {
    match n
    case NullsUnset => ""
    case NullsFirst => " NULLS FIRST"
    case NullsLast => " NULLS LAST"
    case NullsUnknown(spelling) => " NULLS " + Upper(spelling)
  }

  function SortText(m: Mapping, term: SortTerm): string {
    (if term.name in m.sorts then QuoteIdentifier(m.sorts[term.name]) else "")
    + " " + DirectionText(term.direction) + NullsText(term.nulls)
  }

  function FieldText(m: Mapping, name: string): string {
    if name in m.fields then QuoteIdentifier(m.fields[name]) else ""
  }

  // ---------------------------------------------------------------- pieces as text

  function Placeholder(n: nat): string { "$" + Decimal(n) }

  lemma RenderSpaced(k: Keyword)
    ensures Render(Spaced(k)) == " " + KeywordText(k) + " "
  {
    assert Spaced(k)[1..] == [Lexeme(Word(k)), Gap] && Spaced(k)[1..][1..] == [Gap] && [Gap][1..] == [];
    RenderNil();
    RenderCons(Gap, []);
    RenderCons(Lexeme(Word(k)), [Gap]);
    RenderCons(Gap, [Lexeme(Word(k)), Gap]);
    hide Render;
    assert [Gap] + [] == [Gap] && [Lexeme(Word(k))] + [Gap] == [Lexeme(Word(k)), Gap]
        && [Gap] + [Lexeme(Word(k)), Gap] == Spaced(k);
  }

  lemma RenderOne(t: Token)
    ensures Render([Lexeme(t)]) == TokenText(t)
  {
    assert [Lexeme(t)] + [] == [Lexeme(t)];
    RenderCons(Lexeme(t), []);
  }

  lemma RenderParenthesised(ps: seq<Piece>)
    ensures Render(Parenthesised(ps)) == "(" + Render(ps) + ")"
  {
    hide Render;
    RenderOne(LParen);
    RenderOne(RParen);
    RenderConcat([Lexeme(LParen)] + ps, [Lexeme(RParen)]);
    RenderConcat([Lexeme(LParen)], ps);
  }

  function Texts(parts: seq<seq<Piece>>): (texts: seq<string>)
    ensures |texts| == |parts|
  {
    seq(|parts|, i requires 0 <= i < |parts| => Render(parts[i]))
  }

  /** Joining the texts is the text of the joined pieces. */
  lemma {:induction false} RenderJoin(parts: seq<seq<Piece>>, separator: seq<Piece>)
    ensures Render(JoinPieces(parts, separator)) == Join(Texts(parts), Render(separator))
  {
    hide Render;
    if parts == [] {
      RenderNil();
    } else if |parts| > 1 {
      var rest := JoinPieces(parts[1..], separator);
      RenderJoin(parts[1..], separator);
      RenderConcat(parts[0] + separator, rest);
      RenderConcat(parts[0], separator);
      assert Texts(parts)[1..] == Texts(parts[1..]);
    }
  }

  lemma {:induction false} RenderColumn(c: Column)
    requires c != []
    ensures Render(ColumnPieces(c)) == Join(Quotes(c), ".")
  {
    hide Render;
    if |c| == 1 {
      RenderOne(Quoted(c[0]));
    } else {
      RenderColumn(c[1..]);
      RenderOne(Quoted(c[0]));
      RenderOne(Dot);
      RenderConcat([Lexeme(Quoted(c[0]))], [Lexeme(Dot)]);
      assert [Lexeme(Quoted(c[0]))] + [Lexeme(Dot)] == [Lexeme(Quoted(c[0])), Lexeme(Dot)];
      RenderConcat([Lexeme(Quoted(c[0])), Lexeme(Dot)], ColumnPieces(c[1..]));
      assert Quotes(c)[1..] == Quotes(c[1..]);
    }
  }

  lemma RenderIdentifier(identifier: string)
    ensures Render(ColumnPieces(ColumnOf(identifier))) == QuoteIdentifier(identifier)
  {
    RenderColumn(ColumnOf(identifier));
  }

  lemma RenderParam(n: nat)
    ensures Render(ParamPiece(n)) == Placeholder(n)
  {
    RenderOne(Param(n));
  }

  lemma RangeText(n: nat)
    ensures Render(Spaced(KwBetween) + ParamPiece(n + 1) + Spaced(KwAnd) + ParamPiece(n + 2))
         == " BETWEEN " + Placeholder(n + 1) + " AND " + Placeholder(n + 2)
  {
    RenderSpaced(KwBetween);
    RenderSpaced(KwAnd);
    RenderParam(n + 1);
    RenderParam(n + 2);
    hide Render, Spaced, ParamPiece, Placeholder;
    RenderConcat(Spaced(KwBetween) + ParamPiece(n + 1) + Spaced(KwAnd), ParamPiece(n + 2));
    RenderConcat(Spaced(KwBetween) + ParamPiece(n + 1), Spaced(KwAnd));
    RenderConcat(Spaced(KwBetween), ParamPiece(n + 1));
    assert " " + KeywordText(KwBetween) + " " == " BETWEEN " && " " + KeywordText(KwAnd) + " " == " AND ";
  }

  lemma LikeText(n: nat)
    ensures Render(Spaced(KwLike) + ParamPiece(n)) == " LIKE " + Placeholder(n)
  {
    RenderSpaced(KwLike);
    RenderParam(n);
    hide Render, Spaced, ParamPiece, Placeholder;
    RenderConcat(Spaced(KwLike), ParamPiece(n));
    assert " " + KeywordText(KwLike) + " " == " LIKE ";
  }

  lemma EscapeText()
    ensures Render(Spaced(KwEscape) + [Lexeme(Literal("\\"))]) == " ESCAPE " + "'\\'"
  {
    RenderSpaced(KwEscape);
    RenderOne(Literal("\\"));
    hide Render, Spaced;
    RenderConcat(Spaced(KwEscape), [Lexeme(Literal("\\"))]);
    assert " " + KeywordText(KwEscape) + " " == " ESCAPE ";
  }

  lemma PatternText(n: nat)
    ensures Render(Spaced(KwLike) + ParamPiece(n + 1) + Spaced(KwEscape) + [Lexeme(Literal("\\"))])
         == " LIKE " + Placeholder(n + 1) + " ESCAPE " + "'\\'"
  {
    LikeText(n + 1);
    EscapeText();
    hide Render, Spaced, ParamPiece, Placeholder;
    ConcatAssociates(Spaced(KwLike) + ParamPiece(n + 1), Spaced(KwEscape), [Lexeme(Literal("\\"))]);
    RenderConcat(Spaced(KwLike) + ParamPiece(n + 1), Spaced(KwEscape) + [Lexeme(Literal("\\"))]);
    ConcatAssociates(" LIKE " + Placeholder(n + 1), " ESCAPE ", "'\\'");
  }

  lemma ComparisonTextOf(c: Comparison, n: nat)
    ensures Render([Gap, Lexeme(Cmp(c)), Gap] + ParamPiece(n)) == " " + ComparisonText(c) + " " + Placeholder(n)
  {
    RenderOne(Cmp(c));
    RenderParam(n);
    RenderNil();
    RenderCons(Gap, []);
    assert [Gap] + [] == [Gap];
    hide Render, ParamPiece, Placeholder, ComparisonText;
    assert [Gap, Lexeme(Cmp(c)), Gap] == [Gap] + [Lexeme(Cmp(c))] + [Gap];
    RenderConcat([Gap, Lexeme(Cmp(c)), Gap], ParamPiece(n));
    RenderConcat([Gap] + [Lexeme(Cmp(c))], [Gap]);
    RenderConcat([Gap], [Lexeme(Cmp(c))]);
  }

  lemma InText(list: seq<Piece>)
    ensures Render(Spaced(KwIn) + Parenthesised(list)) == " IN (" + Render(list) + ")"
  {
    RenderSpaced(KwIn);
    RenderParenthesised(list);
    hide Render, Spaced, Parenthesised;
    RenderConcat(Spaced(KwIn), Parenthesised(list));
    assert " " + KeywordText(KwIn) + " " == " IN ";
    assert " IN " + ("(" + Render(list) + ")") == " IN (" + Render(list) + ")";
  }

  lemma CommaText()
    ensures Render([Lexeme(Comma), Gap]) == ", "
  {
    RenderNil();
    RenderCons(Gap, []);
    RenderCons(Lexeme(Comma), [Gap]);
    assert [Gap] + [] == [Gap] && [Lexeme(Comma)] + [Gap] == [Lexeme(Comma), Gap];
  }

  lemma NotText()
    ensures Render([Gap, Lexeme(Word(KwNot))]) == " NOT"
  {
    RenderOne(Word(KwNot));
    RenderCons(Gap, [Lexeme(Word(KwNot))]);
    assert [Gap] + [Lexeme(Word(KwNot))] == [Gap, Lexeme(Word(KwNot))];
  }

  lemma NotInText(list: seq<Piece>)
    ensures Render([Gap, Lexeme(Word(KwNot))] + Spaced(KwIn) + Parenthesised(list)) == " NOT IN (" + Render(list) + ")"
  {
    InText(list);
    NotText();
    hide Render, Spaced, Parenthesised;
    ConcatAssociates([Gap, Lexeme(Word(KwNot))], Spaced(KwIn), Parenthesised(list));
    RenderConcat([Gap, Lexeme(Word(KwNot))], Spaced(KwIn) + Parenthesised(list));
    assert " NOT" + (" IN (" + Render(list) + ")") == " NOT IN (" + Render(list) + ")";
  }

  lemma MembershipText(negated: bool, list: seq<Piece>)
    ensures Render((if negated then [Gap, Lexeme(Word(KwNot))] + Spaced(KwIn) else Spaced(KwIn)) + Parenthesised(list))
         == (if negated then " NOT IN " else " IN ") + "(" + Render(list) + ")"
  {
    InText(list);
    NotInText(list);
    hide Render, Spaced, Parenthesised;
    assert " NOT IN " + "(" == " NOT IN (" && " IN " + "(" == " IN (";
  }

  lemma NullTestText()
    ensures Render([Gap, Lexeme(Word(KwIs)), Gap, Lexeme(Word(KwNull))]) == " IS NULL"
  {
    RenderSpaced(KwIs);
    RenderOne(Word(KwNull));
    assert [Gap, Lexeme(Word(KwIs)), Gap, Lexeme(Word(KwNull))] == Spaced(KwIs) + [Lexeme(Word(KwNull))];
    hide Render;
    RenderConcat(Spaced(KwIs), [Lexeme(Word(KwNull))]);
    assert " " + KeywordText(KwIs) + " " + KeywordText(KwNull) == " IS NULL";
  }
}
