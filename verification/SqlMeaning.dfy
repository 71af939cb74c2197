/** What a search condition says about one row, in SQL's three-valued logic. */
module SqlMeaning {
  import opened Text
  import opened Types
  import opened SqlLexer
  import opened SqlGrammar
  import Like

  datatype Truth = True | False | Unknown

  function Known(b: bool): Truth { if b then True else False }

  function Not3(a: Truth): Truth {
    match a
    case True => False
    case False => True
    case Unknown => Unknown
  }

  function And3(a: Truth, b: Truth): Truth {
    if a == False || b == False then False else if a == True && b == True then True else Unknown
  }

  function Or3(a: Truth, b: Truth): Truth { Not3(And3(Not3(a), Not3(b))) }

  /** Three-valued "all" and "any" of a list, whatever its order. */
  ghost function All3(ts: seq<Truth>): Truth {
    if False in ts then False else if Unknown in ts then Unknown else True
  }

  ghost function Any3(ts: seq<Truth>): Truth {
    if True in ts then True else if Unknown in ts then Unknown else False
  }

  datatype Ordering = Less | Equal | Greater

  /** One row: its columns, None for a null, and the database's comparison of two non-null values. */
  datatype Database = Database(cell: Column -> Option<Value>, order: (Value, Value) -> Ordering)

  /** Placeholder n is the n-th argument; an argument of type null binds a null. */
  function Bound(arguments: seq<Value>, n: nat): Option<Value> {
    if 0 < n <= |arguments| && arguments[n - 1].kind != TypeNull then Some(arguments[n - 1]) else None
  }

  predicate Holds(c: Comparison, o: Ordering) {
    match c
    case CmpEqual => o == Equal
    case CmpNotEqual => o != Equal
    case CmpLess => o == Less
    case CmpLessOrEqual => o != Greater
    case CmpGreater => o == Greater
    case CmpGreaterOrEqual => o != Less
  }

  function Compared(db: Database, a: Option<Value>, c: Comparison, b: Option<Value>): Truth {
    if a.None? || b.None? then Unknown else Known(Holds(c, db.order(a.value, b.value)))
  }

  /** IN is the disjunction of equalities. */
  function AnyEqual(db: Database, a: Option<Value>, arguments: seq<Value>, params: seq<nat>): Truth {
    if params == [] then False
    else Or3(Compared(db, a, CmpEqual, Bound(arguments, params[0])), AnyEqual(db, a, arguments, params[1..]))
  }

  ghost function TestTruth(db: Database, arguments: seq<Value>, p: SqlPredicate): Truth {
    var a := db.cell(p.column);
    match p
    case NullTest(_) => Known(a.None?)
    case Range(_, low, high) =>
      And3(Compared(db, a, CmpGreaterOrEqual, Bound(arguments, low)),
           Compared(db, a, CmpLessOrEqual, Bound(arguments, high)))
    case Member(_, negated, params) =>
      var inside := AnyEqual(db, a, arguments, params);
      if negated then Not3(inside) else inside
    case Pattern(_, param, escape) =>
      var b := Bound(arguments, param);
      if a.None? || b.None?
        || escape != [Like.ESCAPE_CHAR] then Unknown else Known(Like.SqlLike(a.value.text, b.value.text))
    case Compare(_, comparison, param) => Compared(db, a, comparison, Bound(arguments, param))
  }

  ghost function Evaluate(db: Database, arguments: seq<Value>, d: Disjunction): Truth {
    var first := EvaluateConjunction(db, arguments, d.first);
    if d.rest.None? then first else Or3(first, Evaluate(db, arguments, d.rest.value))
  }

  ghost function EvaluateConjunction(db: Database, arguments: seq<Value>, c: Conjunction): Truth {
    var first := EvaluateFactor(db, arguments, c.first);
    if c.rest.None? then first else And3(first, EvaluateConjunction(db, arguments, c.rest.value))
  }

  ghost function EvaluateFactor(db: Database, arguments: seq<Value>, f: Factor): Truth {
    match f
    case Negation(g) => Not3(EvaluateFactor(db, arguments, g))
    case Group(d) => Evaluate(db, arguments, d)
    case Test(p) => TestTruth(db, arguments, p)
  }

  lemma AllOfMore(t: Truth, ts: seq<Truth>)
    ensures All3([t] + ts) == And3(t, All3(ts))
    ensures Any3([t] + ts) == Or3(t, Any3(ts))
    ensures All3([t]) == t && Any3([t]) == t
  {
    assert forall x :: x in [t] + ts <==> x == t || x in ts;
  }
}
