/** The order a plan puts rows in: its sort terms, compared one after the other. */
module RowOrder {
  import opened Text
  import opened Types
  import opened Schemas
  import Compilation
  import opened SortPhase
  import opened Compile
  import opened Admission
  import opened SqlMeaning
  import Seek

  /** The cells of one row by sort name; an absent cell is null. */
  datatype Row = Row(cells: map<string, Value>)

  function Cell(row: Row, name: string): Option<Value> {
    if name in row.cells then Some(row.cells[name]) else None
  }

  function Flip(o: Ordering): Ordering {
    match o
    case Less => Greater
    case Equal => Equal
    case Greater => Less
  }

  /** A database's comparison of non-null values: any total preorder. */
  datatype Collation = Collation(order: (Value, Value) -> Ordering)

  ghost predicate Preorder(c: Collation) {
    && (forall x, y :: c.order(y, x) == Flip(c.order(x, y)))
    && (forall x, y, z :: c.order(x, y) != Greater && c.order(y, z) != Greater ==>
          c.order(x, z) != Greater && (c.order(x, z) == Equal ==> c.order(x, y) == Equal && c.order(y, z) == Equal))
  }

  /** Where a term puts nulls; when the plan leaves it open PostgreSQL puts them last in ascending
      order and first in descending order. */
  predicate NullsLead(term: SortTerm) {
    match term.nulls
    case NullsFirst => true
    case NullsLast => false
    case _ => term.direction == Descending
  }

  function CellOrder(c: Collation, term: SortTerm, a: Option<Value>, b: Option<Value>): Ordering {
    if a.None? && b.None? then Equal
    else if a.None? then (if NullsLead(term) then Less else Greater)
    else if b.None? then (if NullsLead(term) then Greater else Less)
    else if term.direction == Descending then c.order(b.value, a.value)
    else c.order(a.value, b.value)
  }

  function Compared(c: Collation, term: SortTerm, a: Row, b: Row): Ordering {
    CellOrder(c, term, Cell(a, term.name), Cell(b, term.name))
  }

  /** The first term that tells two rows apart decides. */
  function RowsOrder(c: Collation, sorts: seq<SortTerm>, a: Row, b: Row): Ordering {
    if sorts == [] then Equal
    else
      var first := Compared(c, sorts[0], a, b);
      if first != Equal then first else RowsOrder(c, sorts[1..], a, b)
  }

  function PlanOrder(c: Collation, sorts: seq<SortTerm>, rows: iset<Row>): Seek.Order<Row> {
    Seek.Order((a, b) => RowsOrder(c, sorts, a, b) == Less, rows)
  }

  /** No two rows agree on a column, null or not. */
  ghost predicate UniqueOn(c: Collation, name: string, rows: iset<Row>) {
    forall a, b | a in rows && b in rows && a != b :: !Alike(c, Cell(a, name), Cell(b, name))
  }

  predicate Alike(c: Collation, a: Option<Value>, b: Option<Value>) {
    if a.None? || b.None? then a.None? && b.None? else c.order(a.value, b.value) == Equal
  }

  lemma CellsPreorder(c: Collation, term: SortTerm, x: Option<Value>, y: Option<Value>, z: Option<Value>)
    requires Preorder(c)
    ensures CellOrder(c, term, y, x) == Flip(CellOrder(c, term, x, y))
    ensures CellOrder(c, term, x, y) == Equal <==> Alike(c, x, y)
    ensures CellOrder(c, term, x, y) != Greater && CellOrder(c, term, y, z) != Greater ==>
              && CellOrder(c, term, x, z) != Greater
              && (CellOrder(c, term, x, z) == Equal ==>
                  CellOrder(c, term, x, y) == Equal && CellOrder(c, term, y, z) == Equal)
    ensures CellOrder(c, term, x, y) == Equal && CellOrder(c, term, y, z) == Equal ==> CellOrder(c, term, x, z) == Equal
  {
    if x.Some? && y.Some? {
      assert c.order(y.value, x.value) == Flip(c.order(x.value, y.value));
      if z.Some? {
        assert c.order(z.value, y.value) == Flip(c.order(y.value, z.value));
        assert c.order(z.value, x.value) == Flip(c.order(x.value, z.value));
      }
    }
  }

  lemma {:induction false} RowsFlip(c: Collation, sorts: seq<SortTerm>, a: Row, b: Row)
    requires Preorder(c)
    ensures RowsOrder(c, sorts, b, a) == Flip(RowsOrder(c, sorts, a, b))
  {
    if sorts != [] {
      var term := sorts[0];
      CellsPreorder(c, term, Cell(a, term.name), Cell(b, term.name), None);
      RowsFlip(c, sorts[1..], a, b);
    }
  }

  lemma {:induction false} RowsTransitive(c: Collation, sorts: seq<SortTerm>, a: Row, b: Row, d: Row)
    requires Preorder(c) && RowsOrder(c, sorts, a, b) == Less && RowsOrder(c, sorts, b, d) != Greater
    ensures RowsOrder(c, sorts, a, d) == Less
  {
    if sorts != [] {
      var term := sorts[0];
      CellsPreorder(c, term, Cell(a, term.name), Cell(b, term.name), Cell(d, term.name));
      hide CellOrder, Preorder;
      if Compared(c, term, a, b) == Equal && Compared(c, term, b, d) == Equal {
        RowsTransitive(c, sorts[1..], a, b, d);
      }
    }
  }

  /** Rows that no term tells apart agree on every sort column. */
  lemma {:induction false} EqualRowsAgree(c: Collation, sorts: seq<SortTerm>, a: Row, b: Row, i: nat)
    requires Preorder(c) && RowsOrder(c, sorts, a, b) == Equal && i < |sorts|
    ensures Alike(c, Cell(a, sorts[i].name), Cell(b, sorts[i].name))
  {
    var term := sorts[0];
    CellsPreorder(c, term, Cell(a, term.name), Cell(b, term.name), None);
    if i > 0 {
      EqualRowsAgree(c, sorts[1..], a, b, i - 1);
    }
  }

  lemma SameRowEqual(c: Collation, sorts: seq<SortTerm>, a: Row)
    requires Preorder(c)
    ensures RowsOrder(c, sorts, a, a) == Equal
  {
    RowsFlip(c, sorts, a, a);
  }

  /** Terms that include a column on which no two rows agree put the rows in a strict total order. */
  lemma UniqueColumnTotals(c: Collation, sorts: seq<SortTerm>, rows: iset<Row>, i: nat)
    requires Preorder(c) && i < |sorts| && UniqueOn(c, sorts[i].name, rows)
    ensures Seek.StrictTotal(PlanOrder(c, sorts, rows))
  {
    var order := PlanOrder(c, sorts, rows);
    hide RowsOrder, Preorder;
    forall a | a in rows ensures !order.less(a, a) {
      SameRowEqual(c, sorts, a);
    }
    forall a, b | a in rows && b in rows && a != b ensures order.less(a, b) || order.less(b, a) {
      RowsFlip(c, sorts, a, b);
      if RowsOrder(c, sorts, a, b) == Equal {
        EqualRowsAgree(c, sorts, a, b, i);
        assert false;
      }
    }
    forall a, b, d | a in rows && b in rows && d in rows && order.less(a, b) && order.less(b, d)
      ensures order.less(a, d) {
      RowsTransitive(c, sorts, a, b, d);
    }
  }

  /** The order of every cursor-mode plan is a strict total order on rows whose values of the schema's
      tie-breaker differ. */
  lemma {:induction false} CursorPlanOrders(schema: Schema, request: Request, options: CompileOptions, c: Collation,
                                            rows: iset<Row>)
    requires ValidSchema(schema) && CompileRun(schema, request, options).trail.violations == []
    requires CompileRun(schema, request, options).plan.page.mode == PageCursor
    requires Preorder(c)
    requires forall d <- schema.sorts :: d.tieBreaker ==> UniqueOn(c, d.name, rows)
    ensures var sorts := CompileRun(schema, request, options).plan.sorts;
      TotalOrder(schema, sorts) && Seek.StrictTotal(PlanOrder(c, sorts, rows))
  {
    Accepted(schema, request, options);
    var plan := CompileRun(schema, request, options).plan;
    hide CompileRun;
    CursorPlanIsTotal(schema, request, options);
    var i :| 0 <= i < |plan.sorts| && IsTieBreaker(plan.sorts[i].name, schema.sorts);
    hide ValidSchema, Preorder, UniqueOn, RequestOk, FinalSorts;
    UniqueColumnTotals(c, plan.sorts, rows, i);
  }

  lemma {:induction false} CursorPlanIsTotal(schema: Schema, request: Request, options: CompileOptions)
    requires ValidSchema(schema) && RequestOk(schema, request, options) && FinalPage(schema, request).mode == PageCursor
    ensures TotalOrder(schema, FinalSorts(schema, request))
  {
    var sorts := EffectiveSorts(schema, request.sorts);
    var done := CompletedAll(schema, sorts);
    var t := Compilation.Trail([], []);
    assert SortsOk(schema, options, sorts) && TieOk(schema, options, done) && schema.pagination.cursor;
    hide ValidSchema, TotalOrder, SortsOk, CompletedAll, EffectiveSorts, RequestOk;
    TieAccepted(schema, options, done, t);
    assert TieRun(schema, options, done, t).sorts == FinalSorts(schema, request);
    CursorOrderIsTotal(schema, options, sorts, t);
  }

  /** Seek sessions over a cursor plan's order: pages over a changing table never repeat a row, and the
      session that meets an empty page has served every row that stayed. */
  lemma {:induction false} CursorPlanSessions(schema: Schema, request: Request, options: CompileOptions, c: Collation,
                           rows: iset<Row>, tables: seq<seq<Row>>, size: nat, k: nat, r: Row)
    requires ValidSchema(schema) && CompileRun(schema, request, options).trail.violations == []
    requires CompileRun(schema, request, options).plan.page.mode == PageCursor
    requires Preorder(c)
    requires forall d <- schema.sorts :: d.tieBreaker ==> UniqueOn(c, d.name, rows)
    requires var order := PlanOrder(c, CompileRun(schema, request, options).plan.sorts, rows);
      && k < |tables| && Seek.Listings(order, tables)
      && size > 0 && Seek.PageAt(order, tables, size, k) == []
    requires forall i :: 0 <= i <= k ==> r in tables[i]
    ensures var order := PlanOrder(c, CompileRun(schema, request, options).plan.sorts, rows);
      var served := Seek.Served(order, tables, size, k);
      Seek.Listing(order, served) && r in served
  {
    hide CompileRun, ValidSchema, Preorder, UniqueOn, Seek.Served, Seek.PageAt, Seek.Listings;
    CursorPlanOrders(schema, request, options, c, rows);
    hide PlanOrder, Seek.StrictTotal, Seek.Listing;
    var order := PlanOrder(c, CompileRun(schema, request, options).plan.sorts, rows);
    Seek.ServedIncreases(order, tables, size, k);
    Seek.SessionIsComplete(order, tables, size, k, r);
  }

  /** And backward: pages before the first row served so far, over a changing table, never repeat a row
      either, and the session that meets an empty page has served every row that stayed. */
  lemma {:induction false} CursorPlanSessionsBackward(schema: Schema, request: Request, options: CompileOptions,
                                                      c: Collation, rows: iset<Row>, tables: seq<seq<Row>>, size: nat,
                                                        k: nat, r: Row)
    requires ValidSchema(schema) && CompileRun(schema, request, options).trail.violations == []
    requires CompileRun(schema, request, options).plan.page.mode == PageCursor
    requires Preorder(c)
    requires forall d <- schema.sorts :: d.tieBreaker ==> UniqueOn(c, d.name, rows)
    requires var order := PlanOrder(c, CompileRun(schema, request, options).plan.sorts, rows);
      && k < |tables| && Seek.Listings(order, tables) && size > 0
      && Seek.BackwardPage(order, tables[k], Seek.First(Seek.ServedBackward(order, tables, size, k)), size) == []
    requires forall i :: 0 <= i <= k ==> r in tables[i]
    ensures var order := PlanOrder(c, CompileRun(schema, request, options).plan.sorts, rows);
      var served := Seek.ServedBackward(order, tables, size, k);
      Seek.Listing(order, served) && r in served
  {
    hide CompileRun, ValidSchema, Preorder, UniqueOn, Seek.ServedBackward, Seek.BackwardPage, Seek.Listings;
    CursorPlanOrders(schema, request, options, c, rows);
    hide PlanOrder, Seek.StrictTotal, Seek.Listing;
    var order := PlanOrder(c, CompileRun(schema, request, options).plan.sorts, rows);
    Seek.BackwardSessionIsComplete(order, tables, size, k, r);
  }
}
