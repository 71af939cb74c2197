/** Every call an admissible request makes into the application, as one list in order. */
module Calls {
  import opened Text
  import opened Types
  import opened Schemas
  import opened Compilation
  import opened FieldPhase
  import opened IncludePhase
  import opened FilterSpec
  import opened FilterProofs
  import opened SortPhase
  import opened Compile
  import opened Admission

  function Questions(options: CompileOptions, kind: CapabilityKind, names: seq<string>): seq<Callback> {
    AskAll(options, kind, names, |names|)
  }

  function LeafQuestions(options: CompileOptions, filter: Option<FilterExpr>): seq<Callback> {
    if filter.Some? then AskLeaves(options, Leaves(filter.value)) else []
  }

  /** A cursor page asks for the tie-breaker too, unless the order already names it. */
  function TieQuestion(schema: Schema, options: CompileOptions, page: PageRequest,
                       sorts: seq<SortTerm>): seq<Callback> {
    if page.mode == PageCursor then Questions(options, CapabilitySort, TermNames(TieTerm(schema, sorts))) else []
  }

  /** A page with one token has it decoded, for the schema's revision and the final order. */
  function Decoding(schema: Schema, page: PageRequest, sorts: seq<SortTerm>): seq<Callback> {
    if HasOneToken(page) then [Decoded(TokenOf(page), schema.revision, sorts)] else []
  }

  /** Fields, edges parents first, predicates left to right, sorts, tie-breaker, token. */
  function AllCalls(schema: Schema, request: Request, options: CompileOptions, edges: seq<string>): seq<Callback> {
    var page, sorts := NormalizedPage(schema, request.page), EffectiveSorts(schema, request.sorts);
    Questions(options, CapabilityField, EffectiveFields(schema, request.fields))
    + Questions(options, CapabilityRelationship, edges)
    + LeafQuestions(options, request.filter)
    + Questions(options, CapabilitySort, TermNames(sorts))
    + TieQuestion(schema, options, page, CompletedAll(schema, sorts))
    + Decoding(schema, page, FinalSorts(schema, request))
  }

  lemma {:induction false} SelectionCalls(schema: Schema, request: Request, options: CompileOptions)
    requires ValidSchema(schema) && SelectionRun(schema, request, options).trail.violations == []
    ensures SelectionRun(schema, request, options).trail.calls
         == Questions(options, CapabilityField, EffectiveFields(schema, request.fields))
  {
    PositiveBound(schema, 1);
    PositiveBound(schema, 6);
    hide ValidSchema, FieldsRun, ConstraintsRun, FieldsOk, ConstraintsOk;
    ConstraintsAccepted(schema, options.constraints, RevisionTrail(schema, request));
    FieldsAccepted(schema, options, request.fields,
                   ConstraintsRun(schema, options.constraints, RevisionTrail(schema, request)));
  }

  lemma {:induction false} InclusionCalls(schema: Schema, request: Request, options: CompileOptions)
    requires ValidSchema(schema) && InclusionRun(schema, request, options).trail.violations == []
    ensures SelectionRun(schema, request, options).trail.violations == []
    ensures InclusionRun(schema, request, options).trail.calls
         == SelectionRun(schema, request, options).trail.calls
            + Questions(options, CapabilityRelationship, InclusionRun(schema, request, options).edges)
  {
    PositiveBound(schema, 2);
    hide ValidSchema, SelectionRun, IncludesRun, IncludesOk, EdgesTidy, EdgesCover;
    IncludesAccepted(schema, options, request.includes, SelectionRun(schema, request, options).trail);
  }

  lemma {:induction false} FilteringCalls(schema: Schema, request: Request, options: CompileOptions)
    requires ValidSchema(schema) && FilteringRun(schema, request, options).0.violations == []
    ensures InclusionRun(schema, request, options).trail.violations == []
    ensures FilteringRun(schema, request, options).0.calls
         == InclusionRun(schema, request, options).trail.calls + LeafQuestions(options, request.filter)
  {
    hide ValidSchema, InclusionRun, FilterRun, TreeOk;
    FilterAccepted(schema, options, request.filter, InclusionRun(schema, request, options).trail);
  }

  lemma {:induction false} OrderingCalls(schema: Schema, request: Request, options: CompileOptions)
    requires ValidSchema(schema) && OrderingRun(schema, request, options).trail.violations == []
    ensures FilteringRun(schema, request, options).0.violations == []
    ensures var page, sorts := NormalizedPage(schema, request.page), EffectiveSorts(schema, request.sorts);
      OrderingRun(schema, request, options).trail.calls
         == FilteringRun(schema, request, options).0.calls + Questions(options, CapabilitySort, TermNames(sorts))
            + TieQuestion(schema, options, page, CompletedAll(schema, sorts))
  {
    PositiveBound(schema, 9);
    var t := FilteringRun(schema, request, options).0;
    var page := NormalizedPage(schema, request.page);
    var sorted := SortsRun(schema, options, request.sorts, t);
    hide ValidSchema, FilteringRun, SortsRun, SortsOk, PageOk, NormalizedPage, PageModeTrail, PageBoundsTrail, TieOk,
         TieRun, TieQuestion, Questions;
    SortsAccepted(schema, options, request.sorts, t);
    var checked := PageModeTrail(page, PageBoundsTrail(schema, page, sorted.trail));
    PageChecksClean(schema, page, sorted.trail);
    TieAccepted(schema, options, sorted.sorts, checked);
    TieCalls(schema, options, page, sorted.sorts, checked);
  }

  lemma TieCalls(schema: Schema, options: CompileOptions, page: PageRequest, sorts: seq<SortTerm>, t: Trail)
    ensures page.mode == PageCursor && TieRun(schema, options, sorts, t).trail.violations == [] ==>
      TieRun(schema, options, sorts, t).trail.calls == t.calls + TieQuestion(schema, options, page, sorts)
    ensures page.mode != PageCursor ==> TieQuestion(schema, options, page, sorts) == []
  {
    var tie := TieTerm(schema, sorts);
    assert TermNames(tie) == if tie == [] then [] else [tie[0].name];
    if tie != [] {
      var name := tie[0].name;
      assert AskAll(options, CapabilitySort, [name], 0) == [];
      assert Questions(options, CapabilitySort, [name]) == Asking(options, CapabilitySort, name);
    }
  }

  /** The calls of an admissible request, whatever it costs, are exactly these, in this order. */
  lemma {:induction false} CallsAreExact(schema: Schema, request: Request, options: CompileOptions)
    requires ValidSchema(schema) && RequestOk(schema, request, options)
    ensures var run := CompileRun(schema, request, options);
      run.trail.calls == AllCalls(schema, request, options, run.edges)
  {
    PagingAccepted(schema, request, options);
    var order, page := OrderingRun(schema, request, options), NormalizedPage(schema, request.page);
    CursorAccepted(schema, options, page, order.sorts, order.trail);
    assert PagingRun(schema, request, options).trail.calls == order.trail.calls + Decoding(schema, page, order.sorts);
    hide ValidSchema, RequestOk, SelectionRun, InclusionRun, FilteringRun, OrderingRun, NormalizedPage, StateOk,
         FinalSorts, Questions, LeafQuestions, TieQuestion, Decoding;
    OrderingCalls(schema, request, options);
    FilteringCalls(schema, request, options);
    InclusionCalls(schema, request, options);
    SelectionCalls(schema, request, options);
  }
}
