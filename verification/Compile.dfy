/** Compile: a request becomes a plan exactly when it is well formed and affordable. */
module Compile {
  import opened Text
  import opened Types
  import opened PlanHeap
  import opened Violations
  import opened Schemas
  import opened Compilation
  import opened FieldPhase
  import opened IncludePhase
  import opened FilterSpec
  import opened FilterPhase
  import opened SortPhase

  // ---------------------------------------------------------------- the whole run as a function

  function SortWeight(schema: Schema): string -> int { name => SortCost(schema, name) }

  /** The unbounded cost: the base cost and every execution field, included edge, predicate and final sort. */
  function TotalCost(schema: Schema, execution: seq<string>, edges: seq<string>, filter: Option<FilterExpr>,
                     sorts: seq<SortTerm>): int {
    1 + Sum(FieldWeight(schema), execution) + Sum(EdgeWeight(schema), edges)
    + FilterTotal(schema, filter) + Sum(SortWeight(schema), TermNames(sorts))
  }

  function FilterTotal(schema: Schema, filter: Option<FilterExpr>): int {
    if filter.Some? then LeafTotal(schema, Leaves(filter.value)) else 0
  }

  datatype Outcome = Outcome(trail: Trail, plan: PlanData, edges: seq<string>)

  function RevisionTrail(schema: Schema, request: Request): Trail {
    Trail([], []).ReportIf(request.schemaRevision.Some? && request.schemaRevision.value != schema.revision,
                           CodeVersionMismatch, "schema_revision")
  }

  function SelectionRun(schema: Schema, request: Request, options: CompileOptions): FieldState {
    FieldsRun(schema, options, request.fields,
              ConstraintsRun(schema, options.constraints, RevisionTrail(schema, request)))
  }

  function InclusionRun(schema: Schema, request: Request, options: CompileOptions): IncludeState {
    IncludesRun(schema, options, request.includes, SelectionRun(schema, request, options).trail)
  }

  function FilteringRun(schema: Schema, request: Request, options: CompileOptions): (Trail, Option<FilterExpr>) {
    FilterRun(schema, options, request.filter, InclusionRun(schema, request, options).trail)
  }

  function OrderingRun(schema: Schema, request: Request, options: CompileOptions): SortState {
    var sorts := SortsRun(schema, options, request.sorts, FilteringRun(schema, request, options).0);
    PageRun(schema, options, request.page, sorts.sorts, sorts.trail)
  }

  function PagingRun(schema: Schema, request: Request, options: CompileOptions): CursorResult {
    var order := OrderingRun(schema, request, options);
    CursorRun(schema, options, NormalizedPage(schema, request.page), order.sorts, order.trail)
  }

  function CompileRun(schema: Schema, request: Request, options: CompileOptions): Outcome {
    var response := SelectionRun(schema, request, options).response;
    var includes := InclusionRun(schema, request, options);
    var filter := FilteringRun(schema, request, options).1;
    var sorts := OrderingRun(schema, request, options).sorts;
    var paging := PagingRun(schema, request, options);
    var execution := ExecutionFields(schema, response);
    var cost := TotalCost(schema, execution, includes.edges, filter, sorts);
    Outcome(
      paging.trail.ReportIf(cost > schema.bounds.maxCost as int, CodeCostLimit, "query"),
      PlanData(schema.resource, schema.revision, response, execution, includes.includes, filter,
               Truncated(options.constraints, schema.bounds.maxValues), sorts, paging.page, paging.cursor, cost),
      includes.edges)
  }

  // ---------------------------------------------------------------- the imperative run

  /** Every term the sort and page phases return is declared, whatever was reported. */
  lemma {:induction false} SortRunDeclared(schema: Schema, options: CompileOptions, sorts: seq<SortTerm>, k: nat,
                                           t: Trail)
    requires k <= |sorts|
    ensures forall term <- SortRun(schema, options, sorts, k, t).sorts :: term.name in schema.sortIndex
  {
    hide Permits;
    if k > 0 {
      SortRunDeclared(schema, options, sorts, k - 1, t);
    }
  }

  lemma OrderingDeclared(schema: Schema, request: Request, options: CompileOptions)
    requires ValidSchema(schema)
    ensures forall term <- OrderingRun(schema, request, options).sorts :: term.name in schema.sortIndex
  {
    hide FilteringRun, SortRun, Permits, PageBoundsTrail, PageModeTrail;
    var t := FilteringRun(schema, request, options).0;
    var sorts := EffectiveSorts(schema, request.sorts);
    var kept := Truncated(sorts, schema.bounds.maxSorts);
    SortRunDeclared(schema, options, kept, |kept|,
                    t.ReportIf(|sorts| > schema.bounds.maxSorts, CodeLimitExceeded, "sorts"));
    var tie := FirstTieBreaker(schema.sorts, 0);
    if tie.Some? {
      DeclaredSort(schema, schema.sorts[tie.value].name);
    }
    hide ValidSchema, FirstTieBreaker;
  }

  /** A request as its caller holds it: slices and a filter tree that stay the caller's. */
  datatype RequestCells = RequestCells(
    schemaRevision: Option<string>,
    fields: Option<array<string>>,
    includes: Option<array<string>>,
    filter: FilterCell?,
    sorts: Option<array<SortTerm>>,
    page: PageRequest)

  ghost function Slices(cells: RequestCells): set<object> {
    (if cells.fields.Some? then {cells.fields.value} else {})
    + (if cells.includes.Some? then {cells.includes.value} else {})
    + (if cells.sorts.Some? then {cells.sorts.value} else {})
  }

  ghost function RequestOf(cells: RequestCells): Request
    reads Slices(cells), cells.filter
  {
    Request(cells.schemaRevision, Requested(cells.fields), Requested(cells.includes), TreeOf(cells.filter),
            Requested(cells.sorts), cells.page)
  }

  /** The revision check and the server's constraints; nobody is asked. */
  method CompilePolicy(schema: Schema, request: RequestCells, ghost asked: Request, constraints: array<Constraint>,
                       ghost authority: Authority, plan: Plan, collector: Collector)
    requires ValidSchema(schema) && collector.Valid() && TrailOf(collector, authority) == Trail([], [])
    requires asked.schemaRevision == request.schemaRevision
    modifies plan`constraints, collector
    ensures collector.Valid()
    ensures fresh(plan.constraints) && plan.constraints[..] == Truncated(constraints[..], schema.bounds.maxValues)
    ensures TrailOf(collector, authority) == ConstraintsRun(schema, constraints[..], RevisionTrail(schema, asked))
  {
    assert schema.bounds.maxValues > 0 by { PositiveBound(schema, 6); }
    hide ConstraintsRun, ValidSchema;
    if request.schemaRevision.Some? && request.schemaRevision.value != schema.revision {
      collector.Add(CodeVersionMismatch, "schema_revision");
    }
    CompileConstraints(schema, constraints, plan, collector, authority);
  }

  /** The phases that choose what to return: revision, constraints, fields and includes. */
  method CompileSelection(schema: Schema, request: RequestCells, ghost asked: Request, constraints: array<Constraint>,
                          authority: Authority, plan: Plan, collector: Collector)
    returns (ghost edges: seq<string>)
    requires ValidSchema(schema) && collector.Valid() && plan.CostTracks(schema.bounds.maxCost) && plan.charged == 1
    requires plan.responseFields[..] == [] && plan.executionFields[..] == [] && plan.includes[..] == []
    requires TrailOf(collector, authority) == Trail([], [])
    requires asked == RequestOf(request) && constraints[..] == authority.options.constraints
    modifies plan`constraints, plan`responseFields, plan`executionFields, plan`includes,
             plan`cost, plan`costExceeded, plan`charged, collector, authority`calls
    ensures collector.Valid() && plan.CostTracks(schema.bounds.maxCost)
    ensures fresh(plan.constraints) && fresh(plan.executionFields)
    ensures plan.responseFields == old(plan.responseFields) || fresh(plan.responseFields)
    ensures plan.includes == old(plan.includes) || fresh(plan.includes)
    ensures plan.constraints[..] == Truncated(authority.options.constraints, schema.bounds.maxValues)
    ensures plan.responseFields[..] == SelectionRun(schema, asked, authority.options).response
    ensures plan.executionFields[..] == ExecutionFields(schema, plan.responseFields[..])
    ensures IncludeState(TrailOf(collector, authority), plan.includes[..], edges)
      == InclusionRun(schema, asked, authority.options)
    ensures plan.charged == 1 + Sum(FieldWeight(schema), plan.executionFields[..]) + Sum(EdgeWeight(schema), edges)
  {
    hide FieldsRun, ConstraintsRun, RevisionTrail, IncludesRun, ExecutionFields, ValidSchema, Truncated;
    CompilePolicy(schema, request, asked, constraints, authority, plan, collector);
    CompileFields(schema, request.fields, authority, plan, collector);
    edges := CompileIncludes(schema, request.includes, authority, plan, collector);
  }

  /** The phases that choose rows and their order: filter, sorts and page. */
  method CompileRows(schema: Schema, request: RequestCells, ghost asked: Request, authority: Authority, plan: Plan,
                     collector: Collector)
    requires ValidSchema(schema) && collector.Valid() && plan.page == request.page
    requires TrailOf(collector, authority) == InclusionRun(schema, asked, authority.options).trail
    requires asked == RequestOf(request)
    requires request.filter != null ==>
      request.filter.Valid() && authority !in request.filter.Repr && collector !in request.filter.Repr
    modifies plan`filter, plan`sorts, plan`page, collector, authority`calls
    ensures collector.Valid()
    ensures (plan.filter != null ==> plan.filter.Valid() && fresh(plan.filter.Repr)) && fresh(plan.sorts)
    ensures plan.page == NormalizedPage(schema, asked.page)
    ensures TreeOf(plan.filter) == FilteringRun(schema, asked, authority.options).1
    ensures plan.filter != null ==> LeavesDeclared(schema, Leaves(plan.filter.Tree))
    ensures SortState(TrailOf(collector, authority), plan.sorts[..]) == OrderingRun(schema, asked, authority.options)
  {
    hide InclusionRun, FilterRun, SortsRun, PageRun, NormalizedPage, LeavesDeclared, ValidSchema, Closed;
    plan.filter := CompileFilter(schema, request.filter, authority, collector);
    plan.sorts := CompileSorts(schema, request.sorts, authority, collector);
    plan.sorts := CompilePage(schema, plan, plan.sorts, authority, collector);
  }

  lemma PositiveBound(schema: Schema, i: nat)
    requires ValidSchema(schema) && i < |BoundValues(schema.bounds)|
    ensures BoundValues(schema.bounds)[i] > 0
  {
  }

  method ChargeSorts(schema: Schema, plan: Plan)
    requires ValidSchema(schema) && plan.CostTracks(schema.bounds.maxCost)
    requires forall term <- plan.sorts[..] :: term.name in schema.sortIndex
    modifies plan`cost, plan`costExceeded, plan`charged
    ensures plan.CostTracks(schema.bounds.maxCost)
    ensures plan.charged == old(plan.charged) + Sum(SortWeight(schema), TermNames(plan.sorts[..]))
  {
    hide ValidSchema;
    ghost var names := TermNames(plan.sorts[..]);
    for i := 0 to plan.sorts.Length
      invariant plan.CostTracks(schema.bounds.maxCost)
      invariant plan.charged == old(plan.charged) + Total(SortWeight(schema), names, i)
    {
      var sort := plan.sorts[i];
      assert sort in plan.sorts[..];
      DeclaredSort(schema, sort.name);
      plan.AddPlanCost(schema.bounds.maxCost, schema.sorts[schema.sortIndex[sort.name]].cost,
                       SortCost(schema, sort.name));
    }
  }

  method ChargeFilter(schema: Schema, plan: Plan)
    requires ValidSchema(schema) && plan.CostTracks(schema.bounds.maxCost) && plan.Valid()
    requires plan.filter != null ==> LeavesDeclared(schema, Leaves(plan.filter.Tree))
    modifies plan`cost, plan`costExceeded, plan`charged
    ensures plan.CostTracks(schema.bounds.maxCost)
    ensures plan.charged == old(plan.charged) + FilterTotal(schema, TreeOf(plan.filter))
  {
    hide ValidSchema, LeafTotal, LeavesDeclared;
    if plan.filter != null {
      var cost := FilterCost(schema, plan.filter);
      plan.AddPlanCost(schema.bounds.maxCost, cost, LeafTotal(schema, Leaves(plan.filter.Tree)));
    }
  }

  method ChargeRows(schema: Schema, plan: Plan)
    requires ValidSchema(schema) && plan.CostTracks(schema.bounds.maxCost) && plan.Valid()
    requires plan.View().filter.Some? ==> LeavesDeclared(schema, Leaves(plan.View().filter.value))
    requires forall term <- plan.View().sorts :: term.name in schema.sortIndex
    modifies plan`cost, plan`costExceeded, plan`charged
    ensures plan.CostTracks(schema.bounds.maxCost)
    ensures plan.charged == old(plan.charged) + FilterTotal(schema, plan.View().filter)
      + Sum(SortWeight(schema), TermNames(plan.View().sorts))
    ensures plan.Valid() && plan.Footprint() == old(plan.Footprint())
    ensures plan.View() == old(plan.View()).(cost := plan.cost as int)
  {
    hide ValidSchema, FilterTotal, LeavesDeclared;
    ChargeFilter(schema, plan);
    ChargeSorts(schema, plan);
  }

  /** A draft is made of what it started with and of new objects, and the application, which has gained
      only new objects, holds none of it. */
  twostate predicate Drafted(plan: Plan, authority: Authority)
    reads plan, plan.filter, plan.cursor, authority, authority.Held, plan.Footprint()
  {
    && plan.Valid() && plan.Footprint() !! authority.Held
    && (forall o <- plan.Footprint() :: o in old(plan.Footprint()) || fresh(o))
    && Gained(authority, {})
  }

  /** A plan under construction and the application it is made for. */
  datatype Draft = Draft(plan: Plan, authority: Authority)

  /** Before the decoder is called. */
  twostate lemma PartsAreDrafted(d: Draft)
    requires old(d.plan.Footprint() !! d.authority.Held) && old(d.plan.filter == null) && d.plan.cursor == null
    requires fresh(d.plan.constraints) && fresh(d.plan.executionFields) && fresh(d.plan.sorts)
    requires d.plan.responseFields == old(d.plan.responseFields) || fresh(d.plan.responseFields)
    requires d.plan.includes == old(d.plan.includes) || fresh(d.plan.includes)
    requires d.plan.filter != null ==> d.plan.filter.Valid() && fresh(d.plan.filter.Repr)
    requires old(d.authority.Held) == d.authority.Held
    ensures Drafted(d.plan, d.authority)
  {
  }

  /** What the decoder gains is none of the plan's, and the plan gains none of what the decoder holds. */
  twostate lemma CursorIsDrafted(d: Draft)
    requires old(d.plan.Valid() && d.plan.Footprint() !! d.authority.Held && d.plan.cursor == null)
    requires unchanged(d.plan`responseFields, d.plan`executionFields, d.plan`includes, d.plan`constraints, d.plan`sorts,
                       d.plan`filter)
    requires d.plan.filter != null ==> unchanged(old(d.plan.filter.Repr))
    requires fresh(CursorObjects(d.plan.cursor)) && CursorObjects(d.plan.cursor) !! d.authority.Held
    requires Gained(d.authority, {})
    ensures Drafted(d.plan, d.authority)
  {
  }

  /** What the phases before the decoder leave behind. */
  ghost predicate PartsDone(schema: Schema, asked: Request, options: CompileOptions, plan: PlanData, edges: seq<string>,
                            charged: int) {
    && plan.resource == schema.resource && plan.revision == schema.revision
    && plan.constraints == Truncated(options.constraints, schema.bounds.maxValues)
    && plan.responseFields == SelectionRun(schema, asked, options).response
    && plan.executionFields == ExecutionFields(schema, plan.responseFields)
    && plan.includes == InclusionRun(schema, asked, options).includes
      && edges == InclusionRun(schema, asked, options).edges
    && plan.filter == FilteringRun(schema, asked, options).1
    && (plan.filter.Some? ==> LeavesDeclared(schema, Leaves(plan.filter.value)))
    && plan.sorts == OrderingRun(schema, asked, options).sorts
    && charged == 1 + Sum(FieldWeight(schema), plan.executionFields) + Sum(EdgeWeight(schema), edges)
  }

  /** The phases before the decoder is called, one after the other. */
  method CompileParts(schema: Schema, request: RequestCells, ghost asked: Request, constraints: array<Constraint>,
                      authority: Authority, plan: Plan, collector: Collector)
    returns (ghost edges: seq<string>)
    requires ValidSchema(schema) && collector.Valid() && plan.CostTracks(schema.bounds.maxCost) && plan.charged == 1
    requires plan.responseFields[..] == [] && plan.executionFields[..] == [] && plan.includes[..] == []
    requires plan.cursor == null && plan.filter == null && plan.Footprint() !! authority.Held
    requires collector !in plan.Footprint() && authority !in plan.Footprint()
    requires plan.page == request.page && plan.resource == schema.resource && plan.revision == schema.revision
    requires TrailOf(collector, authority) == Trail([], [])
    requires asked == RequestOf(request) && constraints[..] == authority.options.constraints
    requires request.filter != null ==>
      request.filter.Valid() && authority !in request.filter.Repr && collector !in request.filter.Repr
        && plan !in request.filter.Repr
    modifies plan, collector, authority`calls
    ensures collector.Valid() && plan.CostTracks(schema.bounds.maxCost)
    ensures Drafted(plan, authority) && plan.cursor == null && plan.page == NormalizedPage(schema, asked.page)
    ensures PartsDone(schema, asked, authority.options, plan.View(), edges, plan.charged)
    ensures TrailOf(collector, authority) == OrderingRun(schema, asked, authority.options).trail
  {
    hide SelectionRun, InclusionRun, FilteringRun, OrderingRun, ExecutionFields, LeavesDeclared, ValidSchema, Truncated,
         NormalizedPage, Sum, Plan.Footprint, Plan.Valid;
    edges := CompileSelection(schema, request, asked, constraints, authority, plan, collector);
    CompileRows(schema, request, asked, authority, plan, collector);
    PartsAreDrafted(Draft(plan, authority));
  }

  /** The parts of a plan, its page and its cursor make up the plan of the run. */
  lemma RunAssembled(schema: Schema, request: Request, options: CompileOptions, plan: PlanData, edges: seq<string>,
                     charged: int)
    requires PartsDone(schema, request, options, plan, edges, charged)
    requires var paging := PagingRun(schema, request, options); plan.page == paging.page && plan.cursor == paging.cursor
    ensures var cost := charged + FilterTotal(schema, plan.filter) + Sum(SortWeight(schema), TermNames(plan.sorts));
      CompileRun(schema, request, options)
        == Outcome(PagingRun(schema, request, options).trail.ReportIf(cost > schema.bounds.maxCost as int,
                   CodeCostLimit, "query"), plan.(cost := cost), edges)
  {
    hide PagingRun, SelectionRun, InclusionRun, FilteringRun, OrderingRun, ExecutionFields, Truncated, FilterTotal, Sum,
      LeavesDeclared;
  }

  /** The charge for filter and order and the cost check complete the plan of the run. */
  method CloseCost(schema: Schema, ghost asked: Request, ghost edges: seq<string>, ghost authority: Authority,
                   plan: Plan, collector: Collector)
    requires ValidSchema(schema) && collector.Valid() && plan.CostTracks(schema.bounds.maxCost) && plan.Valid()
    requires collector !in plan.Footprint()
    requires PartsDone(schema, asked, authority.options, plan.View(), edges, plan.charged)
    requires CursorResult(TrailOf(collector, authority), plan.page, StateOf(plan.cursor))
      == PagingRun(schema, asked, authority.options)
    modifies plan`cost, plan`costExceeded, plan`charged, collector
    ensures collector.Valid() && plan.Valid() && plan.Footprint() == old(plan.Footprint())
    ensures TrailOf(collector, authority) == CompileRun(schema, asked, authority.options).trail
    ensures collector.all == [] ==> plan.View() == CompileRun(schema, asked, authority.options).plan
  {
    hide PagingRun, OrderingRun, ValidSchema, FilterTotal, LeavesDeclared, CompileRun, Sum, Plan.Footprint, Plan.Valid,
         SelectionRun, InclusionRun, FilteringRun, ExecutionFields, Truncated;
    OrderingDeclared(schema, asked, authority.options);
    assert plan.View().page == plan.page && plan.View().cursor == StateOf(plan.cursor);
    hide Plan.View;
    RunAssembled(schema, asked, authority.options, plan.View(), edges, plan.charged);
    hide PartsDone;
    ChargeRows(schema, plan);
    CheckCost(schema, plan, authority, collector);
  }

  /** The decoder, the charge for filter and order, and the cost check. */
  method CompilePaging(schema: Schema, ghost asked: Request, ghost edges: seq<string>, authority: Authority, plan: Plan,
                       collector: Collector)
    requires ValidSchema(schema) && collector.Valid() && plan.CostTracks(schema.bounds.maxCost)
    requires plan.cursor == null && plan.page == NormalizedPage(schema, asked.page)
    requires PartsDone(schema, asked, authority.options, plan.View(), edges, plan.charged)
    requires plan.Valid() && plan.Footprint() !! authority.Held
    requires collector !in plan.Footprint() && authority !in plan.Footprint()
    requires TrailOf(collector, authority) == OrderingRun(schema, asked, authority.options).trail
    modifies plan`page, plan`cursor, plan`cost, plan`costExceeded, plan`charged, collector, authority
    ensures collector.Valid() && Drafted(plan, authority)
    ensures TrailOf(collector, authority) == CompileRun(schema, asked, authority.options).trail
    ensures collector.all == [] ==> plan.View() == CompileRun(schema, asked, authority.options).plan
  {
    hide CompileRun, PagingRun, OrderingRun, NormalizedPage, ValidSchema, Plan.Footprint, Plan.Valid, SelectionRun,
         InclusionRun, FilteringRun, ExecutionFields, Truncated, Sum, LeavesDeclared;
    assert plan.View().sorts == plan.sorts[..];
    hide Plan.View;
    CompileToken(schema, asked, authority, plan, collector);
    CloseCost(schema, asked, edges, authority, plan, collector);
  }

  method CompileToken(schema: Schema, ghost asked: Request, authority: Authority, plan: Plan, collector: Collector)
    requires ValidSchema(schema) && collector.Valid()
    requires plan.cursor == null && plan.Valid() && plan.Footprint() !! authority.Held
    requires collector !in plan.Footprint() && authority !in plan.Footprint()
    requires plan.page == NormalizedPage(schema, asked.page)
    requires SortState(TrailOf(collector, authority), plan.sorts[..]) == OrderingRun(schema, asked, authority.options)
    modifies plan`page, plan`cursor, collector, authority
    ensures collector.Valid() && Drafted(plan, authority) && collector !in plan.Footprint()
    ensures plan.View() == old(plan.View()).(page := plan.page, cursor := StateOf(plan.cursor))
    ensures CursorResult(TrailOf(collector, authority), plan.page, StateOf(plan.cursor))
      == PagingRun(schema, asked, authority.options)
  {
    hide OrderingRun, CursorRun, NormalizedPage, ValidSchema;
    OrderingDeclared(schema, asked, authority.options);
    CompileCursor(schema, plan, authority, collector);
    CursorIsDrafted(Draft(plan, authority));
  }

  method CompileInto(schema: Schema, request: RequestCells, ghost asked: Request, constraints: array<Constraint>,
                     authority: Authority, plan: Plan, collector: Collector)
    requires ValidSchema(schema) && collector.Valid() && plan.CostTracks(schema.bounds.maxCost) && plan.charged == 1
    requires plan.responseFields[..] == [] && plan.executionFields[..] == [] && plan.includes[..] == []
    requires plan.cursor == null && plan.filter == null && plan.Footprint() !! authority.Held
    requires collector !in plan.Footprint() && authority !in plan.Footprint()
    requires plan.page == request.page && plan.resource == schema.resource && plan.revision == schema.revision
    requires TrailOf(collector, authority) == Trail([], [])
    requires asked == RequestOf(request) && constraints[..] == authority.options.constraints
    requires request.filter != null ==>
      request.filter.Valid() && authority !in request.filter.Repr && collector !in request.filter.Repr
        && plan !in request.filter.Repr
    modifies plan, collector, authority
    ensures collector.Valid() && Drafted(plan, authority)
    ensures TrailOf(collector, authority) == CompileRun(schema, asked, authority.options).trail
    ensures collector.all == [] ==> plan.View() == CompileRun(schema, asked, authority.options).plan
  {
    hide ValidSchema, RequestOf, Plan.Footprint, Plan.View, CompileRun, PartsDone, OrderingRun, NormalizedPage;
    ghost var edges := CompileParts(schema, request, asked, constraints, authority, plan, collector);
    CompilePaging(schema, asked, edges, authority, plan, collector);
  }

  method CheckCost(schema: Schema, plan: Plan, ghost authority: Authority, collector: Collector)
    requires collector.Valid() && plan.CostTracks(schema.bounds.maxCost) && plan.Valid()
      && collector !in plan.Footprint()
    modifies collector
    ensures collector.Valid()
    ensures TrailOf(collector, authority)
         == old(TrailOf(collector, authority)).ReportIf(plan.charged > schema.bounds.maxCost as int, CodeCostLimit,
                                                        "query")
    ensures collector.all == [] ==> plan.cost as int == plan.charged
    ensures plan.Valid() && plan.Footprint() == old(plan.Footprint()) && plan.View() == old(plan.View())
  {
    if plan.costExceeded || plan.cost > schema.bounds.maxCost {
      collector.Add(CodeCostLimit, "query");
    }
  }

  /** A plan is returned exactly when the run reports nothing, and it is the plan of that run. A failure
      reports what the limit retains of the one list the run determines; the calls made do not depend
      on that limit either. Everything the plan is made of is new, and none of it is held by the
      decoder: the request, the constraints and the application's own objects are not part of it. */
  method CompileRequest(schema: Option<Schema>, request: RequestCells, constraints: array<Constraint>,
                        authority: Authority)
    returns (plan: Plan?, err: Option<seq<Violation>>)
    requires schema.Some? ==> ValidSchema(schema.value)
    requires authority.calls == [] && constraints[..] == authority.options.constraints
    requires request.filter != null ==> request.filter.Valid() && authority !in request.filter.Repr
    modifies authority
    ensures plan != null <==> err.None?
    ensures schema.None? ==> err == Some([Violation(CodeInvalidElement, "schema")]) && authority.calls == []
    ensures schema.Some? ==> var run := CompileRun(schema.value, old(RequestOf(request)), authority.options);
      && (plan != null <==> run.trail.violations == [])
      && authority.calls == run.trail.calls
      && (plan != null ==> plan.View() == run.plan)
      && (err.Some? ==> err.value == Capped(schema.value.bounds.maxErrors, run.trail.violations))
    ensures plan != null ==> plan.Valid() && fresh(plan.Footprint()) && plan.Footprint() !! authority.Held
    ensures Gained(authority, {})
  {
    hide CompileRun, ValidSchema;
    if schema.None? {
      return null, Some([Violation(CodeInvalidElement, "schema")]);
    }
    plan, err := CompileAgainst(schema.value, request, constraints, authority);
  }

  method CompileAgainst(schema: Schema, request: RequestCells, constraints: array<Constraint>, authority: Authority)
    returns (plan: Plan?, err: Option<seq<Violation>>)
    requires ValidSchema(schema) && authority.calls == [] && constraints[..] == authority.options.constraints
    requires request.filter != null ==> request.filter.Valid() && authority !in request.filter.Repr
    modifies authority
    ensures var run := CompileRun(schema, old(RequestOf(request)), authority.options);
      && (plan != null <==> run.trail.violations == [])
      && (plan != null <==> err.None?)
      && authority.calls == run.trail.calls
      && (plan != null ==> plan.View() == run.plan)
      && (err.Some? ==> err.value == Capped(schema.bounds.maxErrors, run.trail.violations))
    ensures plan != null ==> plan.Valid() && fresh(plan.Footprint()) && plan.Footprint() !! authority.Held
    ensures Gained(authority, {})
  {
    assert schema.bounds.maxCost > 0 by { PositiveBound(schema, 14); }
    hide CompileRun, ValidSchema, Plan.Footprint, Plan.View, Plan.Valid, RequestOf, Extends;
    ghost var asked := RequestOf(request);
    var collector := new Collector(schema.bounds.maxErrors);
    SameRequest(request);
    plan, err := CompileWith(schema, request, asked, constraints, authority, collector);
  }

  twostate lemma SameRequest(cells: RequestCells)
    requires unchanged(Slices(cells)) && (cells.filter != null ==> unchanged(cells.filter))
    ensures RequestOf(cells) == old(RequestOf(cells))
  {
  }

  method CompileWith(schema: Schema, request: RequestCells, ghost asked: Request, constraints: array<Constraint>,
                     authority: Authority, collector: Collector)
    returns (plan: Plan?, err: Option<seq<Violation>>)
    requires ValidSchema(schema) && collector.Valid() && TrailOf(collector, authority) == Trail([], [])
    requires collector.limit == schema.bounds.maxErrors
    requires schema.bounds.maxCost > 0 && asked == RequestOf(request)
      && constraints[..] == authority.options.constraints
    requires request.filter != null ==>
      request.filter.Valid() && authority !in request.filter.Repr && collector !in request.filter.Repr
    modifies authority, collector
    ensures var run := CompileRun(schema, asked, authority.options);
      && (plan != null <==> run.trail.violations == [])
      && (plan != null <==> err.None?)
      && authority.calls == run.trail.calls
      && (plan != null ==> plan.View() == run.plan)
      && (err.Some? ==> err.value == Capped(schema.bounds.maxErrors, run.trail.violations))
    ensures plan != null ==> plan.Valid() && fresh(plan.Footprint()) && plan.Footprint() !! authority.Held
    ensures Gained(authority, {})
  {
    hide CompileRun, ValidSchema, Plan.Footprint, Plan.View, Plan.Valid, RequestOf;
    var draft := DraftPlan(schema, request, asked, constraints, authority, collector);
    err := collector.Err();
    plan := if err.Some? then null else draft;
  }

  /** The plan under construction, whether or not anything was reported. */
  method DraftPlan(schema: Schema, request: RequestCells, ghost asked: Request, constraints: array<Constraint>,
                   authority: Authority, collector: Collector)
    returns (plan: Plan)
    requires ValidSchema(schema) && collector.Valid() && TrailOf(collector, authority) == Trail([], [])
    requires schema.bounds.maxCost > 0 && asked == RequestOf(request)
      && constraints[..] == authority.options.constraints
    requires request.filter != null ==>
      request.filter.Valid() && authority !in request.filter.Repr && collector !in request.filter.Repr
    modifies authority, collector
    ensures collector.Valid()
    ensures var run := CompileRun(schema, asked, authority.options);
      TrailOf(collector, authority) == run.trail && (collector.all == [] ==> plan.View() == run.plan)
    ensures plan.Valid() && fresh(plan.Footprint()) && plan.Footprint() !! authority.Held
    ensures Gained(authority, {})
  {
    hide CompileRun, ValidSchema, Plan.Footprint, Plan.View;
    plan := new Plan(schema.resource, schema.revision, request.page);
    assert RequestOf(request) == asked;
    hide RequestOf;
    CompileInto(schema, request, asked, constraints, authority, plan, collector);
  }
}
