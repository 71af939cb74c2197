/** Which requests compile, to what plan and at what cost, stated without the phases. */
module Admission {
  import opened Text
  import opened Types
  import opened Relationships
  import opened Schemas
  import opened Compilation
  import opened FieldPhase
  import opened IncludePhase
  import opened FilterSpec
  import opened FilterProofs
  import opened SortPhase
  import opened Compile

  function RequestedIncludes(request: Request): seq<string> {
    if request.includes.Some? then request.includes.value else []
  }

  /** The sort terms a cursor page adds: the tie-breaker, ascending, unless it is already there. */
  function TieTerm(schema: Schema, sorts: seq<SortTerm>): seq<SortTerm> {
    match FirstTieBreaker(schema.sorts, 0)
    case None => []
    case Some(i) =>
      if schema.sorts[i].name in TermNames(sorts) then []
      else [SortTerm(schema.sorts[i].name, Ascending, schema.sorts[i].nulls)]
  }

  function FinalSorts(schema: Schema, request: Request): seq<SortTerm> {
    var sorts := CompletedAll(schema, EffectiveSorts(schema, request.sorts));
    if NormalizedPage(schema, request.page).mode == PageCursor then sorts + TieTerm(schema, sorts) else sorts
  }

  /** Every component of the request is admissible by itself; cost is judged separately. */
  ghost predicate RequestOk(schema: Schema, request: Request, options: CompileOptions) {
    var page := NormalizedPage(schema, request.page);
    && (request.schemaRevision.Some? ==> request.schemaRevision.value == schema.revision)
    && ConstraintsOk(schema, options.constraints)
    && FieldsOk(schema, options, EffectiveFields(schema, request.fields))
    && IncludesOk(schema, options, RequestedIncludes(request))
    && (request.filter.Some? ==> TreeOk(schema, options, request.filter.value))
    && SortsOk(schema, options, EffectiveSorts(schema, request.sorts))
    && PageOk(schema, page)
    && (page.mode == PageCursor ==> TieOk(schema, options, CompletedAll(schema, EffectiveSorts(schema, request.sorts))))
    && CursorOk(schema, options, page, FinalSorts(schema, request))
  }

  /** The page of the plan: normalised, and without the token a decoder accepted. */
  function FinalPage(schema: Schema, request: Request): PageRequest {
    var page := NormalizedPage(schema, request.page);
    if HasOneToken(page) then page.(after := "", before := "") else page
  }

  function FinalCursor(schema: Schema, request: Request, options: CompileOptions): Option<CursorState> {
    var page := NormalizedPage(schema, request.page);
    if HasOneToken(page) && options.decoder.Some?
    then options.decoder.value(TokenOf(page), schema.revision, FinalSorts(schema, request)) else None
  }

  /** The plan of an admissible request, given the edges its paths share. */
  function PlanFor(schema: Schema, request: Request, options: CompileOptions, edges: seq<string>): PlanData {
    var response := EffectiveFields(schema, request.fields);
    var execution := ExecutionFields(schema, response);
    var sorts := FinalSorts(schema, request);
    PlanData(schema.resource, schema.revision, response, execution, RequestedIncludes(request), request.filter,
             options.constraints, sorts, FinalPage(schema, request), FinalCursor(schema, request, options),
             TotalCost(schema, execution, edges, request.filter, sorts))
  }

  // ---------------------------------------------------------------- phase by phase

  lemma SelectionAccepted(schema: Schema, request: Request, options: CompileOptions)
    requires ValidSchema(schema)
    ensures var st := SelectionRun(schema, request, options);
      && (st.trail.violations == [] <==>
            && (request.schemaRevision.Some? ==> request.schemaRevision.value == schema.revision)
            && ConstraintsOk(schema, options.constraints)
            && FieldsOk(schema, options, EffectiveFields(schema, request.fields)))
      && (st.trail.violations == [] ==> st.response == EffectiveFields(schema, request.fields))
  {
    PositiveBound(schema, 1);
    PositiveBound(schema, 6);
    hide ValidSchema, FieldsRun, ConstraintsRun, FieldsOk, ConstraintsOk;
    ConstraintsAccepted(schema, options.constraints, RevisionTrail(schema, request));
    FieldsAccepted(schema, options, request.fields,
                   ConstraintsRun(schema, options.constraints, RevisionTrail(schema, request)));
  }

  lemma InclusionAccepted(schema: Schema, request: Request, options: CompileOptions)
    requires ValidSchema(schema)
    ensures var st := InclusionRun(schema, request, options);
      && EdgesTidy(options, st.edges)
      && (st.trail.violations == [] <==>
            SelectionRun(schema, request, options).trail.violations == []
              && IncludesOk(schema, options, RequestedIncludes(request)))
      && (st.trail.violations == [] ==>
            st.includes == RequestedIncludes(request) && EdgesCover(st.edges, RequestedIncludes(request)))
  {
    PositiveBound(schema, 2);
    hide ValidSchema, SelectionRun, IncludesRun, IncludesOk, EdgesTidy, EdgesCover;
    IncludesAccepted(schema, options, request.includes, SelectionRun(schema, request, options).trail);
  }

  lemma FilteringAccepted(schema: Schema, request: Request, options: CompileOptions)
    requires ValidSchema(schema)
    ensures var (t, filter) := FilteringRun(schema, request, options);
      && (t.violations == [] <==>
            && InclusionRun(schema, request, options).trail.violations == []
            && (request.filter.Some? ==> TreeOk(schema, options, request.filter.value)))
      && (t.violations == [] ==> filter == request.filter)
  {
    hide ValidSchema, InclusionRun, FilterRun, TreeOk;
    FilterAccepted(schema, options, request.filter, InclusionRun(schema, request, options).trail);
  }

  lemma {:induction false} OrderingAccepted(schema: Schema, request: Request, options: CompileOptions)
    requires ValidSchema(schema)
    ensures var st := OrderingRun(schema, request, options); var page := NormalizedPage(schema, request.page);
      var sorts := EffectiveSorts(schema, request.sorts);
      && (st.trail.violations == [] <==>
            && FilteringRun(schema, request, options).0.violations == []
            && SortsOk(schema, options, sorts) && PageOk(schema, page)
            && (page.mode == PageCursor ==> TieOk(schema, options, CompletedAll(schema, sorts))))
      && (st.trail.violations == [] ==> st.sorts == FinalSorts(schema, request))
  {
    PositiveBound(schema, 9);
    hide ValidSchema, FilteringRun, SortsRun, SortsOk, PageOk, NormalizedPage, PageModeTrail, PageBoundsTrail, TieOk,
      Permits;
    var t := FilteringRun(schema, request, options).0;
    var page := NormalizedPage(schema, request.page);
    var sorted := SortsRun(schema, options, request.sorts, t);
    SortsAccepted(schema, options, request.sorts, t);
    var checked := PageModeTrail(page, PageBoundsTrail(schema, page, sorted.trail));
    PageChecksClean(schema, page, sorted.trail);
    TieAccepted(schema, options, sorted.sorts, checked);
  }

  lemma {:induction false} PagingAccepted(schema: Schema, request: Request, options: CompileOptions)
    requires ValidSchema(schema)
    ensures var r := PagingRun(schema, request, options);
      && (r.trail.violations == [] <==> RequestOk(schema, request, options))
      && (r.trail.violations == [] ==>
            && r.page == FinalPage(schema, request) && r.cursor == FinalCursor(schema, request, options)
            && OrderingRun(schema, request, options).sorts == FinalSorts(schema, request)
            && FilteringRun(schema, request, options).1 == request.filter
            && InclusionRun(schema, request, options).includes == RequestedIncludes(request)
            && EdgesCover(InclusionRun(schema, request, options).edges, RequestedIncludes(request))
            && SelectionRun(schema, request, options).response == EffectiveFields(schema, request.fields))
  {
    SelectionAccepted(schema, request, options);
    InclusionAccepted(schema, request, options);
    FilteringAccepted(schema, request, options);
    OrderingAccepted(schema, request, options);
    var order := OrderingRun(schema, request, options);
    CursorAccepted(schema, options, NormalizedPage(schema, request.page), order.sorts, order.trail);
    hide ValidSchema, SelectionRun, InclusionRun, FilteringRun, OrderingRun, SortsOk, PageOk, NormalizedPage, TieOk,
         FieldsOk, ConstraintsOk, IncludesOk, TreeOk, EdgesTidy, EdgesCover, EffectiveFields,
         EffectiveSorts, StateOk, FinalSorts, CompletedAll;
  }

  /** A request compiles exactly when it is admissible and its cost is within the limit; the plan is
      then the one the request names, with every included edge approved, parents first, and counted once. */
  lemma Accepted(schema: Schema, request: Request, options: CompileOptions)
    requires ValidSchema(schema)
    ensures var run := CompileRun(schema, request, options);
      && EdgesTidy(options, run.edges)
      && (RequestOk(schema, request, options) ==>
            && EdgesCover(run.edges, RequestedIncludes(request))
            && run.plan == PlanFor(schema, request, options, run.edges))
      && (run.trail.violations == [] <==>
            RequestOk(schema, request, options) && run.plan.cost <= schema.bounds.maxCost as int)
  {
    PagingAccepted(schema, request, options);
    InclusionAccepted(schema, request, options);
    hide PagingRun, SelectionRun, InclusionRun, FilteringRun, OrderingRun, ValidSchema, EdgesTidy, EdgesCover,
         TotalCost, ExecutionFields, EffectiveFields, FinalSorts, FinalPage, FinalCursor, IncludesOk;
    if RequestOk(schema, request, options) {
      AdmissibleWithinLimits(schema, options);
    }
  }

  lemma AdmissibleWithinLimits(schema: Schema, options: CompileOptions)
    requires ConstraintsOk(schema, options.constraints)
    ensures Truncated(options.constraints, schema.bounds.maxValues) == options.constraints
  {
  }

  // ---------------------------------------------------------------- cost

  lemma {:induction false} SumRemove(weight: string -> int, a: seq<string>, i: nat)
    requires i < |a|
    ensures Sum(weight, a) == weight(a[i]) + Sum(weight, a[..i] + a[i + 1..])
  {
    assert a == a[..i] + [a[i]] + a[i + 1..];
    SumConcat(weight, a[..i] + [a[i]], a[i + 1..]);
    SumSnoc(weight, a[..i], a[i]);
    SumConcat(weight, a[..i], a[i + 1..]);
  }

  lemma SameNamesEmpty(a: seq<string>, b: seq<string>)
    requires forall x :: x in a <==> x in b
    ensures a == [] <==> b == []
  {
    if a != [] { assert a[0] in a; }
    if b != [] { assert b[0] in b; }
  }

  /** Two duplicate-free listings of the same names weigh the same. */
  lemma {:induction false} SumOfSameNames(weight: string -> int, a: seq<string>, b: seq<string>)
    requires Distinct(a) && Distinct(b) && forall x :: x in a <==> x in b
    ensures Sum(weight, a) == Sum(weight, b)
    decreases |a|
  {
    SameNamesEmpty(a, b);
    if a != [] {
      var last := |a| - 1;
      assert a[last] in a && a[last] in b;
      var i :| 0 <= i < |b| && b[i] == a[last];
      var rest := b[..i] + b[i + 1..];
      assert a == a[..last] + [a[last]] && b == b[..i] + [b[i]] + b[i + 1..];
      DistinctNext(a, last);
      assert a[..last + 1] == a;
      RemovedDistinct(b, i);
      forall x ensures x in a[..last] <==> x in rest {
        assert x in a <==> x in a[..last] || x == a[last];
      }
      SumOfSameNames(weight, a[..last], rest);
      SumRemove(weight, b, i);
      SumSnoc(weight, a[..last], a[last]);
    }
  }

  lemma RemovedDistinct<T>(b: seq<T>, i: nat)
    requires Distinct(b) && i < |b|
    ensures Distinct(b[..i] + b[i + 1..])
    ensures forall x :: x in b[..i] + b[i + 1..] <==> x in b && x != b[i]
  {
    var rest := b[..i] + b[i + 1..];
    forall k | 0 <= k < |rest| ensures rest[k] == b[if k < i then k else k + 1] {}
    forall x ensures x in rest <==> x in b && x != b[i] {
      if x in rest {
        var k :| 0 <= k < |rest| && rest[k] == x;
        assert b[if k < i then k else k + 1] == x;
      }
      if x in b && x != b[i] {
        var k :| 0 <= k < |b| && b[k] == x;
        assert rest[if k < i then k else k - 1] == x;
      }
    }
  }

  /** An admissible request is rejected exactly when one plus its execution fields, the distinct edges
      of its includes, its predicates and its final sorts cost more than the limit in unbounded
      arithmetic; the order in which the edges are listed does not matter. */
  lemma CostDecides(schema: Schema, request: Request, options: CompileOptions, edges: seq<string>)
    requires ValidSchema(schema) && RequestOk(schema, request, options)
    requires Distinct(edges) && EdgesCover(edges, RequestedIncludes(request))
    ensures var run := CompileRun(schema, request, options);
      var response := EffectiveFields(schema, request.fields);
      var cost := TotalCost(schema, ExecutionFields(schema, response), edges, request.filter,
                            FinalSorts(schema, request));
      && run.plan.cost == cost
      && (run.trail.violations == [] <==> cost <= schema.bounds.maxCost as int)
  {
    Accepted(schema, request, options);
    var run := CompileRun(schema, request, options);
    SameCover(run.edges, edges, RequestedIncludes(request));
    assert Distinct(run.edges);
    hide ValidSchema, RequestOk, CompileRun, EdgesCover, EdgesTidy, Distinct;
    SumOfSameNames(EdgeWeight(schema), run.edges, edges);
  }

  lemma SameCover(a: seq<string>, b: seq<string>, paths: seq<string>)
    requires EdgesCover(a, paths) && EdgesCover(b, paths)
    ensures forall e :: e in a <==> e in b
  {
    hide Prefixes;
    forall e ensures e in a <==> e in b {
      if e in a {
        var i :| 0 <= i < |paths| && e in Prefixes(paths[i]);
        assert paths[i] in paths;
      }
      if e in b {
        var i :| 0 <= i < |paths| && e in Prefixes(paths[i]);
        assert paths[i] in paths;
      }
    }
  }

  /** Each execution field is charged once: the required fields are distinct and apart from the response. */
  lemma {:induction false} RequiredApart(schema: Schema, response: seq<string>, k: nat)
    requires k <= |schema.fields|
    ensures Distinct(RequiredFields(schema, response, k))
    ensures forall n <- RequiredFields(schema, response, k) :: n !in response
    ensures forall i :: 0 <= i < k && schema.fields[i].required ==>
              schema.fields[i].name in RequiredFields(schema, response, k) + response
    ensures forall n <- RequiredFields(schema, response, k) ::
              exists i :: 0 <= i < k && schema.fields[i].required && schema.fields[i].name == n
  {
    if k > 0 {
      RequiredApart(schema, response, k - 1);
      var before := RequiredFields(schema, response, k - 1);
      if schema.fields[k - 1].name !in before {
        AppendDistinct(before, schema.fields[k - 1].name);
      }
      hide Distinct;
    }
  }

  /** The execution fields are the response and the required fields, none twice. */
  lemma ExecutionFieldsOnce(schema: Schema, response: seq<string>)
    requires Distinct(response)
    ensures var execution := ExecutionFields(schema, response);
      && Distinct(execution)
      && |response| <= |execution| && execution[|execution| - |response|..] == response
      && forall n :: n in execution <==>
           n in response || exists i :: 0 <= i < |schema.fields| && schema.fields[i].required
                                        && schema.fields[i].name == n
  {
    RequiredApart(schema, response, |schema.fields|);
    assert ExecutionFields(schema, response)[|RequiredFields(schema, response, |schema.fields|)|..] == response;
    DistinctConcat(RequiredFields(schema, response, |schema.fields|), response);
  }
}
