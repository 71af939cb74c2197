/** MaxErrors shortens what a failure reports and changes nothing else. */
module ErrorLimit {
  import opened Text
  import opened Types
  import opened Violations
  import opened Schemas
  import opened Compilation
  import opened FieldPhase
  import opened IncludePhase
  import opened FilterSpec
  import opened FilterPhase
  import opened SortPhase
  import opened Compile

  function WithMaxErrors(schema: Schema, limit: int): Schema {
    schema.(bounds := schema.bounds.(maxErrors := limit))
  }

  lemma {:induction false} SameConstraints(schema: Schema, limit: int, cs: seq<Constraint>, k: nat, t: Trail)
    requires k <= |cs|
    ensures ConstraintTrail(WithMaxErrors(schema, limit), cs, k, t) == ConstraintTrail(schema, cs, k, t)
  {
    if k > 0 { SameConstraints(schema, limit, cs, k - 1, t); }
  }

  lemma {:induction false} SameDefaults(schema: Schema, limit: int, k: nat)
    requires k <= |schema.fields|
    ensures DefaultFields(WithMaxErrors(schema, limit), k) == DefaultFields(schema, k)
  {
    if k > 0 { SameDefaults(schema, limit, k - 1); }
  }

  lemma {:induction false} SameFields(schema: Schema, limit: int, options: CompileOptions, fields: seq<string>, k: nat,
                                      t: Trail)
    requires k <= |fields|
    ensures FieldRun(WithMaxErrors(schema, limit), options, fields, k, t) == FieldRun(schema, options, fields, k, t)
  {
    hide Permits;
    if k > 0 { SameFields(schema, limit, options, fields, k - 1, t); }
  }

  lemma {:induction false} SameRequired(schema: Schema, limit: int, response: seq<string>, k: nat)
    requires k <= |schema.fields|
    ensures RequiredFields(WithMaxErrors(schema, limit), response, k) == RequiredFields(schema, response, k)
  {
    if k > 0 { SameRequired(schema, limit, response, k - 1); }
  }

  lemma {:induction false} SameIncludes(schema: Schema, limit: int, options: CompileOptions, includes: seq<string>,
                                        k: nat, t: Trail)
    requires k <= |includes|
    ensures IncludeRun(WithMaxErrors(schema, limit), options, includes, k, t)
      == IncludeRun(schema, options, includes, k, t)
  {
    hide Permits, EdgeRun;
    if k > 0 { SameIncludes(schema, limit, options, includes, k - 1, t); }
  }

  lemma {:induction false} SameValues(schema: Schema, limit: int, d: FilterDefinition, values: seq<Value>, k: nat,
                                      path: string, t: Trail)
    requires k <= |values|
    ensures ValueRun(WithMaxErrors(schema, limit), d, values, k, path, t) == ValueRun(schema, d, values, k, path, t)
  {
    if k > 0 { SameValues(schema, limit, d, values, k - 1, path, t); }
  }

  lemma SameLeaf(schema: Schema, limit: int, options: CompileOptions, node: FilterExpr, path: string, st: WalkState)
    requires node.leaf.Some?
    ensures WalkLeaf(WithMaxErrors(schema, limit), options, node, path, st) == WalkLeaf(schema, options, node, path, st)
  {
    hide Permits, FilterKey, ValueRun;
    var p := node.leaf.value;
    if p.name in schema.filterIndex && schema.filterIndex[p.name] < |schema.filters| {
      var definition := schema.filters[schema.filterIndex[p.name]];
      var asked := st.trail.Ask(options, CapabilityFilter, p.name)
                     .ReportIf(p.operator !in definition.operators, CodeUnsupported, path);
      SameValues(schema, limit, definition, p.values, |p.values|, path, ArityRun(schema, p, path, asked));
    }
  }

  lemma {:induction false} SameNode(schema: Schema, limit: int, options: CompileOptions, node: FilterExpr, path: string,
                                    depth: int, st: WalkState)
    ensures WalkNode(WithMaxErrors(schema, limit), options, node, path, depth, st)
      == WalkNode(schema, options, node, path, depth, st)
    decreases node, |node.children| + 1
  {
    hide WalkLeaf;
    var visited := st.(nodes := st.nodes + 1);
    if node.leaf.Some? {
      SameLeaf(schema, limit, options, node, path, visited);
    } else {
      var t := visited.trail
               .ReportIf(node.logic !in schema.allowedLogic, CodeUnsupported, path)
               .ReportIf(node.logic == LogicNot && |node.children| != 1, CodeConflict, path);
      SameChildren(schema, limit, options, node, 0, path, depth, visited.(trail := t), []);
    }
  }

  lemma {:induction false} SameChildren(schema: Schema, limit: int, options: CompileOptions, node: FilterExpr, i: nat,
                                        path: string, depth: int, st: WalkState, compiled: seq<FilterExpr>)
    requires i <= |node.children|
    ensures WalkChildren(WithMaxErrors(schema, limit), options, node, i, path, depth, st, compiled)
         == WalkChildren(schema, options, node, i, path, depth, st, compiled)
    decreases node, |node.children| - i
  {
    hide WalkNode;
    if i < |node.children| && st.nodes < schema.bounds.maxFilterNodes {
      var childPath := Indexed(path + ".children", i);
      SameNode(schema, limit, options, node.children[i], childPath, depth + 1, st);
      var child := WalkNode(schema, options, node.children[i], childPath, depth + 1, st);
      SameChildren(schema, limit, options, node, i + 1, path, depth, child.st,
                   if child.filter.Some? then compiled + [child.filter.value] else compiled);
    }
  }

  lemma {:induction false} SameSorts(schema: Schema, limit: int, options: CompileOptions, sorts: seq<SortTerm>, k: nat,
                                     t: Trail)
    requires k <= |sorts|
    ensures SortRun(WithMaxErrors(schema, limit), options, sorts, k, t) == SortRun(schema, options, sorts, k, t)
  {
    hide Permits;
    if k > 0 { SameSorts(schema, limit, options, sorts, k - 1, t); }
  }

  lemma {:induction false} SameTotal(a: string -> int, b: string -> int, names: seq<string>, k: nat)
    requires k <= |names| && forall n :: a(n) == b(n)
    ensures Total(a, names, k) == Total(b, names, k)
  {
    if k > 0 { SameTotal(a, b, names, k - 1); }
  }

  lemma SameSelection(schema: Schema, limit: int, request: Request, options: CompileOptions)
    ensures SelectionRun(WithMaxErrors(schema, limit), request, options) == SelectionRun(schema, request, options)
  {
    hide ConstraintTrail, FieldRun, DefaultFields;
    var kept := Truncated(options.constraints, schema.bounds.maxValues);
    SameConstraints(schema, limit, kept, |kept|, RevisionTrail(schema, request)
      .ReportIf(|options.constraints| > schema.bounds.maxValues, CodeLimitExceeded, "constraints"));
    SameDefaults(schema, limit, |schema.fields|);
    var fields := EffectiveFields(schema, request.fields);
    var t := ConstraintsRun(schema, options.constraints, RevisionTrail(schema, request));
    var chosen := Truncated(fields, schema.bounds.maxFields);
    SameFields(schema, limit, options, chosen, |chosen|,
               t.ReportIf(|fields| > schema.bounds.maxFields, CodeLimitExceeded, "fields"));
  }

  lemma SameInclusion(schema: Schema, limit: int, request: Request, options: CompileOptions)
    ensures InclusionRun(WithMaxErrors(schema, limit), request, options) == InclusionRun(schema, request, options)
  {
    hide SelectionRun, IncludeRun;
    SameSelection(schema, limit, request, options);
    if request.includes.Some? {
      var includes := request.includes.value;
      var kept := Truncated(includes, schema.bounds.maxIncludes);
      SameIncludes(schema, limit, options, kept, |kept|, SelectionRun(schema, request, options).trail
        .ReportIf(|includes| > schema.bounds.maxIncludes, CodeLimitExceeded, "includes"));
    }
  }

  lemma SameFiltering(schema: Schema, limit: int, request: Request, options: CompileOptions)
    ensures FilteringRun(WithMaxErrors(schema, limit), request, options) == FilteringRun(schema, request, options)
  {
    hide InclusionRun, WalkNode;
    SameInclusion(schema, limit, request, options);
    if request.filter.Some? {
      SameNode(schema, limit, options, request.filter.value, "filter", 1,
               WalkState(InclusionRun(schema, request, options).trail, 0, 0, {}));
    }
  }

  lemma SamePaging(schema: Schema, limit: int, request: Request, options: CompileOptions)
    ensures OrderingRun(WithMaxErrors(schema, limit), request, options) == OrderingRun(schema, request, options)
    ensures PagingRun(WithMaxErrors(schema, limit), request, options) == PagingRun(schema, request, options)
  {
    hide FilteringRun, SortsRun, PageRun, CursorRun;
    SameFiltering(schema, limit, request, options);
    var t := FilteringRun(schema, request, options).0;
    SameSorting(schema, limit, options, request.sorts, t);
    var sorted := SortsRun(schema, options, request.sorts, t);
    SamePage(schema, limit, options, request.page, sorted.sorts, sorted.trail);
    var order := OrderingRun(schema, request, options);
    SameCursor(schema, limit, options, NormalizedPage(schema, request.page), order.sorts, order.trail);
  }

  lemma SameSorting(schema: Schema, limit: int, options: CompileOptions, requested: Option<seq<SortTerm>>, t: Trail)
    ensures SortsRun(WithMaxErrors(schema, limit), options, requested, t) == SortsRun(schema, options, requested, t)
  {
    hide SortRun;
    var sorts := EffectiveSorts(schema, requested);
    var kept := Truncated(sorts, schema.bounds.maxSorts);
    SameSorts(schema, limit, options, kept, |kept|,
              t.ReportIf(|sorts| > schema.bounds.maxSorts, CodeLimitExceeded, "sorts"));
  }

  lemma SamePage(schema: Schema, limit: int, options: CompileOptions, page: PageRequest, sorts: seq<SortTerm>, t: Trail)
    ensures NormalizedPage(WithMaxErrors(schema, limit), page) == NormalizedPage(schema, page)
    ensures PageRun(WithMaxErrors(schema, limit), options, page, sorts, t) == PageRun(schema, options, page, sorts, t)
  {
    hide Permits, PageModeTrail;
  }

  lemma SameCursor(schema: Schema, limit: int, options: CompileOptions, page: PageRequest, sorts: seq<SortTerm>,
                   t: Trail)
    ensures CursorRun(WithMaxErrors(schema, limit), options, page, sorts, t)
      == CursorRun(schema, options, page, sorts, t)
  {
  }

  lemma SameCost(schema: Schema, limit: int, execution: seq<string>, edges: seq<string>, filter: Option<FilterExpr>,
                 sorts: seq<SortTerm>)
    ensures TotalCost(WithMaxErrors(schema, limit), execution, edges, filter, sorts)
      == TotalCost(schema, execution, edges, filter, sorts)
  {
    var other := WithMaxErrors(schema, limit);
    SameTotal(FieldWeight(other), FieldWeight(schema), execution, |execution|);
    SameTotal(EdgeWeight(other), EdgeWeight(schema), edges, |edges|);
    SameTotal(SortWeight(other), SortWeight(schema), TermNames(sorts), |sorts|);
    if filter.Some? {
      var names := LeafNames(Leaves(filter.value));
      SameTotal(LeafWeight(other), LeafWeight(schema), names, |names|);
    }
  }

  /** Whatever MaxErrors is, the run is the same: the same full list of violations, the same calls into
      the application and the same plan. */
  lemma LimitNeverDecides(schema: Schema, limit: int, request: Request, options: CompileOptions)
    ensures CompileRun(WithMaxErrors(schema, limit), request, options) == CompileRun(schema, request, options)
  {
    SameSelection(schema, limit, request, options);
    SameInclusion(schema, limit, request, options);
    SameFiltering(schema, limit, request, options);
    SamePaging(schema, limit, request, options);
    var response := SelectionRun(schema, request, options).response;
    SameRequired(schema, limit, response, |schema.fields|);
    var run := CompileRun(schema, request, options).plan;
    SameCost(schema, limit, run.executionFields, CompileRun(schema, request, options).edges, run.filter, run.sorts);
    hide SelectionRun, InclusionRun, FilteringRun, OrderingRun, PagingRun, TotalCost, RequiredFields;
  }

  /** Two limits give the same verdict, and the shorter report is a prefix of the longer one. */
  lemma LimitsAgree(schema: Schema, a: int, b: int, request: Request, options: CompileOptions)
    requires 0 < a <= b
    ensures var reportA := Capped(a, CompileRun(WithMaxErrors(schema, a), request, options).trail.violations);
            var reportB := Capped(b, CompileRun(WithMaxErrors(schema, b), request, options).trail.violations);
            (reportA == [] <==> reportB == []) && reportA <= reportB
  {
    LimitNeverDecides(schema, a, request, options);
    LimitNeverDecides(schema, b, request, options);
    hide CompileRun;
  }
}
