/** Compile accepts exactly the requests the declarations admit, with the plan they name at the cost they set. */
module DeclaredCompile {
  import opened Text
  import opened Types
  import opened Relationships
  import opened Schemas
  import opened Compilation
  import opened FieldPhase
  import opened IncludePhase
  import opened FilterSpec
  import opened FilterPhase
  import opened SortPhase
  import opened Compile
  import opened Admission
  import opened Declarations
  import opened DeclarationProofs
  import opened DeclaredFilters
  import opened DeclaredSchema

  // ---------------------------------------------------------------- cost

  /** A field weighs what its declaration costs. */
  lemma FieldPriced(c: SchemaConfig, s: Schema, d: FieldDefinition)
    requires Built(c, s) && d in c.fields
    ensures FieldCost(s, d.name) == d.cost as int
  {
    BuiltIsValid(c, s);
    FieldLookup(s, d.name);
    hide ValidConfig, ValidSchema, Indexes, IndexOf;
    var i :| 0 <= i < |s.fields| && s.fields[i] == d;
    assert s.fields[i].name == d.name;
  }

  /** An edge weighs what the relationship declared at the end of it costs. */
  lemma EdgePriced(c: SchemaConfig, s: Schema, names: seq<string>, d: RelationshipDefinition)
    requires Built(c, s) && Declares(c.relationships, names, d)
    ensures EdgeCost(s, Path(names)) == d.cost as int
  {
    PathIndexed(c, s, names, d);
  }

  /** A predicate weighs what its filter's declaration costs. */
  lemma LeafPriced(c: SchemaConfig, s: Schema, d: FilterDefinition)
    requires Built(c, s) && d in c.filters
    ensures LeafCost(s, d.name) == d.cost as int
  {
    BuiltIsValid(c, s);
    FilterLookup(s, d.name);
    hide ValidConfig, ValidSchema, Indexes, IndexOf;
    var i :| 0 <= i < |s.filters| && s.filters[i] == d;
    assert s.filters[i].name == d.name;
  }

  /** A sort term weighs what its sort's declaration costs. */
  lemma SortPriced(c: SchemaConfig, s: Schema, d: SortDefinition)
    requires Built(c, s) && d in c.sorts
    ensures SortCost(s, d.name) == d.cost as int
  {
    BuiltIsValid(c, s);
    DeclaredSort(s, d.name);
    hide ValidConfig, ValidSchema, Indexes, IndexOf;
    var i :| 0 <= i < |s.sorts| && s.sorts[i] == d;
    assert s.sorts[i].name == d.name;
  }

  function Weighed(weight: string -> int, names: seq<string>): (items: seq<int>)
    ensures |items| == |names|
  {
    seq(|names|, i requires 0 <= i < |names| => weight(names[i]))
  }

  lemma {:induction false} PlusSnoc(items: seq<int>, item: int)
    ensures Plus(items + [item]) == Plus(items) + item
  {
    if items != [] {
      PlusSnoc(items[1..], item);
      assert (items + [item])[1..] == items[1..] + [item];
    }
  }

  lemma {:induction false} PlusIsTotal(weight: string -> int, names: seq<string>, items: seq<int>, k: nat)
    requires k <= |names| == |items| && forall i :: 0 <= i < |names| ==> items[i] == weight(names[i])
    ensures Plus(items[..k]) == Total(weight, names, k)
  {
    if k > 0 {
      PlusIsTotal(weight, names, items, k - 1);
      PlusSnoc(items[..k - 1], items[k - 1]);
      assert items[..k] == items[..k - 1] + [items[k - 1]];
    }
  }

  lemma PlusIsSum(weight: string -> int, names: seq<string>, items: seq<int>)
    requires |names| == |items| && forall i :: 0 <= i < |names| ==> items[i] == weight(names[i])
    ensures Plus(items) == Sum(weight, names)
  {
    PlusIsTotal(weight, names, items, |names|);
    assert items[..|names|] == items;
  }

  lemma FieldsPriced(c: SchemaConfig, s: Schema, names: seq<string>, items: seq<int>)
    requires Built(c, s) && forall n <- names :: exists d <- c.fields :: d.name == n
    requires |items| == |names|
    ensures FieldBill(c, names, items) <==> items == Weighed(FieldWeight(s), names)
    ensures FieldBill(c, names, items) ==> Plus(items) == Sum(FieldWeight(s), names)
  {
    forall d | d in c.fields ensures FieldCost(s, d.name) == d.cost as int {
      FieldPriced(c, s, d);
    }
    hide Built, FieldCost, Plus, Sum;
    if FieldBill(c, names, items) {
      forall i | 0 <= i < |names| ensures items[i] == FieldCost(s, names[i]) {
        assert names[i] in names;
        var d :| d in c.fields && d.name == names[i];
      }
      PlusIsSum(FieldWeight(s), names, items);
    }
  }

  lemma EdgeDeclared(c: SchemaConfig, includes: seq<string>, edges: seq<string>, i: nat)
    returns (names: seq<string>, d: RelationshipDefinition)
    requires AreEdges(c, includes, edges) && i < |edges|
    ensures Declares(c.relationships, names, d) && Path(names) == edges[i]
  {
    hide Path;
    assert edges[i] in edges;
    var whole, end, j :| EdgeAt(c, includes, edges[i], whole, end, j);
    names := whole[..j];
    d := PartDeclared(c.relationships, whole, end, j);
  }

  lemma EdgesPriced(c: SchemaConfig, s: Schema, includes: seq<string>, edges: seq<string>, items: seq<int>)
    requires Built(c, s) && AreEdges(c, includes, edges) && |items| == |edges|
    ensures EdgeBill(c, edges, items) <==> items == Weighed(EdgeWeight(s), edges)
    ensures EdgeBill(c, edges, items) ==> Plus(items) == Sum(EdgeWeight(s), edges)
  {
    hide Built, EdgeCost, Plus, Sum, Declares, Path, AreEdges;
    forall names, d | Declares(c.relationships, names, d) ensures EdgeCost(s, Path(names)) == d.cost as int {
      EdgePriced(c, s, names, d);
    }
    if items == Weighed(EdgeWeight(s), edges) {
      forall i, names, d | 0 <= i < |edges| && Declares(c.relationships, names, d) && Path(names) == edges[i]
        ensures items[i] == d.cost as int
      {
        assert items[i] == EdgeCost(s, edges[i]);
      }
    }
    if EdgeBill(c, edges, items) {
      forall i | 0 <= i < |edges| ensures items[i] == EdgeCost(s, edges[i]) {
        var names, d := EdgeDeclared(c, includes, edges, i);
      }
      PlusIsSum(EdgeWeight(s), edges, items);
    }
  }

  /** The beginnings of a declared path are declared. */
  lemma {:induction false} PartDeclared(rs: seq<RelationshipDefinition>, names: seq<string>, d: RelationshipDefinition,
                                        j: nat)
    returns (part: RelationshipDefinition)
    requires Declares(rs, names, d) && 0 < j <= |names|
    ensures Declares(rs, names[..j], part)
    decreases |names|
  {
    var r :| r in rs && r.name == names[0] && if |names| == 1 then d == r
                                               else Declares(r.relationships, names[1..], d);
    if j == 1 {
      part := r;
    } else {
      part := PartDeclared(r.relationships, names[1..], d, j - 1);
      assert names[..j][1..] == names[1..][..j - 1];
    }
  }

  lemma SortsPriced(c: SchemaConfig, s: Schema, final: seq<SortTerm>, items: seq<int>)
    requires Built(c, s) && forall t <- final :: exists d <- c.sorts :: d.name == t.name
    requires |items| == |final|
    ensures SortBill(c, final, items) <==> items == Weighed(SortWeight(s), TermNames(final))
    ensures SortBill(c, final, items) ==> Plus(items) == Sum(SortWeight(s), TermNames(final))
  {
    forall d | d in c.sorts ensures SortCost(s, d.name) == d.cost as int {
      SortPriced(c, s, d);
    }
    hide Built, SortCost, Plus, Sum;
    if SortBill(c, final, items) {
      forall i | 0 <= i < |final| ensures items[i] == SortCost(s, final[i].name) {
        assert final[i] in final;
        var d :| d in c.sorts && d.name == final[i].name;
      }
      PlusIsSum(SortWeight(s), TermNames(final), items);
    }
  }

  lemma LeavesPriced(c: SchemaConfig, s: Schema, leaves: seq<Predicate>, items: seq<int>)
    requires Built(c, s) && forall p <- leaves :: exists d <- c.filters :: d.name == p.name
    requires |items| == |leaves|
    ensures (forall i, d | 0 <= i < |leaves| && d in c.filters && d.name == leaves[i].name :: items[i] == d.cost as int)
      <==> items == Weighed(LeafWeight(s), LeafNames(leaves))
    ensures items == Weighed(LeafWeight(s), LeafNames(leaves)) ==> Plus(items) == LeafTotal(s, leaves)
  {
    forall d | d in c.filters ensures LeafCost(s, d.name) == d.cost as int {
      LeafPriced(c, s, d);
    }
    hide Built, LeafCost, Plus, Sum;
    if forall i, d | 0 <= i < |leaves| && d in c.filters && d.name == leaves[i].name :: items[i] == d.cost as int {
      forall i | 0 <= i < |leaves| ensures items[i] == LeafCost(s, leaves[i].name) {
        assert leaves[i] in leaves;
        var d :| d in c.filters && d.name == leaves[i].name;
      }
    }
    if items == Weighed(LeafWeight(s), LeafNames(leaves)) {
      PlusIsSum(LeafWeight(s), LeafNames(leaves), items);
    }
  }

  /** items are the costs of the filters the leaves name. */
  ghost predicate LeafCosts(c: SchemaConfig, leaves: seq<Predicate>, items: seq<int>) {
    && |items| == |leaves|
    && forall i, d | 0 <= i < |leaves| && d in c.filters && d.name == leaves[i].name :: items[i] == d.cost as int
  }

  lemma FilterPriced(c: SchemaConfig, s: Schema, options: CompileOptions, root: FilterExpr, items: seq<int>)
    requires Built(c, s) && FilterFits(c, options, root)
    ensures LeafBill(c, Some(root), items) <==> items == Weighed(LeafWeight(s), LeafNames(Leaves(root)))
    ensures LeafBill(c, Some(root), items) ==> Plus(items) == LeafTotal(s, Leaves(root))
  {
    PlacesAgree(c, s, options, root);
    Listings(root);
    LeafFiltersDeclared(c, options, root, Paths(root, true));
    LeafBillIs(c, root, items);
    if |items| == |Leaves(root)| {
      LeavesPriced(c, s, Leaves(root), items);
    }
    hide Built, FilterFits, Leaves, Paths, Plus, LeafTotal, Tidy, AllNodes, AllLeaves, LeafBill;
  }

  lemma LeafBillIs(c: SchemaConfig, root: FilterExpr, items: seq<int>)
    requires Tidy(root)
    ensures LeafBill(c, Some(root), items) <==> LeafCosts(c, Leaves(root), items)
  {
    Listings(root);
    var listed := Paths(root, true);
    LeavesListed(root, listed);
    hide Tidy, Leaves, IsLeaf, PredicateAt, Paths, AllNodes, AllLeaves;
    if LeafBill(c, Some(root), items) {
      LeafBillItems(c, root, items);
    }
    if LeafCosts(c, Leaves(root), items) {
      assert AllLeaves(root, listed);
      assert LeafBill(c, Some(root), items);
    }
  }

  lemma LeafBillItems(c: SchemaConfig, root: FilterExpr, items: seq<int>)
    requires Tidy(root) && LeafBill(c, Some(root), items)
    ensures LeafCosts(c, Leaves(root), items)
  {
    var paths :| AllLeaves(root, paths) && |items| == |paths|
      && forall i, d | 0 <= i < |paths| && d in c.filters && d.name == PredicateAt(root, paths[i]).name ::
           items[i] == d.cost as int;
    hide Tidy, Leaves, IsLeaf;
    LeavesListed(root, paths);
  }

  lemma LeafFiltersDeclared(c: SchemaConfig, options: CompileOptions, root: FilterExpr, paths: seq<seq<nat>>)
    requires FilterFits(c, options, root) && Tidy(root) && AllLeaves(root, paths)
    ensures forall p <- Leaves(root) :: exists d <- c.filters :: d.name == p.name
  {
    LeavesListed(root, paths);
    hide Leaves, OperandsFit, AllNodes, OperandCounts, PredicatesApart;
    forall p | p in Leaves(root) ensures exists d <- c.filters :: d.name == p.name {
      var k :| 0 <= k < |Leaves(root)| && Leaves(root)[k] == p;
      assert IsLeaf(root, paths[k]) && PredicateAt(root, paths[k]) == p;
      assert LeafFits(c, options, p);
    }
  }

  // ---------------------------------------------------------------- the plan named

  lemma SelectionNamed(c: SchemaConfig, s: Schema, requested: Option<seq<string>>, fields: seq<string>)
    requires Built(c, s)
    ensures FieldsInEffect(c, requested, fields) <==> fields == EffectiveFields(s, requested)
  {
    if FieldsInEffect(c, requested, fields) {
      EffectiveInEffect(c, s, requested, fields);
    }
    if requested.None? {
      var at := DefaultsListed(s, |s.fields|);
      assert ListsAt(DefaultFields(s, |s.fields|), c.fields, (d: FieldDefinition) => d.selected, at);
    }
  }

  lemma ExecutionNamed(c: SchemaConfig, s: Schema, response: seq<string>, execution: seq<string>)
    requires Built(c, s)
    ensures Executes(c, response, execution) <==> execution == ExecutionFields(s, response)
  {
    ExecutionListed(c, s, response);
    hide Built, Lists, ExecutionFields;
    if Executes(c, response, execution) {
      var keep := (d: FieldDefinition) => d.required && d.name !in response;
      var one :| execution == one + response && Lists(one, c.fields, keep);
      var two :| ExecutionFields(s, response) == two + response && Lists(two, c.fields, keep);
      ListsUnique(one, two, c.fields, keep);
    }
  }

  lemma CompletedIsFilled(c: SchemaConfig, s: Schema, options: CompileOptions, t: SortTerm)
    requires Built(c, s) && TermFits(c, options, t)
    ensures Filled(c, t, Completed(s, t))
  {
    BuiltIsValid(c, s);
    DeclaredSort(s, t.name);
    hide ValidConfig, ValidSchema, Indexes, IndexOf;
    forall d | d in c.sorts && d.name == t.name ensures d.nulls == DeclaredNulls(s, t.name) {
      var i :| 0 <= i < |s.sorts| && s.sorts[i] == d;
      assert s.sorts[i].name == t.name;
    }
  }

  lemma OrderNamed(c: SchemaConfig, s: Schema, options: CompileOptions, request: Request, final: seq<SortTerm>)
    requires Built(c, s) && (request.page.mode == PageCursor ==> c.pagination.cursor)
    requires TermsFit(c, options, TermsInEffect(c, request.sorts))
    ensures Ordered(c, request.page.mode == PageCursor, TermsInEffect(c, request.sorts), final)
      <==> final == FinalSorts(s, request)
  {
    var terms := TermsInEffect(c, request.sorts);
    if Ordered(c, request.page.mode == PageCursor, terms, final) {
      OrderAgrees(c, s, options, request, final);
    }
    forall i | 0 <= i < |terms| ensures Filled(c, terms[i], CompletedAll(s, terms)[i]) {
      assert terms[i] in terms;
      CompletedIsFilled(c, s, options, terms[i]);
    }
    assert EffectiveSorts(s, request.sorts) == terms;
    NamesStay(s, terms);
    if request.page.mode == PageCursor {
      var i := OnlyTieBreaker(c, s);
      assert c.sorts[i] in c.sorts;
      hide Built, FirstTieBreaker, TermNames, NamesOfTerms, TermsFit, Filled;
    }
  }

  lemma FinalDeclared(c: SchemaConfig, s: Schema, options: CompileOptions, request: Request)
    requires Built(c, s) && SortsOk(s, options, EffectiveSorts(s, request.sorts))
    ensures forall t <- FinalSorts(s, request) :: t.name in s.sortIndex
  {
    BuiltIsValid(c, s);
    var final, terms := FinalSorts(s, request), EffectiveSorts(s, request.sorts);
    var tie := FirstTieBreaker(s.sorts, 0);
    if tie.Some? {
      DeclaredSort(s, s.sorts[tie.value].name);
    }
    hide ValidConfig, ValidSchema, Indexes, IndexOf, FirstTieBreaker, TermNames;
    forall t | t in final ensures t.name in s.sortIndex {
      var i :| 0 <= i < |final| && final[i] == t;
      if i < |terms| {
        assert SortOk(s, options, terms[i]);
      }
    }
  }

  lemma IndexedIsDeclared(c: SchemaConfig, s: Schema, final: seq<SortTerm>)
    requires Built(c, s) && forall t <- final :: t.name in s.sortIndex
    ensures forall t <- final :: exists d <- c.sorts :: d.name == t.name
  {
    BuiltIsValid(c, s);
    hide ValidConfig, Indexes, IndexOf;
    forall t | t in final ensures exists d <- c.sorts :: d.name == t.name {
      DeclaredSort(s, t.name);
      assert s.sorts[s.sortIndex[t.name]] in c.sorts;
    }
  }

  lemma PageNamed(c: SchemaConfig, s: Schema, request: Request)
    requires Built(c, s) && PageFits(c, request.page)
    ensures FinalPage(s, request) == PageOf(c, request.page)
    ensures NormalizedPage(s, request.page).mode == PageCursor <==> request.page.mode == PageCursor
  {
    PageAgrees(c, s, request.page);
    hide Built, ByteLength, Limit;
  }

  /** Every component but the cursor is admissible. */
  ghost predicate PartsOk(s: Schema, request: Request, options: CompileOptions) {
    var page := NormalizedPage(s, request.page);
    && (request.schemaRevision.Some? ==> request.schemaRevision.value == s.revision)
    && ConstraintsOk(s, options.constraints)
    && FieldsOk(s, options, EffectiveFields(s, request.fields))
    && IncludesOk(s, options, RequestedIncludes(request))
    && (request.filter.Some? ==> TreeOk(s, options, request.filter.value))
    && SortsOk(s, options, EffectiveSorts(s, request.sorts))
    && PageOk(s, page)
    && (page.mode == PageCursor ==> TieOk(s, options, CompletedAll(s, EffectiveSorts(s, request.sorts))))
  }

  lemma PagingAgrees(c: SchemaConfig, s: Schema, request: Request, options: CompileOptions)
    requires Built(c, s)
    ensures var page := NormalizedPage(s, request.page); var terms := EffectiveSorts(s, request.sorts);
      PageOk(s, page) && (page.mode == PageCursor ==> TieOk(s, options, CompletedAll(s, terms))) <==>
      PageFits(c, request.page) && (request.page.mode == PageCursor ==> TieFits(c, options, terms))
  {
    PageAgrees(c, s, request.page);
    var terms := EffectiveSorts(s, request.sorts);
    if PageFits(c, request.page) && request.page.mode == PageCursor {
      TieAgrees(c, s, options, terms);
    }
    hide Built, ByteLength, Limit, TieOk, TieFits, PageOk, CompletedAll, EffectiveSorts;
  }

  lemma PartsAgree(c: SchemaConfig, s: Schema, request: Request, options: CompileOptions, plan: PlanData)
    requires Built(c, s)
    requires plan.responseFields == EffectiveFields(s, request.fields) && plan.includes == RequestedIncludes(request)
    ensures PartsOk(s, request, options) <==> Admissible(c, request, options, plan)
  {
    assert s.revision == c.revision && EffectiveSorts(s, request.sorts) == TermsInEffect(c, request.sorts);
    hide *;
    ConstraintsAgree(c, s, options.constraints);
    FieldsAgree(c, s, options, plan.responseFields);
    IncludesAgree(c, s, options, plan.includes);
    if request.filter.Some? {
      FilterAgrees(c, s, options, request.filter.value);
    }
    TermsAgree(c, s, options, TermsInEffect(c, request.sorts));
    PagingAgrees(c, s, request, options);
    PartsMatch(c, s, request, options, plan);
  }

  lemma PartsMatch(c: SchemaConfig, s: Schema, request: Request, options: CompileOptions, plan: PlanData)
    requires plan.responseFields == EffectiveFields(s, request.fields) && plan.includes == RequestedIncludes(request)
    requires s.revision == c.revision && EffectiveSorts(s, request.sorts) == TermsInEffect(c, request.sorts)
    requires ConstraintsOk(s, options.constraints) <==> ConstraintsFit(c, options.constraints)
    requires FieldsOk(s, options, plan.responseFields) <==> FieldsFit(c, options, plan.responseFields)
    requires IncludesOk(s, options, plan.includes) <==> IncludesFit(c, options, plan.includes)
    requires request.filter.Some? ==>
      (TreeOk(s, options, request.filter.value) <==> FilterFits(c, options, request.filter.value))
    requires SortsOk(s, options, TermsInEffect(c, request.sorts)) <==>
      TermsFit(c, options, TermsInEffect(c, request.sorts))
    requires var page := NormalizedPage(s, request.page); var terms := EffectiveSorts(s, request.sorts);
      PageOk(s, page) && (page.mode == PageCursor ==> TieOk(s, options, CompletedAll(s, terms))) <==>
      PageFits(c, request.page) && (request.page.mode == PageCursor ==> TieFits(c, options, terms))
    ensures PartsOk(s, request, options) <==> Admissible(c, request, options, plan)
  {
    hide ConstraintsOk, ConstraintsFit, FieldsOk, FieldsFit, IncludesOk, IncludesFit, TreeOk, FilterFits, SortsOk,
      TermsFit, PageOk, PageFits, TieOk, TieFits, NormalizedPage, EffectiveSorts, TermsInEffect, EffectiveFields,
      CompletedAll;
  }

  /** An admissible plan is the one named exactly when it is the one the run makes, whatever its cost. */
  lemma NamedAgrees(c: SchemaConfig, s: Schema, request: Request, options: CompileOptions, plan: PlanData,
                    edges: seq<string>)
    requires Built(c, s) && Admissible(c, request, options, plan)
    requires SortsOk(s, options, EffectiveSorts(s, request.sorts))
    ensures Names(c, request, options, plan) <==>
      && CursorOk(s, options, NormalizedPage(s, request.page), FinalSorts(s, request))
      && plan == PlanFor(s, request, options, edges).(cost := plan.cost)
  {
    SelectionNamed(c, s, request.fields, plan.responseFields);
    ExecutionNamed(c, s, plan.responseFields, plan.executionFields);
    OrderNamed(c, s, options, request, plan.sorts);
    PageNamed(c, s, request);
    FinalDeclared(c, s, options, request);
    CursorAgrees(c, s, options, request.page, FinalSorts(s, request), FinalCursor(s, request, options));
    assert s.resource == c.resource && s.revision == c.revision;
    hide Built, FieldsInEffect, EffectiveFields, Executes, ExecutionFields, Ordered, FinalSorts, FinalPage, PageOf,
      CursorIs, CursorOk, FinalCursor, NormalizedPage, TotalCost, Admissible, SortsOk, TermsInEffect, EffectiveSorts;
  }

  lemma SelectionBilled(c: SchemaConfig, s: Schema, options: CompileOptions, response: seq<string>,
                        includes: seq<string>, edges: seq<string>, fields: seq<int>, charges: seq<int>)
    requires Built(c, s) && FieldsOk(s, options, response) && AreEdges(c, includes, edges)
    ensures FieldBill(c, ExecutionFields(s, response), fields) <==>
      fields == Weighed(FieldWeight(s), ExecutionFields(s, response))
    ensures FieldBill(c, ExecutionFields(s, response), fields) ==>
      Plus(fields) == Sum(FieldWeight(s), ExecutionFields(s, response))
    ensures EdgeBill(c, edges, charges) <==> charges == Weighed(EdgeWeight(s), edges)
    ensures EdgeBill(c, edges, charges) ==> Plus(charges) == Sum(EdgeWeight(s), edges)
  {
    ExecutionDeclared(c, s, options, response);
    if |fields| == |ExecutionFields(s, response)| {
      FieldsPriced(c, s, ExecutionFields(s, response), fields);
    }
    if |charges| == |edges| {
      EdgesPriced(c, s, includes, edges, charges);
    }
    hide Built, FieldsOk, ExecutionFields, AreEdges, Sum, Plus, FieldWeight, EdgeWeight;
  }

  lemma RowsBilled(c: SchemaConfig, s: Schema, options: CompileOptions, request: Request, leaves: seq<int>,
                   sorts: seq<int>)
    requires Built(c, s) && SortsOk(s, options, EffectiveSorts(s, request.sorts))
    requires request.filter.Some? ==> FilterFits(c, options, request.filter.value)
    ensures LeafBill(c, request.filter, leaves) <==> leaves == WeighedLeaves(s, request.filter)
    ensures LeafBill(c, request.filter, leaves) ==> Plus(leaves) == FilterTotal(s, request.filter)
    ensures SortBill(c, FinalSorts(s, request), sorts) <==>
      sorts == Weighed(SortWeight(s), TermNames(FinalSorts(s, request)))
    ensures SortBill(c, FinalSorts(s, request), sorts) ==>
      Plus(sorts) == Sum(SortWeight(s), TermNames(FinalSorts(s, request)))
  {
    FinalDeclared(c, s, options, request);
    IndexedIsDeclared(c, s, FinalSorts(s, request));
    if |sorts| == |FinalSorts(s, request)| {
      SortsPriced(c, s, FinalSorts(s, request), sorts);
    }
    if request.filter.Some? {
      FilterPriced(c, s, options, request.filter.value, leaves);
    }
    hide Built, SortsOk, FilterFits, FinalSorts, Sum, LeafTotal, Leaves, TermNames, SortWeight, LeafWeight, AllLeaves;
  }

  /** The bill of an admissible request is determined, and comes to the cost of its plan. */
  lemma BillAgrees(c: SchemaConfig, s: Schema, request: Request, options: CompileOptions, plan: PlanData,
                   edges: seq<string>, bill: Bill)
    requires Built(c, s) && PartsOk(s, request, options) && Admissible(c, request, options, plan)
    requires plan.executionFields == ExecutionFields(s, EffectiveFields(s, request.fields))
    requires plan.filter == request.filter && plan.sorts == FinalSorts(s, request)
    ensures Billed(c, plan, edges, bill) <==>
      && AreEdges(c, plan.includes, edges)
      && bill == BillOf(s, plan, edges)
    ensures Billed(c, plan, edges, bill) ==>
      bill.Total() == TotalCost(s, plan.executionFields, edges, plan.filter, plan.sorts)
  {
    var response := EffectiveFields(s, request.fields);
    BillableParts(c, s, request, options, plan);
    hide *;
    if AreEdges(c, plan.includes, edges) {
      SelectionBilled(c, s, options, response, plan.includes, edges, bill.fields, bill.edges);
      RowsBilled(c, s, options, request, bill.leaves, bill.sorts);
    }
    BillParts(c, s, plan, edges, bill);
  }

  lemma BillableParts(c: SchemaConfig, s: Schema, request: Request, options: CompileOptions, plan: PlanData)
    requires PartsOk(s, request, options) && Admissible(c, request, options, plan)
    ensures FieldsOk(s, options, EffectiveFields(s, request.fields))
    ensures SortsOk(s, options, EffectiveSorts(s, request.sorts))
    ensures request.filter.Some? ==> FilterFits(c, options, request.filter.value)
  {
    hide FieldsOk, SortsOk, FilterFits, EffectiveFields, EffectiveSorts, FieldsFit, TermsFit, IncludesOk, TreeOk;
  }

  lemma BillParts(c: SchemaConfig, s: Schema, plan: PlanData, edges: seq<string>, bill: Bill)
    ensures Billed(c, plan, edges, bill) <==>
      && AreEdges(c, plan.includes, edges) && FieldBill(c, plan.executionFields, bill.fields)
      && EdgeBill(c, edges, bill.edges) && LeafBill(c, plan.filter, bill.leaves) && SortBill(c, plan.sorts, bill.sorts)
    ensures bill == BillOf(s, plan, edges) <==>
      && bill.fields == Weighed(FieldWeight(s), plan.executionFields) && bill.edges == Weighed(EdgeWeight(s), edges)
      && bill.leaves == WeighedLeaves(s, plan.filter)
      && bill.sorts == Weighed(SortWeight(s), TermNames(plan.sorts))
    ensures bill.Total() == 1 + Plus(bill.fields) + Plus(bill.edges) + Plus(bill.leaves) + Plus(bill.sorts)
    ensures TotalCost(s, plan.executionFields, edges, plan.filter, plan.sorts)
      == 1 + Sum(FieldWeight(s), plan.executionFields) + Sum(EdgeWeight(s), edges) + FilterTotal(s, plan.filter)
         + Sum(SortWeight(s), TermNames(plan.sorts))
  {
    hide AreEdges, FieldBill, EdgeBill, LeafBill, SortBill, Sum, Plus, FilterTotal, TermNames, Weighed, WeighedLeaves;
  }

  function BillOf(s: Schema, plan: PlanData, edges: seq<string>): Bill {
    Bill(Weighed(FieldWeight(s), plan.executionFields), Weighed(EdgeWeight(s), edges), WeighedLeaves(s, plan.filter),
         Weighed(SortWeight(s), TermNames(plan.sorts)))
  }

  function WeighedLeaves(s: Schema, filter: Option<FilterExpr>): seq<int> {
    match filter
    case None => []
    case Some(root) => Weighed(LeafWeight(s), LeafNames(Leaves(root)))
  }

  lemma ListedAreDeclared(names: seq<string>, fields: seq<FieldDefinition>, keep: FieldDefinition -> bool)
    requires Lists(names, fields, keep)
    ensures forall n <- names :: exists d <- fields :: d.name == n
  {
    var at :| ListsAt(names, fields, keep, at);
    forall n | n in names ensures exists d <- fields :: d.name == n {
      var i :| 0 <= i < |names| && names[i] == n;
      assert fields[at[i]] in fields;
    }
  }

  lemma ExecutionDeclared(c: SchemaConfig, s: Schema, options: CompileOptions, response: seq<string>)
    requires Built(c, s) && FieldsOk(s, options, response)
    ensures forall n <- ExecutionFields(s, response) :: exists d <- c.fields :: d.name == n
  {
    FieldsAgree(c, s, options, response);
    ExecutionListed(c, s, response);
    hide Built, FieldsOk, ExecutionFields, Lists;
    var added :| ExecutionFields(s, response) == added + response
      && Lists(added, c.fields, (d: FieldDefinition) => d.required && d.name !in response);
    ListedAreDeclared(added, c.fields, (d: FieldDefinition) => d.required && d.name !in response);
    forall n | n in response ensures exists d <- c.fields :: d.name == n {
      assert FieldOffered(c, options, n);
    }
  }

  // ---------------------------------------------------------------- the theorem

  lemma RunEdges(c: SchemaConfig, s: Schema, includes: seq<string>, options: CompileOptions, edges: seq<string>)
    requires Built(c, s) && IncludesOk(s, options, includes) && EdgesTidy(options, edges)
    ensures EdgesCover(edges, includes) <==> AreEdges(c, includes, edges)
  {
    assert Distinct(edges);
    forall p | p in includes ensures p in s.relationIndex {
      assert IncludeOk(s, options, p);
    }
    hide Built, IncludesOk, EdgesTidy, EdgesCover, AreEdges;
    EdgesAgree(c, s, includes, edges);
  }

  /** Whatever compiles, compiles to the plan the declarations name, within the limit they set. */
  lemma RunCompiles(c: SchemaConfig, s: Schema, request: Request, options: CompileOptions)
    returns (edges: seq<string>, bill: Bill)
    requires Built(c, s) && CompileRun(s, request, options).trail.violations == []
    ensures Compiles(c, request, options, CompileRun(s, request, options).plan, edges, bill)
  {
    BuiltIsValid(c, s);
    BuiltBounds(c, s);
    Accepted(s, request, options);
    var run := CompileRun(s, request, options);
    edges := run.edges;
    bill := BillOf(s, run.plan, edges);
    hide Built, CompileRun, ValidSchema, BillOf, EdgesTidy, EdgesCover, Names, Admissible,
      Billed, PartsOk, SortsOk, IncludesOk, TotalCost, ExecutionFields, EffectiveFields, EffectiveSorts, FinalSorts,
      FinalPage, FinalCursor, CursorOk, RequestOk, NormalizedPage, Limit, AreEdges;
    RequestParts(s, request, options);
    PartsAgree(c, s, request, options, run.plan);
    NamedAgrees(c, s, request, options, run.plan, edges);
    RunEdges(c, s, RequestedIncludes(request), options, edges);
    BillAgrees(c, s, request, options, run.plan, edges, bill);
  }

  lemma RequestParts(s: Schema, request: Request, options: CompileOptions)
    ensures RequestOk(s, request, options) <==>
      PartsOk(s, request, options) && CursorOk(s, options, NormalizedPage(s, request.page), FinalSorts(s, request))
    ensures PartsOk(s, request, options) ==>
      SortsOk(s, options, EffectiveSorts(s, request.sorts)) && IncludesOk(s, options, RequestedIncludes(request))
  {
    hide CursorOk, FinalSorts, NormalizedPage, EffectiveSorts, EffectiveFields, SortsOk, IncludesOk, FieldsOk, TreeOk,
      ConstraintsOk, TieOk, PageOk, CompletedAll;
  }

  /** And a request the declarations admit compiles, to the only plan they name. */
  lemma CompilesRuns(c: SchemaConfig, s: Schema, request: Request, options: CompileOptions, plan: PlanData,
                     edges: seq<string>, bill: Bill)
    requires Built(c, s) && Compiles(c, request, options, plan, edges, bill)
    ensures CompileRun(s, request, options).trail.violations == [] && CompileRun(s, request, options).plan == plan
  {
    BuiltIsValid(c, s);
    BuiltBounds(c, s);
    SelectionNamed(c, s, request.fields, plan.responseFields);
    assert AreEdges(c, plan.includes, edges) && plan.includes == RequestedIncludes(request);
    hide Built, CompileRun, ValidSchema, BillOf, EdgesTidy, EdgesCover, Names, Admissible,
      Billed, PartsOk, SortsOk, IncludesOk, TotalCost, ExecutionFields, EffectiveFields, EffectiveSorts, FinalSorts,
      FinalPage, FinalCursor, CursorOk, RequestOk, NormalizedPage, Limit, AreEdges;
    RequestParts(s, request, options);
    PartsAgree(c, s, request, options, plan);
    NamedAgrees(c, s, request, options, plan, edges);
    BillAgrees(c, s, request, options, plan, edges, bill);
    Accepted(s, request, options);
    ChargedOnce(c, s, request, options, edges);
  }

  /** Any listing of the edges comes to the same cost as the run's. */
  lemma ChargedOnce(c: SchemaConfig, s: Schema, request: Request, options: CompileOptions, edges: seq<string>)
    requires Built(c, s) && RequestOk(s, request, options) && AreEdges(c, RequestedIncludes(request), edges)
    ensures var run := CompileRun(s, request, options);
      run.plan == PlanFor(s, request, options, edges)
  {
    BuiltIsValid(c, s);
    assert NoRepeats(edges);
    DistinctIsNoRepeats(edges);
    assert IncludesOk(s, options, RequestedIncludes(request));
    forall p | p in RequestedIncludes(request) ensures p in s.relationIndex {
      assert IncludeOk(s, options, p);
    }
    hide Built, RequestOk, CompileRun, ValidSchema, IncludesOk, EdgesTidy, EdgesCover, AreEdges, TotalCost, Distinct,
      NoRepeats, ExecutionFields, EffectiveFields, FinalSorts, FinalPage, FinalCursor;
    EdgesAgree(c, s, RequestedIncludes(request), edges);
    CostDecides(s, request, options, edges);
    Accepted(s, request, options);
  }

  /** For the schema of any configuration, a request compiles to a plan exactly when the declarations say so. */
  lemma CompilesExactly(c: SchemaConfig, s: Schema, request: Request, options: CompileOptions, plan: PlanData)
    requires Built(c, s)
    ensures var run := CompileRun(s, request, options);
      run.trail.violations == [] && run.plan == plan <==>
      exists edges, bill :: Compiles(c, request, options, plan, edges, bill)
  {
    var run := CompileRun(s, request, options);
    hide Built, CompileRun, Compiles;
    if run.trail.violations == [] && run.plan == plan {
      var edges, bill := RunCompiles(c, s, request, options);
    }
    if edges, bill :| Compiles(c, request, options, plan, edges, bill) {
      CompilesRuns(c, s, request, options, plan, edges, bill);
    }
  }

  // ---------------------------------------------------------------- operators and operand types

  /** The operands an operator may have in a plan. */
  predicate OperandsSuit(p: Predicate) {
    match p.operator
    case OpEqual | OpNotEqual => |p.values| == 1
    case OpLess | OpLessOrEqual | OpGreater | OpGreaterOrEqual => |p.values| == 1 && p.values[0].kind in ORDERED_TYPES
    case OpBetween => |p.values| == 2 && p.values[0].kind in ORDERED_TYPES && p.values[1].kind == p.values[0].kind
    case OpIn | OpNotIn => p.values != [] && forall v <- p.values :: v.kind == p.values[0].kind
    case OpContains | OpStartsWith | OpEndsWith => |p.values| == 1 && p.values[0].kind == TypeString
    case OpIsNull => p.values == []
    case OpUnknown(_) => false
  }

  /** In a plan compiled for any configuration each predicate's operands are of a type its operator is for,
      and only a nullable filter is asked for null. */
  lemma PlanOperandsSuit(c: SchemaConfig, s: Schema, request: Request, options: CompileOptions, steps: seq<nat>)
    requires Built(c, s) && CompileRun(s, request, options).trail.violations == []
    requires var plan := CompileRun(s, request, options).plan; plan.filter.Some? && IsLeaf(plan.filter.value, steps)
    ensures var p := PredicateAt(CompileRun(s, request, options).plan.filter.value, steps);
      && OperandsSuit(p)
      && (p.operator == OpIsNull ==> forall d <- c.filters :: d.name == p.name ==> d.nullable)
  {
    var plan := CompileRun(s, request, options).plan;
    var edges, bill := RunCompiles(c, s, request, options);
    AcceptedExactly(c);
    assert ConfigFits(c) && FilterFits(c, options, plan.filter.value);
    hide Built, CompileRun, Compiles;
    var p := PredicateAt(plan.filter.value, steps);
    FittingLeaf(c, options, plan.filter.value, steps);
    DeclaredOperandsSuit(c, options, p);
  }

  lemma FittingLeaf(c: SchemaConfig, options: CompileOptions, root: FilterExpr, steps: seq<nat>)
    requires FilterFits(c, options, root) && IsLeaf(root, steps)
    ensures LeafFits(c, options, PredicateAt(root, steps))
  {
    hide LeafFits, AllNodes, OperandCounts, PredicatesApart;
  }

  lemma DeclaredOperandsSuit(c: SchemaConfig, options: CompileOptions, p: Predicate)
    requires DefinitionsFit(c) && LeafFits(c, options, p)
    ensures OperandsSuit(p)
    ensures p.operator == OpIsNull ==> forall d <- c.filters :: d.name == p.name ==> d.nullable
  {
    hide Declared, ByteLength, Limit;
    var d :| d in c.filters && d.name == p.name && p.operator in d.operators && OperandsFit(c, d, p);
    assert Suits(p.operator, d);
    assert forall i :: 0 <= i < |p.values| ==> p.values[i] in p.values;
    forall e | e in c.filters && e.name == p.name ensures e == d {
      var i :| 0 <= i < |c.filters| && c.filters[i] == d;
      var j :| 0 <= j < |c.filters| && c.filters[j] == e;
    }
  }
}
