/** Compilation is a normal form: the request read off a plan compiles to that plan again. */
module NormalForm {
  import opened Text
  import opened Types
  import opened Schemas
  import opened FieldPhase
  import opened IncludePhase
  import opened FilterSpec
  import opened SortPhase
  import opened Compile
  import opened Admission

  /** The request a client would write from what the plan reports. */
  function Rebuilt(plan: PlanData): Request {
    Request(Some(plan.revision), Some(plan.responseFields), Some(plan.includes), plan.filter, Some(plan.sorts),
            plan.page)
  }

  /** Every final term carries its declared null order, so completing it again changes nothing. */
  ghost predicate Settled(schema: Schema, options: CompileOptions, term: SortTerm) {
    SortOk(schema, options, term) && term.nulls == DeclaredNulls(schema, term.name)
  }

  lemma CompletedSettled(schema: Schema, options: CompileOptions, sorts: seq<SortTerm>)
    requires ValidSchema(schema) && SortsOk(schema, options, sorts)
    ensures forall term <- CompletedAll(schema, sorts) :: Settled(schema, options, term)
    ensures TermNames(CompletedAll(schema, sorts)) == TermNames(sorts)
  {
    var done := CompletedAll(schema, sorts);
    forall term | term in done ensures Settled(schema, options, term) {
      var i :| 0 <= i < |done| && done[i] == term;
      assert SortOk(schema, options, sorts[i]);
      DeclaredSort(schema, term.name);
    }
  }

  lemma SettledIsComplete(schema: Schema, options: CompileOptions, sorts: seq<SortTerm>)
    requires forall term <- sorts :: Settled(schema, options, term)
    ensures CompletedAll(schema, sorts) == sorts
  {
    forall i | 0 <= i < |sorts| ensures CompletedAll(schema, sorts)[i] == sorts[i] {
      assert Settled(schema, options, sorts[i]);
    }
  }

  /** The completed order, with the tie-breaker a cursor page adds, is itself an admissible order that
      needs no completion and no tie-breaker. */
  lemma FinalSortsSettle(schema: Schema, request: Request, options: CompileOptions)
    requires ValidSchema(schema) && RequestOk(schema, request, options)
    ensures var final := FinalSorts(schema, request);
      && SortsOk(schema, options, final)
      && CompletedAll(schema, final) == final
      && (NormalizedPage(schema, request.page).mode == PageCursor ==>
            TieTerm(schema, final) == [] && TieOk(schema, options, final))
  {
    var sorts := EffectiveSorts(schema, request.sorts);
    var done := CompletedAll(schema, sorts);
    var final := FinalSorts(schema, request);
    var tie := FirstTieBreaker(schema.sorts, 0);
    assert SortsOk(schema, options, sorts);
    CompletedSettled(schema, options, sorts);
    if NormalizedPage(schema, request.page).mode == PageCursor && tie.Some? {
      assert TieOk(schema, options, done);
      TieSettles(schema, options, done, tie.value);
    } else {
      assert final == done;
    }
    SettledIsComplete(schema, options, final);
  }

  lemma TieSettles(schema: Schema, options: CompileOptions, done: seq<SortTerm>, i: nat)
    requires ValidSchema(schema) && FirstTieBreaker(schema.sorts, 0) == Some(i)
    requires |done| <= schema.bounds.maxSorts && Distinct(TermNames(done))
    requires (forall term <- done :: Settled(schema, options, term)) && TieOk(schema, options, done)
    ensures var final := done + TieTerm(schema, done);
      && |final| <= schema.bounds.maxSorts && Distinct(TermNames(final))
      && (forall term <- final :: Settled(schema, options, term))
      && schema.sorts[i].name in TermNames(final)
  {
    var d := schema.sorts[i];
    DeclaredSort(schema, d.name);
    hide ValidSchema, Permits, FirstTieBreaker;
    var final := done + TieTerm(schema, done);
    if d.name in TermNames(done) {
      assert final == done;
    } else {
      assert TermNames(final) == TermNames(done) + [d.name];
      AppendDistinct(TermNames(done), d.name);
      assert TermNames(final)[|done|] == d.name;
    }
  }

  lemma PageSettles(schema: Schema, page: PageRequest)
    requires PageOk(schema, NormalizedPage(schema, page))
    ensures var settled := NormalizedPage(schema, page).(after := "", before := "");
      HasOneToken(NormalizedPage(schema, page)) ==>
        PageOk(schema, settled) && NormalizedPage(schema, settled) == settled
    ensures !HasOneToken(NormalizedPage(schema, page)) ==>
      NormalizedPage(schema, NormalizedPage(schema, page)) == NormalizedPage(schema, page)
  {
  }

  lemma {:induction false} RebuiltIsAdmissible(schema: Schema, request: Request, options: CompileOptions,
                                               edges: seq<string>)
    requires ValidSchema(schema) && RequestOk(schema, request, options)
    ensures var plan := PlanFor(schema, request, options, edges);
      && RequestOk(schema, Rebuilt(plan), options)
      && PlanFor(schema, Rebuilt(plan), options, edges) == plan.(cursor := None)
      && (plan.cursor.None? <==> !HasOneToken(NormalizedPage(schema, request.page)))
  {
    FinalSortsSettle(schema, request, options);
    PageSettles(schema, request.page);
    hide ValidSchema, FieldsOk, ConstraintsOk, IncludesOk, TreeOk, SortsOk, PageOk, CompletedAll, NormalizedPage,
         TieTerm, TieOk, TotalCost, ExecutionFields, FirstTieBreaker;
    var plan := PlanFor(schema, request, options, edges);
    var again := Rebuilt(plan);
    assert NormalizedPage(schema, again.page) == FinalPage(schema, request);
    assert FinalSorts(schema, again) == FinalSorts(schema, request);
  }

  /** Recompiling the request rebuilt from any plan succeeds and gives the same plan, but for the cursor:
      fields, includes, filter, completed sorts, page and cost. It gives the very same plan exactly when
      the request carried no token. */
  lemma {:induction false} RecompilesToItself(schema: Schema, request: Request, options: CompileOptions)
    requires ValidSchema(schema) && CompileRun(schema, request, options).trail.violations == []
    ensures var plan := CompileRun(schema, request, options).plan;
      var again := CompileRun(schema, Rebuilt(plan), options);
      && again.trail.violations == [] && again.plan == plan.(cursor := None)
      && (again.plan == plan <==> !HasOneToken(NormalizedPage(schema, request.page)))
  {
    Accepted(schema, request, options);
    var run := CompileRun(schema, request, options);
    RebuiltIsAdmissible(schema, request, options, run.edges);
    var again := Rebuilt(run.plan);
    Accepted(schema, again, options);
    CostDecides(schema, again, options, run.edges);
    hide ValidSchema, RequestOk, CompileRun, TotalCost, EdgesTidy, EdgesCover;
  }
}
