/** Sort terms, page normalisation with the tie-breaker, and the cursor check (compileSorts,
    compilePage, compileCursor). */
module SortPhase {
  import opened Text
  import opened Types
  import opened PlanHeap
  import opened Violations
  import opened Schemas
  import opened Compilation
  import opened FieldPhase

  // ---------------------------------------------------------------- sorts

  function DeclaredNulls(schema: Schema, name: string): NullOrder {
    if name in schema.sortIndex && schema.sortIndex[name] < |schema.sorts|
    then schema.sorts[schema.sortIndex[name]].nulls else NullsUnset
  }

  function Completed(schema: Schema, term: SortTerm): SortTerm {
    if term.nulls == NullsUnset then term.(nulls := DeclaredNulls(schema, term.name)) else term
  }

  datatype SortState = SortState(trail: Trail, sorts: seq<SortTerm>)

  function SortStep(schema: Schema, options: CompileOptions, sorts: seq<SortTerm>, k: nat, st: SortState): SortState
    requires k < |sorts|
  {
    var path, term := Indexed("sorts", k), sorts[k];
    if term.name !in schema.sortIndex then st.(trail := st.trail.Report(CodeInvalidElement, path))
    else if term.name in TermNames(sorts)[..k] then st.(trail := st.trail.Report(CodeConflict, path))
    else if !ValidDirection(term.direction) then st.(trail := st.trail.Report(CodeInvalidElement, path))
    else
      var asked := st.trail.Ask(options, CapabilitySort, term.name);
      if !Permits(options, CapabilitySort, term.name) then st.(trail := asked.Report(CodeAuthorization, path))
      else if !ValidNulls(term.nulls) then st.(trail := asked.Report(CodeInvalidElement, path))
      else if term.nulls != NullsUnset && term.nulls != DeclaredNulls(schema, term.name) then
        st.(trail := asked.Report(CodeUnsupported, path))
      else SortState(asked, st.sorts + [Completed(schema, term)])
  }

  function SortRun(schema: Schema, options: CompileOptions, sorts: seq<SortTerm>, k: nat, t: Trail): SortState
    requires k <= |sorts|
  {
    if k == 0 then SortState(t, [])
    else SortStep(schema, options, sorts, k - 1, SortRun(schema, options, sorts, k - 1, t))
  }

  function EffectiveSorts(schema: Schema, requested: Option<seq<SortTerm>>): seq<SortTerm> {
    if requested.Some? then requested.value else schema.defaultSort
  }

  function SortsRun(schema: Schema, options: CompileOptions, requested: Option<seq<SortTerm>>, t: Trail): SortState {
    var sorts := EffectiveSorts(schema, requested);
    var kept := Truncated(sorts, schema.bounds.maxSorts);
    SortRun(schema, options, kept, |kept|, t.ReportIf(|sorts| > schema.bounds.maxSorts, CodeLimitExceeded, "sorts"))
  }

  lemma DeclaredSort(schema: Schema, name: string)
    requires ValidSchema(schema)
    ensures name in schema.sortIndex ==>
      && schema.sortIndex[name] < |schema.sorts|
      && schema.sorts[schema.sortIndex[name]].name == name
      && 0 <= schema.sorts[schema.sortIndex[name]].cost
      && ValidNulls(schema.sorts[schema.sortIndex[name]].nulls)
    ensures forall i :: 0 <= i < |schema.sorts| && schema.sorts[i].name == name ==>
              name in schema.sortIndex && schema.sortIndex[name] == i
  {
    var names := SortNames(schema.sorts);
    forall i | 0 <= i < |schema.sorts| && schema.sorts[i].name == name
      ensures name in schema.sortIndex && schema.sortIndex[name] == i
    {
      assert names[i] == name;
    }
    if name in schema.sortIndex {
      assert SortDeclared(schema.sorts[schema.sortIndex[name]], schema.bounds.maxCost);
    }
  }

  method CompileSorts(schema: Schema, requested: Option<array<SortTerm>>, authority: Authority, collector: Collector)
    returns (result: array<SortTerm>)
    requires ValidSchema(schema) && collector.Valid()
    modifies collector, authority`calls
    ensures collector.Valid() && fresh(result)
    ensures SortState(TrailOf(collector, authority), result[..])
         == SortsRun(schema, authority.options, Requested(requested), old(TrailOf(collector, authority)))
  {
    assert schema.bounds.maxSorts > 0 by { assert BoundValues(schema.bounds)[9] > 0; }
    hide ValidSchema, SortRun;
    var sorts := if requested.Some? then requested.value[..] else schema.defaultSort;
    if |sorts| > schema.bounds.maxSorts {
      collector.Add(CodeLimitExceeded, "sorts");
      sorts := sorts[..schema.bounds.maxSorts];
    }
    result := AdmitSorts(schema, sorts, authority, collector);
  }

  method AdmitSorts(schema: Schema, sorts: seq<SortTerm>, authority: Authority, collector: Collector)
    returns (result: array<SortTerm>)
    requires ValidSchema(schema) && collector.Valid()
    modifies collector, authority`calls
    ensures collector.Valid() && fresh(result)
    ensures SortState(TrailOf(collector, authority), result[..])
         == SortRun(schema, authority.options, sorts, |sorts|, old(TrailOf(collector, authority)))
  {
    hide ValidSchema, SortStep;
    result := new SortTerm[0];
    var seen: set<string> := {};
    var names := TermNames(sorts);
    for i := 0 to |sorts|
      invariant collector.Valid() && fresh(result)
      invariant seen == set n | n in names[..i] && n in schema.sortIndex
      invariant SortState(TrailOf(collector, authority), result[..])
             == SortRun(schema, authority.options, sorts, i, old(TrailOf(collector, authority)))
    {
      assert names[..i + 1] == names[..i] + [names[i]];
      result := AdmitSort(schema, sorts, i, seen, result, authority, collector);
      if sorts[i].name in schema.sortIndex {
        seen := seen + {sorts[i].name};
      }
    }
  }

  /** The body of the loop; the name joins the duplicate set whenever it is declared. */
  method AdmitSort(schema: Schema, sorts: seq<SortTerm>, i: nat, seen: set<string>, before: array<SortTerm>,
                   authority: Authority, collector: Collector)
    returns (result: array<SortTerm>)
    requires ValidSchema(schema) && collector.Valid() && i < |sorts|
    requires seen == set n | n in TermNames(sorts)[..i] && n in schema.sortIndex
    modifies collector, authority`calls
    ensures collector.Valid() && (result == before || fresh(result))
    ensures SortState(TrailOf(collector, authority), result[..])
         == SortStep(schema, authority.options, sorts, i, SortState(old(TrailOf(collector, authority)), before[..]))
  {
    var sort, path := sorts[i], Indexed("sorts", i);
    DeclaredSort(schema, sort.name);
    hide ValidSchema, Permits;
    result := before;
    if sort.name !in schema.sortIndex {
      collector.Add(CodeInvalidElement, path);
      return;
    }
    if sort.name in seen {
      collector.Add(CodeConflict, path);
      return;
    }
    if sort.direction != Ascending && sort.direction != Descending {
      collector.Add(CodeInvalidElement, path);
      return;
    }
    var allowed := authority.Authorized(CapabilitySort, sort.name);
    if !allowed {
      collector.Add(CodeAuthorization, path);
      return;
    }
    if sort.nulls != NullsUnset && sort.nulls != NullsFirst && sort.nulls != NullsLast {
      collector.Add(CodeInvalidElement, path);
      return;
    }
    var declaredNulls := schema.sorts[schema.sortIndex[sort.name]].nulls;
    if sort.nulls != NullsUnset && sort.nulls != declaredNulls {
      collector.Add(CodeUnsupported, path);
      return;
    }
    if sort.nulls == NullsUnset {
      sort := sort.(nulls := declaredNulls);
    }
    result := Append(before, sort);
  }

  ghost predicate SortOk(schema: Schema, options: CompileOptions, term: SortTerm) {
    && term.name in schema.sortIndex
    && ValidDirection(term.direction)
    && Permits(options, CapabilitySort, term.name)
    && ValidNulls(term.nulls)
    && (term.nulls == NullsUnset || term.nulls == DeclaredNulls(schema, term.name))
  }

  ghost predicate SortsOk(schema: Schema, options: CompileOptions, sorts: seq<SortTerm>) {
    && |sorts| <= schema.bounds.maxSorts
    && Distinct(TermNames(sorts))
    && forall term <- sorts :: SortOk(schema, options, term)
  }

  function CompletedAll(schema: Schema, sorts: seq<SortTerm>): (r: seq<SortTerm>)
    ensures |r| == |sorts|
  {
    seq(|sorts|, i requires 0 <= i < |sorts| => Completed(schema, sorts[i]))
  }

  lemma {:induction false} SortRunClean(schema: Schema, options: CompileOptions, sorts: seq<SortTerm>, k: nat, t: Trail)
    requires k <= |sorts|
    ensures var st := SortRun(schema, options, sorts, k, t);
      && (st.trail.violations == [] <==>
            && t.violations == [] && Distinct(TermNames(sorts)[..k])
            && forall i :: 0 <= i < k ==> SortOk(schema, options, sorts[i]))
      && (st.trail.violations == [] ==>
            && st.sorts == CompletedAll(schema, sorts)[..k]
            && st.trail.calls == t.calls + AskAll(options, CapabilitySort, TermNames(sorts), k))
  {
    hide Permits;
    if k > 0 {
      SortRunClean(schema, options, sorts, k - 1, t);
      DistinctNext(TermNames(sorts), k - 1);
      hide Distinct;
      assert CompletedAll(schema, sorts)[..k] == CompletedAll(schema, sorts)[..k - 1]
        + [Completed(schema, sorts[k - 1])];
    }
  }

  /** The sort phase reports nothing exactly for admissible terms, and then only fills in null orders. */
  lemma SortsAccepted(schema: Schema, options: CompileOptions, requested: Option<seq<SortTerm>>, t: Trail)
    requires schema.bounds.maxSorts >= 0
    ensures var sorts := EffectiveSorts(schema, requested); var st := SortsRun(schema, options, requested, t);
      && (st.trail.violations == [] <==> t.violations == [] && SortsOk(schema, options, sorts))
      && (st.trail.violations == [] ==>
            && st.sorts == CompletedAll(schema, sorts)
            && st.trail.calls == t.calls + AskAll(options, CapabilitySort, TermNames(sorts), |sorts|))
  {
    hide SortRun, SortOk;
    var sorts := EffectiveSorts(schema, requested);
    var kept := Truncated(sorts, schema.bounds.maxSorts);
    SortRunClean(schema, options, kept, |kept|,
                 t.ReportIf(|sorts| > schema.bounds.maxSorts, CodeLimitExceeded, "sorts"));
    assert TermNames(kept)[..|kept|] == TermNames(kept);
    assert CompletedAll(schema, kept)[..|kept|] == CompletedAll(schema, kept);
  }

  // ---------------------------------------------------------------- page

  function NormalizedPage(schema: Schema, page: PageRequest): PageRequest {
    var mode := if page.mode == PageUnset then PageNone else page.mode;
    page.(mode := mode,
          size := if mode != PageNone && page.size == 0 then schema.pagination.defaultPageSize else page.size)
  }

  /** The checks on a normalised page: the mode is available, offset and size are within bounds. */
  function PageSupportTrail(schema: Schema, p: PageRequest, t: Trail): Trail {
    t.ReportIf(p.mode == PageCursor && !schema.pagination.cursor, CodeUnsupported, "page.mode")
     .ReportIf(p.mode == PageOffset && !schema.pagination.offset, CodeUnsupported, "page.mode")
     .ReportIf(p.mode == PageOffset && (p.offset < 0 || p.offset > schema.pagination.maxOffset), CodeLimitExceeded,
               "page.offset")
     .ReportIf(p.size < 0 || p.size > schema.bounds.maxPageSize, CodeLimitExceeded, "page.size")
  }

  /** At most one token, and none too long. */
  function PageTokenTrail(schema: Schema, p: PageRequest, t: Trail): Trail {
    t.ReportIf(p.after != "" && p.before != "", CodeConflict, "page")
     .ReportIf(ByteLength(p.after) > schema.bounds.maxCursorBytes, CodeLimitExceeded, "page.after")
     .ReportIf(ByteLength(p.before) > schema.bounds.maxCursorBytes, CodeLimitExceeded, "page.before")
  }

  function PageBoundsTrail(schema: Schema, p: PageRequest, t: Trail): Trail {
    PageTokenTrail(schema, p, PageSupportTrail(schema, p, t))
  }

  /** The checks that depend on the mode alone. */
  function PageModeTrail(p: PageRequest, t: Trail): Trail {
    t.ReportIf(p.mode != PageNone && p.mode != PageCursor && p.mode != PageOffset, CodeUnsupported, "page.mode")
     .ReportIf(p.mode == PageNone && (p.size != 0 || p.after != "" || p.before != "" || p.offset != 0), CodeConflict,
               "page")
     .ReportIf(p.mode == PageCursor && p.offset != 0, CodeConflict, "page.offset")
     .ReportIf(p.mode == PageOffset && (p.after != "" || p.before != ""), CodeConflict, "page")
  }

  function FirstTieBreaker(sorts: seq<SortDefinition>, i: nat): Option<nat>
    requires i <= |sorts|
    ensures FirstTieBreaker(sorts, i).Some? ==> FirstTieBreaker(sorts, i).value < |sorts|
    decreases |sorts| - i
  {
    if i == |sorts| then None else if sorts[i].tieBreaker then Some(i) else FirstTieBreaker(sorts, i + 1)
  }

  /** Completing the order with the declared tie-breaker. */
  function TieRun(schema: Schema, options: CompileOptions, sorts: seq<SortTerm>, t: Trail): SortState {
    match FirstTieBreaker(schema.sorts, 0)
    case None => SortState(t, sorts)
    case Some(i) =>
      var d := schema.sorts[i];
      if d.name in TermNames(sorts) then SortState(t, sorts)
      else if |sorts| >= schema.bounds.maxSorts then SortState(t.Report(CodeLimitExceeded, "sorts"), sorts)
      else
        var asked := t.Ask(options, CapabilitySort, d.name);
        if !Permits(options, CapabilitySort, d.name) then SortState(asked.Report(CodeAuthorization, "sorts"), sorts)
        else SortState(asked, sorts + [SortTerm(d.name, Ascending, d.nulls)])
  }

  function PageRun(schema: Schema, options: CompileOptions, page: PageRequest, sorts: seq<SortTerm>,
                   t: Trail): SortState {
    var p := NormalizedPage(schema, page);
    var checked := PageModeTrail(p, PageBoundsTrail(schema, p, t));
    if p.mode == PageCursor then TieRun(schema, options, sorts, checked) else SortState(checked, sorts)
  }

  method CheckPageSupport(schema: Schema, page: PageRequest, collector: Collector, ghost authority: Authority)
    requires collector.Valid()
    modifies collector
    ensures collector.Valid()
    ensures TrailOf(collector, authority) == PageSupportTrail(schema, page, old(TrailOf(collector, authority)))
  {
    if page.mode == PageCursor && !schema.pagination.cursor {
      collector.Add(CodeUnsupported, "page.mode");
    }
    if page.mode == PageOffset && !schema.pagination.offset {
      collector.Add(CodeUnsupported, "page.mode");
    }
    if page.mode == PageOffset && (page.offset < 0 || page.offset > schema.pagination.maxOffset) {
      collector.Add(CodeLimitExceeded, "page.offset");
    }
    if page.size < 0 || page.size > schema.bounds.maxPageSize {
      collector.Add(CodeLimitExceeded, "page.size");
    }
  }

  method CheckPageTokens(schema: Schema, page: PageRequest, collector: Collector, ghost authority: Authority)
    requires collector.Valid()
    modifies collector
    ensures collector.Valid()
    ensures TrailOf(collector, authority) == PageTokenTrail(schema, page, old(TrailOf(collector, authority)))
  {
    hide ByteLength;
    if page.after != "" && page.before != "" {
      collector.Add(CodeConflict, "page");
    }
    if ByteLength(page.after) > schema.bounds.maxCursorBytes {
      collector.Add(CodeLimitExceeded, "page.after");
    }
    if ByteLength(page.before) > schema.bounds.maxCursorBytes {
      collector.Add(CodeLimitExceeded, "page.before");
    }
  }

  method CheckPageMode(page: PageRequest, collector: Collector, ghost authority: Authority)
    requires collector.Valid()
    modifies collector
    ensures collector.Valid()
    ensures TrailOf(collector, authority) == PageModeTrail(page, old(TrailOf(collector, authority)))
  {
    if page.mode != PageNone && page.mode != PageCursor && page.mode != PageOffset {
      collector.Add(CodeUnsupported, "page.mode");
    }
    match page.mode {
      case PageNone =>
        if page.size != 0 || page.after != "" || page.before != "" || page.offset != 0 {
          collector.Add(CodeConflict, "page");
        }
      case PageCursor =>
        if page.offset != 0 {
          collector.Add(CodeConflict, "page.offset");
        }
      case PageOffset =>
        if page.after != "" || page.before != "" {
          collector.Add(CodeConflict, "page");
        }
      case _ =>
    }
  }

  method CompleteOrder(schema: Schema, sorts: array<SortTerm>, authority: Authority, collector: Collector)
    returns (result: array<SortTerm>)
    requires collector.Valid()
    modifies collector, authority`calls
    ensures collector.Valid() && (result == sorts || fresh(result))
    ensures SortState(TrailOf(collector, authority), result[..])
         == TieRun(schema, authority.options, sorts[..], old(TrailOf(collector, authority)))
  {
    hide Permits;
    result := sorts;
    var names := TermNames(sorts[..]);
    var seen := set n <- names;
    for i := 0 to |schema.sorts|
      invariant collector.Valid() && result == sorts
      invariant TrailOf(collector, authority) == old(TrailOf(collector, authority))
      invariant FirstTieBreaker(schema.sorts, 0) == FirstTieBreaker(schema.sorts, i)
    {
      var definition := schema.sorts[i];
      if definition.tieBreaker {
        if definition.name !in seen {
          if sorts.Length >= schema.bounds.maxSorts {
            collector.Add(CodeLimitExceeded, "sorts");
            return;
          }
          var allowed := authority.Authorized(CapabilitySort, definition.name);
          if !allowed {
            collector.Add(CodeAuthorization, "sorts");
            return;
          }
          result := Append(sorts, SortTerm(definition.name, Ascending, definition.nulls));
        }
        return;
      }
    }
  }

  method CompilePage(schema: Schema, plan: Plan, sorts: array<SortTerm>, authority: Authority, collector: Collector)
    returns (result: array<SortTerm>)
    requires collector.Valid()
    modifies plan`page, collector, authority`calls
    ensures collector.Valid() && (result == sorts || fresh(result))
    ensures plan.page == NormalizedPage(schema, old(plan.page))
    ensures SortState(TrailOf(collector, authority), result[..])
         == PageRun(schema, authority.options, old(plan.page), sorts[..], old(TrailOf(collector, authority)))
  {
    hide PageSupportTrail, PageTokenTrail, PageModeTrail, TieRun;
    if plan.page.mode == PageUnset {
      plan.page := plan.page.(mode := PageNone);
    }
    if plan.page.mode != PageNone && plan.page.size == 0 {
      plan.page := plan.page.(size := schema.pagination.defaultPageSize);
    }
    CheckPageSupport(schema, plan.page, collector, authority);
    CheckPageTokens(schema, plan.page, collector, authority);
    CheckPageMode(plan.page, collector, authority);
    result := sorts;
    if plan.page.mode == PageCursor {
      result := CompleteOrder(schema, sorts, authority, collector);
    }
  }

  /** An admissible page, already normalised. */
  ghost predicate PageOk(schema: Schema, p: PageRequest) {
    && 0 <= p.size <= schema.bounds.maxPageSize
    && ByteLength(p.after) <= schema.bounds.maxCursorBytes
    && ByteLength(p.before) <= schema.bounds.maxCursorBytes
    && match p.mode
       case PageNone => p.size == 0 && p.after == "" && p.before == "" && p.offset == 0
       case PageCursor => schema.pagination.cursor && p.offset == 0 && (p.after == "" || p.before == "")
       case PageOffset =>
         && schema.pagination.offset && 0 <= p.offset <= schema.pagination.maxOffset
         && p.after == "" && p.before == ""
       case _ => false
  }

  lemma PageChecksClean(schema: Schema, p: PageRequest, t: Trail)
    ensures PageModeTrail(p, PageBoundsTrail(schema, p, t)).violations == [] <==>
      t.violations == [] && PageOk(schema, p)
    ensures PageModeTrail(p, PageBoundsTrail(schema, p, t)).calls == t.calls
  {
    var bounds := PageBoundsTrail(schema, p, t);
    assert bounds.violations == [] <==>
      && t.violations == []
      && !(p.mode == PageCursor && !schema.pagination.cursor)
      && !(p.mode == PageOffset && !schema.pagination.offset)
      && !(p.mode == PageOffset && (p.offset < 0 || p.offset > schema.pagination.maxOffset))
      && 0 <= p.size <= schema.bounds.maxPageSize
      && (p.after == "" || p.before == "")
      && ByteLength(p.after) <= schema.bounds.maxCursorBytes
      && ByteLength(p.before) <= schema.bounds.maxCursorBytes;
  }

  // ---------------------------------------------------------------- the total order of a cursor page

  /** What makes the final terms a total order: declared sorts, none twice, the tie-breaker among
      them, each with its declared null placement. */
  ghost predicate TotalOrder(schema: Schema, sorts: seq<SortTerm>) {
    && |sorts| <= schema.bounds.maxSorts
    && Distinct(TermNames(sorts))
    && (forall term <- sorts ::
          && term.name in schema.sortIndex && ValidDirection(term.direction)
          && term.nulls == DeclaredNulls(schema, term.name))
    && exists i :: 0 <= i < |sorts| && IsTieBreaker(sorts[i].name, schema.sorts)
  }

  lemma {:induction false} FirstTieBreakerIsOne(sorts: seq<SortDefinition>, i: nat)
    requires i <= |sorts| && OneTieBreaker(sorts) && forall j :: 0 <= j < i ==> !sorts[j].tieBreaker
    ensures FirstTieBreaker(sorts, i).Some? && sorts[FirstTieBreaker(sorts, i).value].tieBreaker
    decreases |sorts| - i
  {
    if i < |sorts| && !sorts[i].tieBreaker {
      FirstTieBreakerIsOne(sorts, i + 1);
    }
  }

  /** With the tie-breaker already present nothing is added or asked; otherwise there must be room
      for it and permission to use it. */
  ghost predicate TieOk(schema: Schema, options: CompileOptions, sorts: seq<SortTerm>) {
    match FirstTieBreaker(schema.sorts, 0)
    case None => true
    case Some(i) =>
      var name := schema.sorts[i].name;
      name in TermNames(sorts) || (|sorts| < schema.bounds.maxSorts && Permits(options, CapabilitySort, name))
  }

  lemma TieAccepted(schema: Schema, options: CompileOptions, sorts: seq<SortTerm>, t: Trail)
    ensures TieRun(schema, options, sorts, t).trail.violations == [] <==>
      t.violations == [] && TieOk(schema, options, sorts)
  {
  }

  /** Cursor mode on a valid schema always ends with a total order within the sort limit. */
  lemma CursorOrderIsTotal(schema: Schema, options: CompileOptions, sorts: seq<SortTerm>, t: Trail)
    requires ValidSchema(schema) && schema.pagination.cursor && SortsOk(schema, options, sorts)
    requires TieRun(schema, options, CompletedAll(schema, sorts), t).trail.violations == []
    ensures TotalOrder(schema, TieRun(schema, options, CompletedAll(schema, sorts), t).sorts)
  {
    var before := CompletedAll(schema, sorts);
    var after := TieRun(schema, options, before, t).sorts;
    assert TermNames(before) == TermNames(sorts);
    FirstTieBreakerIsOne(schema.sorts, 0);
    var d := schema.sorts[FirstTieBreaker(schema.sorts, 0).value];
    DeclaredSort(schema, d.name);
    hide ValidSchema, Permits, Distinct;
    forall term | term in before
      ensures term.name in schema.sortIndex && ValidDirection(term.direction) && term.nulls == DeclaredNulls(schema,
          term.name)
    {
      var i :| 0 <= i < |before| && before[i] == term;
      assert SortOk(schema, options, sorts[i]);
    }
    if d.name in TermNames(before) {
      var i :| 0 <= i < |before| && TermNames(before)[i] == d.name;
      assert IsTieBreaker(after[i].name, schema.sorts);
    } else {
      assert TermNames(after) == TermNames(before) + [d.name];
      AppendDistinct(TermNames(before), d.name);
      assert IsTieBreaker(after[|before|].name, schema.sorts);
    }
  }

  lemma AppendDistinct<T>(s: seq<T>, x: T)
    requires Distinct(s) && x !in s
    ensures Distinct(s + [x])
  {
    DistinctConcat(s, [x]);
  }

  // ---------------------------------------------------------------- cursor

  predicate PositionOk(schema: Schema, term: SortTerm, position: Value) {
    && ByteLength(position.text) <= schema.bounds.maxStringBytes
    && term.name in schema.sortIndex && schema.sortIndex[term.name] < |schema.sorts|
    && (position.kind == TypeNull || position.kind == schema.sorts[schema.sortIndex[term.name]].kind)
  }

  predicate PositionsOk(schema: Schema, sorts: seq<SortTerm>, positions: seq<Value>, k: nat)
    requires k <= |sorts| == |positions|
  {
    forall i :: 0 <= i < k ==> PositionOk(schema, sorts[i], positions[i])
  }

  predicate HasOneToken(page: PageRequest) {
    page.mode == PageCursor && (page.after == "") != (page.before == "")
  }

  function TokenOf(page: PageRequest): string { if page.before != "" then page.before else page.after }

  predicate StateOk(schema: Schema, page: PageRequest, sorts: seq<SortTerm>, state: CursorState) {
    && state.direction == (if page.before != "" then Backward else Forward)
    && |state.positions| == |sorts|
    && ByteLength(state.policy) <= schema.bounds.maxStringBytes
    && PositionsOk(schema, sorts, state.positions, |sorts|)
  }

  datatype CursorResult = CursorResult(trail: Trail, page: PageRequest, cursor: Option<CursorState>)

  function CursorRun(schema: Schema, options: CompileOptions, page: PageRequest, sorts: seq<SortTerm>,
                     t: Trail): CursorResult {
    if !HasOneToken(page) then CursorResult(t, page, None)
    else if options.decoder.None? then CursorResult(t.Report(CodeCursorFailure, "page"), page, None)
    else
      var token := TokenOf(page);
      var decoded := Trail(t.violations, t.calls + [Decoded(token, schema.revision, sorts)]);
      var state := options.decoder.value(token, schema.revision, sorts);
      if state.None? || !StateOk(schema, page, sorts, state.value) then
        CursorResult(decoded.Report(CodeCursorFailure, "page"), page, None)
      else CursorResult(decoded, page.(after := "", before := ""), state)
  }

  method CheckPositions(schema: Schema, sorts: seq<SortTerm>, positions: seq<Value>) returns (ok: bool)
    requires ValidSchema(schema) && |sorts| == |positions|
    requires forall term <- sorts :: term.name in schema.sortIndex
    ensures ok <==> PositionsOk(schema, sorts, positions, |sorts|)
  {
    hide ValidSchema;
    for i := 0 to |positions|
      invariant PositionsOk(schema, sorts, positions, i)
    {
      var position := positions[i];
      DeclaredSort(schema, sorts[i].name);
      var definition := schema.sorts[schema.sortIndex[sorts[i].name]];
      if ByteLength(position.text) > schema.bounds.maxStringBytes
         || (position.kind != TypeNull && position.kind != definition.kind) {
        assert !PositionOk(schema, sorts[i], positions[i]);
        return false;
      }
    }
    return true;
  }

  method CompileCursor(schema: Schema, plan: Plan, authority: Authority, collector: Collector)
    requires ValidSchema(schema) && collector.Valid() && plan.cursor == null
    requires forall term <- plan.sorts[..] :: term.name in schema.sortIndex
    modifies plan`page, plan`cursor, collector, authority
    ensures collector.Valid()
    ensures CursorResult(TrailOf(collector, authority), plan.page, StateOf(plan.cursor))
         == CursorRun(schema, authority.options, old(plan.page), plan.sorts[..], old(TrailOf(collector, authority)))
    ensures fresh(CursorObjects(plan.cursor)) && CursorObjects(plan.cursor) !! authority.Held
    ensures Gained(authority, {})
  {
    hide ValidSchema, StateOk;
    if plan.page.mode != PageCursor || (plan.page.after == "" && plan.page.before == "")
       || (plan.page.after != "" && plan.page.before != "") {
      return;
    }
    var token, expectedDirection := plan.page.after, Forward;
    if plan.page.before != "" {
      token, expectedDirection := plan.page.before, Backward;
    }
    if authority.options.decoder.None? {
      collector.Add(CodeCursorFailure, "page");
      return;
    }
    var cursor := DecodeState(schema, plan.page, token, expectedDirection, plan.sorts, authority);
    if cursor == null {
      collector.Add(CodeCursorFailure, "page");
      return;
    }
    plan.cursor := cursor;
    plan.page := plan.page.(after := "", before := "");
  }

  /** The decoder gets a copy of the order, and the plan gets a copy of its answer; whatever the decoder
      keeps is not the plan's. Null when there is no answer or it does not fit. */
  method DecodeState(schema: Schema, ghost page: PageRequest, token: string, expectedDirection: CursorDirection,
                     sorts: array<SortTerm>, authority: Authority)
    returns (cursor: CursorCell?)
    requires ValidSchema(schema) && expectedDirection == if page.before != "" then Backward else Forward
    requires authority.options.decoder.Some? && forall term <- sorts[..] :: term.name in schema.sortIndex
    modifies authority
    ensures authority.calls == old(authority.calls) + [Decoded(token, schema.revision, sorts[..])]
    ensures var state := authority.options.decoder.value(token, schema.revision, sorts[..]);
      StateOf(cursor) == if state.Some? && StateOk(schema, page, sorts[..], state.value) then state else None
    ensures fresh(CursorObjects(cursor)) && CursorObjects(cursor) !! authority.Held
    ensures Gained(authority, {})
  {
    var passed := CopyArray(sorts);
    var state := authority.Decode(token, schema.revision, passed);
    var ok := CheckState(schema, page, expectedDirection, sorts[..], state);
    hide StateOk;
    if !ok {
      return null;
    }
    cursor := CloneCursor(state);
  }

  method CheckState(schema: Schema, ghost page: PageRequest, expectedDirection: CursorDirection, sorts: seq<SortTerm>,
                    state: CursorCell?)
    returns (ok: bool)
    requires ValidSchema(schema) && expectedDirection == if page.before != "" then Backward else Forward
    requires forall term <- sorts :: term.name in schema.sortIndex
    ensures ok <==> state != null && StateOk(schema, page, sorts, state.View())
  {
    hide ValidSchema, PositionsOk, ByteLength;
    if state == null || state.direction != expectedDirection || state.positions.Length != |sorts|
       || ByteLength(state.policy) > schema.bounds.maxStringBytes {
      return false;
    }
    ok := CheckPositions(schema, sorts, state.positions[..]);
  }

  /** A supplied token must decode, for this revision and this order, to a matching state. */
  ghost predicate CursorOk(schema: Schema, options: CompileOptions, page: PageRequest, sorts: seq<SortTerm>) {
    HasOneToken(page) ==>
      && options.decoder.Some?
      && var state := options.decoder.value(TokenOf(page), schema.revision, sorts);
         state.Some? && StateOk(schema, page, sorts, state.value)
  }

  lemma CursorAccepted(schema: Schema, options: CompileOptions, page: PageRequest, sorts: seq<SortTerm>, t: Trail)
    ensures var r := CursorRun(schema, options, page, sorts, t);
      && (r.trail.violations == [] <==> t.violations == [] && CursorOk(schema, options, page, sorts))
      && (r.trail.violations == [] && r.cursor.Some? ==>
            && StateOk(schema, page, sorts, r.cursor.value)
            && r.page.after == "" && r.page.before == "")
      && (r.trail.violations == [] ==> (r.cursor.Some? <==> HasOneToken(page)))
  {
  }
}
