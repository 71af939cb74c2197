/** Which codes a run reports and whom it asks, on every request, accepted or not. */
module Verdicts {
  import opened Text
  import opened Types
  import opened Relationships
  import opened Schemas
  import opened Compilation
  import opened FieldPhase
  import opened IncludePhase
  import opened FilterSpec
  import opened SortPhase
  import opened Compile
  import opened Declarations
  import opened DeclarationProofs
  import opened DeclaredFilters

  /** The name is declared, for what it is used as. */
  ghost predicate Offers(c: SchemaConfig, capability: Capability) {
    match capability.kind
    case CapabilityField => exists d <- c.fields :: d.name == capability.name
    case CapabilityFilter => exists d <- c.filters :: d.name == capability.name
    case CapabilitySort => exists d <- c.sorts :: d.name == capability.name
    case CapabilityRelationship => exists names, d ::
      Declares(c.relationships, names, d) && Path(names) == capability.name
  }

  ghost predicate Reported(t: Trail, code: ErrorCode) { exists v <- t.violations :: v.code == code }

  ghost predicate Refused(options: CompileOptions, call: Callback) {
    call.Asked? && options.authorize.Some? && !options.authorize.value(call.capability)
  }

  /** Only declared names were asked about, and only of an authorizer; a refusal is reported exactly when there
      was one; and of three codes exactly these were reported. */
  ghost predicate Honest(c: SchemaConfig, options: CompileOptions, special: set<ErrorCode>, t: Trail) {
    && (forall call <- t.calls :: call.Asked? ==> options.authorize.Some? && Offers(c, call.capability))
    && (Reported(t, CodeAuthorization) <==> exists call <- t.calls :: Refused(options, call))
    && (Reported(t, CodeVersionMismatch) <==> CodeVersionMismatch in special)
    && (Reported(t, CodeCursorFailure) <==> CodeCursorFailure in special)
    && (Reported(t, CodeCostLimit) <==> CodeCostLimit in special)
  }

  /** The codes more than one phase reports, refusals aside. */
  predicate Common(code: ErrorCode) {
    code == CodeInvalidElement || code == CodeUnsupported || code == CodeConflict || code == CodeLimitExceeded
  }

  lemma ReportedNext(t: Trail, code: ErrorCode, path: string, other: ErrorCode)
    ensures Reported(t.Report(code, path), other) <==> Reported(t, other) || other == code
  {
    var after := t.Report(code, path);
    assert after.violations[|t.violations|] == Violation(code, path);
    if Reported(t, other) {
      var v :| v in t.violations && v.code == other;
      assert v in after.violations;
    }
  }

  lemma HonestReport(c: SchemaConfig, options: CompileOptions, special: set<ErrorCode>, t: Trail, code: ErrorCode,
                     path: string)
    requires Honest(c, options, special, t) && Common(code)
    ensures Honest(c, options, special, t.Report(code, path))
  {
    ReportedNext(t, code, path, CodeAuthorization);
    ReportedNext(t, code, path, CodeVersionMismatch);
    ReportedNext(t, code, path, CodeCursorFailure);
    ReportedNext(t, code, path, CodeCostLimit);
    hide Reported, Offers, Refused;
  }

  lemma HonestReportIf(c: SchemaConfig, options: CompileOptions, special: set<ErrorCode>, t: Trail, condition: bool,
                       code: ErrorCode, path: string)
    requires Honest(c, options, special, t) && Common(code)
    ensures Honest(c, options, special, t.ReportIf(condition, code, path))
  {
    hide Honest, Common;
    if condition {
      HonestReport(c, options, special, t, code, path);
    }
  }

  lemma RefusedNext(options: CompileOptions, t: Trail, kind: CapabilityKind, name: string)
    ensures (exists call <- t.Ask(options, kind, name).calls :: Refused(options, call)) <==>
      (exists call <- t.calls :: Refused(options, call)) || !Permits(options, kind, name)
  {
    var after := t.Ask(options, kind, name);
    if call :| call in t.calls && Refused(options, call) {
      assert call in after.calls;
    }
    if !Permits(options, kind, name) {
      assert after.calls[|t.calls|] == Asked(Capability(kind, name)) && after.calls[|t.calls|] in after.calls;
      assert Refused(options, Asked(Capability(kind, name)));
    }
  }

  lemma HonestAsk(c: SchemaConfig, options: CompileOptions, special: set<ErrorCode>, t: Trail, kind: CapabilityKind,
                  name: string, path: string)
    requires Honest(c, options, special, t) && Offers(c, Capability(kind, name))
    ensures Permits(options, kind, name) ==> Honest(c, options, special, t.Ask(options, kind, name))
    ensures !Permits(options, kind, name) ==>
      Honest(c, options, special, t.Ask(options, kind, name).Report(CodeAuthorization, path))
  {
    RefusedNext(options, t, kind, name);
    var asked := t.Ask(options, kind, name);
    assert asked.violations == t.violations;
    ReportedNext(asked, CodeAuthorization, path, CodeAuthorization);
    ReportedNext(asked, CodeAuthorization, path, CodeVersionMismatch);
    ReportedNext(asked, CodeAuthorization, path, CodeCursorFailure);
    ReportedNext(asked, CodeAuthorization, path, CodeCostLimit);
    hide Offers, Refused;
  }

  // ---------------------------------------------------------------- phase by phase

  lemma {:induction false} HonestConstraints(c: SchemaConfig, s: Schema, options: CompileOptions,
                                             special: set<ErrorCode>, cs: seq<Constraint>, k: nat, t: Trail)
    requires Honest(c, options, special, t) && k <= |cs|
    ensures Honest(c, options, special, ConstraintTrail(s, cs, k, t))
  {
    hide Honest, ValidName, ValidType, ByteLength;
    if k > 0 {
      HonestConstraints(c, s, options, special, cs, k - 1, t);
      var path, before := Indexed("constraints", k - 1), ConstraintTrail(s, cs, k - 1, t);
      var one := before.ReportIf(!ValidName(cs[k - 1].name) || !ValidType(cs[k - 1].value.kind), CodeInvalidElement,
                                 path);
      HonestReportIf(c, options, special, before,
                     !ValidName(cs[k - 1].name) || !ValidType(cs[k - 1].value.kind), CodeInvalidElement, path);
      var two := one.ReportIf(cs[k - 1].name in ConstraintNames(cs)[..k - 1], CodeConflict, path);
      HonestReportIf(c, options, special, one, cs[k - 1].name in ConstraintNames(cs)[..k - 1], CodeConflict, path);
      HonestReportIf(c, options, special, two, ByteLength(cs[k - 1].value.text) > s.bounds.maxStringBytes,
                     CodeLimitExceeded, path);
    }
  }

  lemma FieldOffers(c: SchemaConfig, s: Schema, name: string)
    requires Built(c, s)
    ensures name in s.fieldIndex <==> Offers(c, Capability(CapabilityField, name))
  {
    BuiltIsValid(c, s);
    FieldLookup(s, name);
    hide ValidConfig, ValidSchema, Indexes, IndexOf;
    if name in s.fieldIndex {
      assert s.fields[s.fieldIndex[name]] in c.fields;
    }
  }

  lemma {:induction false} HonestFields(c: SchemaConfig, s: Schema, options: CompileOptions, special: set<ErrorCode>,
                                        fields: seq<string>, k: nat, t: Trail)
    requires Built(c, s) && Honest(c, options, special, t) && k <= |fields|
    ensures Honest(c, options, special, FieldRun(s, options, fields, k, t).trail)
  {
    if k > 0 {
      HonestFields(c, s, options, special, fields, k - 1, t);
      var path, before := Indexed("fields", k - 1), FieldRun(s, options, fields, k - 1, t).trail;
      FieldOffers(c, s, fields[k - 1]);
      FieldStepCases(s, options, fields, k - 1, FieldRun(s, options, fields, k - 1, t));
      hide Built, Honest, Offers, Permits, FieldStep, Indexed;
      HonestReport(c, options, special, before, CodeInvalidElement, path);
      HonestReport(c, options, special, before, CodeConflict, path);
      HonestReport(c, options, special, before, CodeUnsupported, path);
      if fields[k - 1] in s.fieldIndex {
        HonestAsk(c, options, special, before, CapabilityField, fields[k - 1], path);
      }
    }
  }

  lemma FieldStepCases(s: Schema, options: CompileOptions, fields: seq<string>, k: nat, st: FieldState)
    requires k < |fields|
    ensures var path, asked := Indexed("fields", k), st.trail.Ask(options, CapabilityField, fields[k]);
      var after := FieldStep(s, options, fields, k, st).trail;
      || after in {st.trail.Report(CodeInvalidElement, path), st.trail.Report(CodeConflict, path),
                   st.trail.Report(CodeUnsupported, path)}
      || (fields[k] in s.fieldIndex
          && after == if Permits(options, CapabilityField, fields[k]) then asked
                      else asked.Report(CodeAuthorization, path))
  {
    hide Permits, FieldDeprecated, Indexed;
  }

  lemma {:induction false} HonestEdges(c: SchemaConfig, options: CompileOptions, special: set<ErrorCode>,
                                       edges: seq<string>, k: nat, path: string, st: EdgeState)
    requires Honest(c, options, special, st.trail) && k <= |edges|
    requires forall e <- edges :: Offers(c, Capability(CapabilityRelationship, e))
    ensures Honest(c, options, special, EdgeRun(options, edges, k, path, st).trail)
  {
    hide Honest, Offers, Permits;
    if k > 0 {
      HonestEdges(c, options, special, edges, k - 1, path, st);
      HonestAsk(c, options, special, EdgeRun(options, edges, k - 1, path, st).trail, CapabilityRelationship,
                edges[k - 1], path);
    }
  }

  lemma EdgesOffered(c: SchemaConfig, s: Schema, path: string)
    requires Built(c, s) && path in s.relationIndex
    ensures forall e <- Prefixes(path) :: Offers(c, Capability(CapabilityRelationship, e))
  {
    BuiltIsValid(c, s);
    DeclaredEdges(s, path);
    hide Prefixes, ValidSchema;
    forall e | e in Prefixes(path) ensures Offers(c, Capability(CapabilityRelationship, e)) {
      var names, d := KeyDeclared(c, s, e);
    }
  }

  lemma {:induction false} HonestIncludes(c: SchemaConfig, s: Schema, options: CompileOptions, special: set<ErrorCode>,
                                          includes: seq<string>, k: nat, t: Trail)
    requires Built(c, s) && Honest(c, options, special, t) && k <= |includes|
    ensures Honest(c, options, special, IncludeRun(s, options, includes, k, t).trail)
  {
    hide Honest, Offers, Prefixes, EdgeRun;
    if k > 0 {
      HonestIncludes(c, s, options, special, includes, k - 1, t);
      var before := IncludeRun(s, options, includes, k - 1, t);
      var path, name := Indexed("includes", k - 1), includes[k - 1];
      HonestReport(c, options, special, before.trail, CodeInvalidElement, path);
      HonestReport(c, options, special, before.trail, CodeLimitExceeded, path);
      HonestReport(c, options, special, before.trail, CodeConflict, path);
      if name in s.relationIndex {
        EdgesOffered(c, s, name);
        HonestEdges(c, options, special, Prefixes(name), |Prefixes(name)|, path,
                    EdgeState(before.trail, before.edges, true));
      }
      hide Built;
    }
  }

  // ---------------------------------------------------------------- the filter walk

  lemma {:induction false} HonestValues(c: SchemaConfig, s: Schema, options: CompileOptions, special: set<ErrorCode>,
                                        d: FilterDefinition, values: seq<Value>, k: nat, path: string, t: Trail)
    requires Honest(c, options, special, t) && k <= |values|
    ensures Honest(c, options, special, ValueRun(s, d, values, k, path, t))
  {
    hide Honest, ByteLength;
    if k > 0 {
      HonestValues(c, s, options, special, d, values, k - 1, path, t);
      HonestValue(c, s, options, special, d, values, k - 1, path, ValueRun(s, d, values, k - 1, path, t));
    }
  }

  lemma HonestValue(c: SchemaConfig, s: Schema, options: CompileOptions, special: set<ErrorCode>,
                    d: FilterDefinition, values: seq<Value>, k: nat, path: string, t: Trail)
    requires Honest(c, options, special, t) && k < |values|
    ensures Honest(c, options, special, ValueStep(s, d, values, k, path, t))
  {
    hide Honest, ByteLength;
    var v := values[k];
    var one := t.ReportIf(ValueKey(v) in ValueKeys(values, k), CodeConflict, path);
    HonestReportIf(c, options, special, t, ValueKey(v) in ValueKeys(values, k), CodeConflict, path);
    var two := one.ReportIf(v.kind != d.kind, CodeInvalidElement, path);
    HonestReportIf(c, options, special, one, v.kind != d.kind, CodeInvalidElement, path);
    var three := two.ReportIf(ByteLength(v.text) > s.bounds.maxStringBytes, CodeLimitExceeded, path);
    HonestReportIf(c, options, special, two, ByteLength(v.text) > s.bounds.maxStringBytes, CodeLimitExceeded, path);
    HonestReportIf(c, options, special, three, v.kind == TypeString && v.text == "" && !d.allowEmpty,
                   CodeInvalidElement, path);
  }

  lemma HonestOperands(c: SchemaConfig, s: Schema, options: CompileOptions, special: set<ErrorCode>,
                       d: FilterDefinition, p: Predicate, path: string, t: Trail)
    requires Honest(c, options, special, t)
    ensures Honest(c, options, special, ValuesRun(s, d, p, path, t))
  {
    hide Honest, ValueRun;
    var count := |p.values|;
    var many := Want(p.operator).None? && (count == 0 || count > s.bounds.maxMembership);
    HonestReportIf(c, options, special, t, many, CodeLimitExceeded, path);
    HonestReportIf(c, options, special, t.ReportIf(many, CodeLimitExceeded, path),
                   Want(p.operator).Some? && count != Want(p.operator).value, CodeConflict, path);
    HonestValues(c, s, options, special, d, p.values, |p.values|, path, ArityRun(s, p, path, t));
  }

  lemma HonestDeclared(c: SchemaConfig, s: Schema, options: CompileOptions, special: set<ErrorCode>,
                       d: FilterDefinition, node: FilterExpr, path: string, st: WalkState)
    requires Honest(c, options, special, st.trail) && node.leaf.Some?
    ensures Honest(c, options, special, WalkDeclared(s, d, node, path, st).st.trail)
  {
    hide Honest, ValuesRun, FilterKey;
    var p := node.leaf.value;
    HonestReport(c, options, special, st.trail, CodeConflict, path);
    HonestReportIf(c, options, special, st.trail, p.operator !in d.operators, CodeUnsupported, path);
    var used := st.trail.ReportIf(p.operator !in d.operators, CodeUnsupported, path);
    HonestReport(c, options, special, used, CodeLimitExceeded, path);
    HonestOperands(c, s, options, special, d, p, path, used);
  }

  lemma HonestLeaf(c: SchemaConfig, s: Schema, options: CompileOptions, special: set<ErrorCode>, node: FilterExpr,
                   path: string, st: WalkState)
    requires Built(c, s) && Honest(c, options, special, st.trail) && node.leaf.Some?
    ensures Honest(c, options, special, WalkLeaf(s, options, node, path, st).st.trail)
  {
    var name := node.leaf.value.name;
    FilterOffers(c, s, name);
    hide Built, Honest, Offers, Permits, WalkDeclared;
    HonestReport(c, options, special, st.trail, CodeInvalidElement, path);
    if name in s.filterIndex && s.filterIndex[name] < |s.filters| {
      HonestAsk(c, options, special, st.trail, CapabilityFilter, name, path);
      if Permits(options, CapabilityFilter, name) {
        var asked := st.(trail := st.trail.Ask(options, CapabilityFilter, name));
        HonestReport(c, options, special, asked.trail, CodeUnsupported, path);
        HonestDeclared(c, s, options, special, s.filters[s.filterIndex[name]], node, path, asked);
      }
    }
  }

  lemma FilterOffers(c: SchemaConfig, s: Schema, name: string)
    requires Built(c, s)
    ensures name in s.filterIndex <==> Offers(c, Capability(CapabilityFilter, name))
    ensures name in s.filterIndex ==> s.filterIndex[name] < |s.filters|
  {
    BuiltIsValid(c, s);
    FilterLookup(s, name);
    hide ValidConfig, ValidSchema, Indexes, IndexOf;
    if name in s.filterIndex {
      assert s.filters[s.filterIndex[name]] in c.filters;
    }
  }

  lemma {:induction false} HonestNode(c: SchemaConfig, s: Schema, options: CompileOptions, special: set<ErrorCode>,
                                      node: FilterExpr, path: string, depth: int, st: WalkState)
    requires Built(c, s) && Honest(c, options, special, st.trail)
    ensures Honest(c, options, special, WalkNode(s, options, node, path, depth, st).st.trail)
    decreases node, |node.children| + 1
  {
    hide Built, Honest, WalkLeaf;
    var visited := st.(nodes := st.nodes + 1);
    HonestReport(c, options, special, visited.trail, CodeLimitExceeded, path);
    HonestReport(c, options, special, visited.trail, CodeConflict, path);
    if node.leaf.Some? {
      HonestLeaf(c, s, options, special, node, path, visited);
    } else if node.children != [] {
      var one := visited.trail.ReportIf(node.logic !in s.allowedLogic, CodeUnsupported, path);
      HonestReportIf(c, options, special, visited.trail, node.logic !in s.allowedLogic, CodeUnsupported, path);
      HonestReportIf(c, options, special, one, node.logic == LogicNot && |node.children| != 1, CodeConflict, path);
      var two := one.ReportIf(node.logic == LogicNot && |node.children| != 1, CodeConflict, path);
      HonestChildren(c, s, options, special, node, 0, path, depth, visited.(trail := two), []);
    }
  }

  lemma {:induction false} HonestChildren(c: SchemaConfig, s: Schema, options: CompileOptions, special: set<ErrorCode>,
                                          node: FilterExpr, i: nat, path: string, depth: int, st: WalkState,
                                          compiled: seq<FilterExpr>)
    requires Built(c, s) && Honest(c, options, special, st.trail) && i <= |node.children|
    ensures Honest(c, options, special, WalkChildren(s, options, node, i, path, depth, st, compiled).st.trail)
    decreases node, |node.children| - i
  {
    hide Built, Honest, WalkNode;
    if i < |node.children| {
      HonestReport(c, options, special, st.trail, CodeLimitExceeded, path);
      if st.nodes < s.bounds.maxFilterNodes {
        var childPath := Indexed(path + ".children", i);
        HonestNode(c, s, options, special, node.children[i], childPath, depth + 1, st);
        var child := WalkNode(s, options, node.children[i], childPath, depth + 1, st);
        HonestChildren(c, s, options, special, node, i + 1, path, depth, child.st,
                       if child.filter.Some? then compiled + [child.filter.value] else compiled);
      }
    }
  }

  // ---------------------------------------------------------------- sorts and pages

  lemma SortOffers(c: SchemaConfig, s: Schema, name: string)
    requires Built(c, s)
    ensures name in s.sortIndex <==> Offers(c, Capability(CapabilitySort, name))
  {
    BuiltIsValid(c, s);
    DeclaredSort(s, name);
    hide ValidConfig, ValidSchema, Indexes, IndexOf;
    if name in s.sortIndex {
      assert s.sorts[s.sortIndex[name]] in c.sorts;
    }
  }

  lemma HonestSort(c: SchemaConfig, s: Schema, options: CompileOptions, special: set<ErrorCode>, sorts: seq<SortTerm>,
                   k: nat, st: SortState)
    requires Built(c, s) && Honest(c, options, special, st.trail) && k < |sorts|
    ensures Honest(c, options, special, SortStep(s, options, sorts, k, st).trail)
  {
    var path, name := Indexed("sorts", k), sorts[k].name;
    SortOffers(c, s, name);
    hide *;
    HonestReport(c, options, special, st.trail, CodeInvalidElement, path);
    HonestReport(c, options, special, st.trail, CodeConflict, path);
    if name in s.sortIndex {
      HonestAsk(c, options, special, st.trail, CapabilitySort, name, path);
    }
    if Permits(options, CapabilitySort, name) && name in s.sortIndex {
      var asked := st.trail.Ask(options, CapabilitySort, name);
      HonestReport(c, options, special, asked, CodeInvalidElement, path);
      HonestReport(c, options, special, asked, CodeUnsupported, path);
    }
    SortStepCases(s, options, sorts, k, st);
  }

  lemma SortStepCases(s: Schema, options: CompileOptions, sorts: seq<SortTerm>, k: nat, st: SortState)
    requires k < |sorts|
    ensures var path, name := Indexed("sorts", k), sorts[k].name;
      var asked := st.trail.Ask(options, CapabilitySort, name);
      var after := SortStep(s, options, sorts, k, st).trail;
      || after in {st.trail.Report(CodeInvalidElement, path), st.trail.Report(CodeConflict, path)}
      || (name in s.sortIndex && !Permits(options, CapabilitySort, name) && after == asked.Report(CodeAuthorization,
          path))
      || (name in s.sortIndex && Permits(options, CapabilitySort, name)
          && after in {asked, asked.Report(CodeInvalidElement, path), asked.Report(CodeUnsupported, path)})
  {
    hide Permits, TermNames, Completed, DeclaredNulls, Indexed;
  }

  lemma {:induction false} HonestSorts(c: SchemaConfig, s: Schema, options: CompileOptions, special: set<ErrorCode>,
                                       sorts: seq<SortTerm>, k: nat, t: Trail)
    requires Built(c, s) && Honest(c, options, special, t) && k <= |sorts|
    ensures Honest(c, options, special, SortRun(s, options, sorts, k, t).trail)
  {
    hide Built, Honest, SortStep;
    if k > 0 {
      HonestSorts(c, s, options, special, sorts, k - 1, t);
      HonestSort(c, s, options, special, sorts, k - 1, SortRun(s, options, sorts, k - 1, t));
    }
  }

  lemma HonestPage(c: SchemaConfig, s: Schema, options: CompileOptions, special: set<ErrorCode>, p: PageRequest,
                   t: Trail)
    requires Honest(c, options, special, t)
    ensures Honest(c, options, special, PageModeTrail(p, PageBoundsTrail(s, p, t)))
  {
    hide Honest, ByteLength, PageModeTrail, PageSupportTrail, PageTokenTrail;
    HonestSupport(c, s, options, special, p, t);
    HonestTokens(c, s, options, special, p, PageSupportTrail(s, p, t));
    HonestMode(c, options, special, p, PageBoundsTrail(s, p, t));
  }

  lemma HonestSupport(c: SchemaConfig, s: Schema, options: CompileOptions, special: set<ErrorCode>, p: PageRequest,
                      t: Trail)
    requires Honest(c, options, special, t)
    ensures Honest(c, options, special, PageSupportTrail(s, p, t))
  {
    hide Honest;
    var a, b := p.mode == PageCursor && !s.pagination.cursor, p.mode == PageOffset && !s.pagination.offset;
    var x := p.mode == PageOffset && (p.offset < 0 || p.offset > s.pagination.maxOffset);
    HonestReportIf(c, options, special, t, a, CodeUnsupported, "page.mode");
    var one := t.ReportIf(a, CodeUnsupported, "page.mode");
    HonestReportIf(c, options, special, one, b, CodeUnsupported, "page.mode");
    var two := one.ReportIf(b, CodeUnsupported, "page.mode");
    HonestReportIf(c, options, special, two, x, CodeLimitExceeded, "page.offset");
    HonestReportIf(c, options, special, two.ReportIf(x, CodeLimitExceeded, "page.offset"),
                   p.size < 0 || p.size > s.bounds.maxPageSize, CodeLimitExceeded, "page.size");
  }

  lemma HonestTokens(c: SchemaConfig, s: Schema, options: CompileOptions, special: set<ErrorCode>, p: PageRequest,
                     t: Trail)
    requires Honest(c, options, special, t)
    ensures Honest(c, options, special, PageTokenTrail(s, p, t))
  {
    hide Honest, ByteLength;
    var a, b := p.after != "" && p.before != "", ByteLength(p.after) > s.bounds.maxCursorBytes;
    HonestReportIf(c, options, special, t, a, CodeConflict, "page");
    var one := t.ReportIf(a, CodeConflict, "page");
    HonestReportIf(c, options, special, one, b, CodeLimitExceeded, "page.after");
    HonestReportIf(c, options, special, one.ReportIf(b, CodeLimitExceeded, "page.after"),
                   ByteLength(p.before) > s.bounds.maxCursorBytes, CodeLimitExceeded, "page.before");
  }

  lemma HonestMode(c: SchemaConfig, options: CompileOptions, special: set<ErrorCode>, p: PageRequest, t: Trail)
    requires Honest(c, options, special, t)
    ensures Honest(c, options, special, PageModeTrail(p, t))
  {
    hide Honest;
    var a := p.mode != PageNone && p.mode != PageCursor && p.mode != PageOffset;
    var b := p.mode == PageNone && (p.size != 0 || p.after != "" || p.before != "" || p.offset != 0);
    HonestReportIf(c, options, special, t, a, CodeUnsupported, "page.mode");
    var one := t.ReportIf(a, CodeUnsupported, "page.mode");
    HonestReportIf(c, options, special, one, b, CodeConflict, "page");
    var two := one.ReportIf(b, CodeConflict, "page");
    HonestReportIf(c, options, special, two, p.mode == PageCursor && p.offset != 0, CodeConflict, "page.offset");
    HonestReportIf(c, options, special,
                   two.ReportIf(p.mode == PageCursor && p.offset != 0, CodeConflict, "page.offset"),
                     p.mode == PageOffset && (p.after != "" || p.before != ""), CodeConflict, "page");
  }

  lemma HonestTie(c: SchemaConfig, s: Schema, options: CompileOptions, special: set<ErrorCode>, sorts: seq<SortTerm>,
                  t: Trail)
    requires Built(c, s) && Honest(c, options, special, t)
    ensures Honest(c, options, special, TieRun(s, options, sorts, t).trail)
  {
    var tie := FirstTieBreaker(s.sorts, 0);
    HonestReport(c, options, special, t, CodeLimitExceeded, "sorts");
    if tie.Some? {
      assert s.sorts[tie.value] in c.sorts;
      HonestAsk(c, options, special, t, CapabilitySort, s.sorts[tie.value].name, "sorts");
    }
    hide Built, Honest, FirstTieBreaker, TermNames, Permits;
  }

  // ---------------------------------------------------------------- the whole run

  lemma ReportedIf(t: Trail, condition: bool, code: ErrorCode, path: string, other: ErrorCode)
    ensures Reported(t.ReportIf(condition, code, path), other) <==> Reported(t, other) || (condition && other == code)
  {
    ReportedNext(t, code, path, other);
    hide Reported;
  }

  lemma HonestStart(c: SchemaConfig, s: Schema, options: CompileOptions, request: Request)
    requires Built(c, s)
    ensures var stale := request.schemaRevision.Some? && request.schemaRevision.value != c.revision;
      Honest(c, options, if stale then {CodeVersionMismatch} else {}, RevisionTrail(s, request))
  {
    assert s.revision == c.revision;
    hide Built, Offers, Refused;
  }

  lemma HonestSelection(c: SchemaConfig, s: Schema, options: CompileOptions, request: Request)
    requires Built(c, s)
    ensures var stale := request.schemaRevision.Some? && request.schemaRevision.value != c.revision;
      Honest(c, options, if stale then {CodeVersionMismatch} else {}, SelectionRun(s, request, options).trail)
  {
    var stale := request.schemaRevision.Some? && request.schemaRevision.value != c.revision;
    var special := if stale then {CodeVersionMismatch} else {};
    HonestStart(c, s, options, request);
    var start := RevisionTrail(s, request);
    hide Built, Honest, FieldRun, ConstraintTrail, EffectiveFields, Truncated, RevisionTrail;
    var kept := Truncated(options.constraints, s.bounds.maxValues);
    var many := |options.constraints| > s.bounds.maxValues;
    HonestReportIf(c, options, special, start, many, CodeLimitExceeded, "constraints");
    HonestConstraints(c, s, options, special, kept, |kept|, start.ReportIf(many, CodeLimitExceeded, "constraints"));
    var t := ConstraintsRun(s, options.constraints, start);
    var fields := EffectiveFields(s, request.fields);
    HonestReportIf(c, options, special, t, |fields| > s.bounds.maxFields, CodeLimitExceeded, "fields");
    HonestFields(c, s, options, special, Truncated(fields, s.bounds.maxFields), |Truncated(fields, s.bounds.maxFields)|,
                 t.ReportIf(|fields| > s.bounds.maxFields, CodeLimitExceeded, "fields"));
  }

  lemma HonestRows(c: SchemaConfig, s: Schema, options: CompileOptions, special: set<ErrorCode>, request: Request)
    requires Built(c, s) && Honest(c, options, special, SelectionRun(s, request, options).trail)
    ensures Honest(c, options, special, FilteringRun(s, request, options).0)
  {
    hide Built, Honest, SelectionRun, IncludeRun, WalkNode, Truncated;
    var t := SelectionRun(s, request, options).trail;
    if request.includes.Some? {
      var includes := request.includes.value;
      var kept, many := Truncated(includes, s.bounds.maxIncludes), |includes| > s.bounds.maxIncludes;
      HonestReportIf(c, options, special, t, many, CodeLimitExceeded, "includes");
      HonestIncludes(c, s, options, special, kept, |kept|, t.ReportIf(many, CodeLimitExceeded, "includes"));
    }
    if request.filter.Some? {
      HonestNode(c, s, options, special, request.filter.value, "filter", 1,
                 WalkState(InclusionRun(s, request, options).trail, 0, 0, {}));
    }
  }

  lemma HonestOrdering(c: SchemaConfig, s: Schema, options: CompileOptions, special: set<ErrorCode>, request: Request)
    requires Built(c, s) && Honest(c, options, special, FilteringRun(s, request, options).0)
    ensures Honest(c, options, special, OrderingRun(s, request, options).trail)
  {
    hide Built, Honest, FilteringRun, SortRun, EffectiveSorts, Truncated, NormalizedPage, PageModeTrail,
      PageBoundsTrail, TieRun;
    var t, terms := FilteringRun(s, request, options).0, EffectiveSorts(s, request.sorts);
    var kept, many := Truncated(terms, s.bounds.maxSorts), |terms| > s.bounds.maxSorts;
    HonestReportIf(c, options, special, t, many, CodeLimitExceeded, "sorts");
    HonestSorts(c, s, options, special, kept, |kept|, t.ReportIf(many, CodeLimitExceeded, "sorts"));
    var sorted, p := SortsRun(s, options, request.sorts, t), NormalizedPage(s, request.page);
    HonestPage(c, s, options, special, p, sorted.trail);
    HonestTie(c, s, options, special, sorted.sorts, PageModeTrail(p, PageBoundsTrail(s, p, sorted.trail)));
  }

  /** The token of a cursor page is not accepted: no decoder, no answer, or one that does not fit the order. */
  ghost predicate TokenFails(s: Schema, request: Request, options: CompileOptions) {
    !CursorOk(s, options, NormalizedPage(s, request.page), OrderingRun(s, request, options).sorts)
  }

  lemma HonestPaging(c: SchemaConfig, s: Schema, request: Request, options: CompileOptions)
    requires Built(c, s)
    ensures var stale := request.schemaRevision.Some? && request.schemaRevision.value != c.revision;
      Honest(c, options, (if stale then {CodeVersionMismatch} else {})
                         + (if TokenFails(s, request, options) then {CodeCursorFailure} else {}),
             PagingRun(s, request, options).trail)
  {
    var stale := request.schemaRevision.Some? && request.schemaRevision.value != c.revision;
    var special := if stale then {CodeVersionMismatch} else {};
    HonestSelection(c, s, options, request);
    HonestRows(c, s, options, special, request);
    HonestOrdering(c, s, options, special, request);
    HonestCursor(c, s, options, special, NormalizedPage(s, request.page), OrderingRun(s, request, options));
    hide Built, Honest, OrderingRun, CursorRun, NormalizedPage, CursorOk;
    assert special + {} == special;
  }

  lemma CostLast(s: Schema, request: Request, options: CompileOptions, code: ErrorCode)
    ensures var run, paging := CompileRun(s, request, options), PagingRun(s, request, options);
      && (Reported(run.trail, code) <==>
            Reported(paging.trail, code) || (run.plan.cost > s.bounds.maxCost as int && code == CodeCostLimit))
      && run.trail.calls == paging.trail.calls
  {
    var run, paging := CompileRun(s, request, options), PagingRun(s, request, options);
    ReportedIf(paging.trail, run.plan.cost > s.bounds.maxCost as int, CodeCostLimit, "query", code);
    hide PagingRun, SelectionRun, InclusionRun, FilteringRun, OrderingRun, TotalCost, ExecutionFields, Reported;
  }

  /** On every request: another revision, a failing token, a cost over the limit and a refused question are each
      reported exactly when there is one; and nobody is asked about a name that is not declared. */
  lemma CodesAreExact(c: SchemaConfig, s: Schema, request: Request, options: CompileOptions)
    requires Built(c, s)
    ensures var run := CompileRun(s, request, options);
      && (Reported(run.trail, CodeVersionMismatch) <==>
            request.schemaRevision.Some? && request.schemaRevision.value != c.revision)
      && (Reported(run.trail, CodeCursorFailure) <==> TokenFails(s, request, options))
      && (Reported(run.trail, CodeCostLimit) <==> run.plan.cost > Limit(c.bounds.maxCost as int, 1000))
      && (Reported(run.trail, CodeAuthorization) <==> exists call <- run.trail.calls :: Refused(options, call))
      && (forall call <- run.trail.calls :: call.Asked? ==> options.authorize.Some? && Offers(c, call.capability))
  {
    HonestPaging(c, s, request, options);
    BuiltBounds(c, s);
    hide Built, CompileRun, PagingRun, TokenFails, Limit, Offers, Refused, Reported;
    forall code
      ensures var run, paging := CompileRun(s, request, options), PagingRun(s, request, options);
        && (Reported(run.trail, code) <==>
              Reported(paging.trail, code) || (run.plan.cost > s.bounds.maxCost as int && code == CodeCostLimit))
        && run.trail.calls == paging.trail.calls
    {
      CostLast(s, request, options, code);
    }
  }

  lemma HonestCursor(c: SchemaConfig, s: Schema, options: CompileOptions, special: set<ErrorCode>, p: PageRequest,
                     order: SortState)
    requires Honest(c, options, special, order.trail)
    requires CodeCursorFailure !in special
    ensures var failed := !CursorOk(s, options, p, order.sorts);
      Honest(c, options, if failed then special + {CodeCursorFailure} else special,
             CursorRun(s, options, p, order.sorts, order.trail).trail)
  {
    hide StateOk, Offers;
    var t := order.trail;
    if HasOneToken(p) {
      var called := if options.decoder.None? then t
                    else Trail(t.violations, t.calls + [Decoded(TokenOf(p), s.revision, order.sorts)]);
      assert Honest(c, options, special, called) by { SameVerdicts(c, options, special, t, called); }
      forall code ensures Reported(called.Report(CodeCursorFailure, "page"), code) <==>
          Reported(called, code) || code == CodeCursorFailure
      {
        ReportedNext(called, CodeCursorFailure, "page", code);
      }
      hide Reported;
    }
  }

  lemma SameVerdicts(c: SchemaConfig, options: CompileOptions, special: set<ErrorCode>, t: Trail, called: Trail)
    requires Honest(c, options, special, t) && called.violations == t.violations
    requires called.calls == t.calls || exists call: Callback :: !call.Asked? && called.calls == t.calls + [call]
    ensures Honest(c, options, special, called)
  {
    if call :| call in t.calls && Refused(options, call) {
      assert call in called.calls;
    }
    hide Offers;
  }
}
