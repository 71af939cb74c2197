/** What is reported about each single element of a request, and whether anyone is asked about it, in terms of the
    declarations: the code of every refusal and the order in which the causes are looked for. */
module ElementVerdicts {
  import opened Text
  import opened Types
  import opened Violations
  import opened Relationships
  import opened Schemas
  import opened Compilation
  import opened FieldPhase
  import opened IncludePhase
  import opened FilterSpec
  import opened FilterProofs
  import opened SortPhase
  import opened Declarations
  import opened DeclarationProofs
  import opened DeclaredFilters

  /** One question, if there is anyone to ask. */
  function Question(options: CompileOptions, kind: CapabilityKind, name: string): seq<Callback> {
    if options.authorize.Some? then [Asked(Capability(kind, name))] else []
  }

  /** A trail after these reports and questions. */
  predicate Grows(before: Trail, after: Trail, violations: seq<Violation>, calls: seq<Callback>) {
    after.violations == before.violations + violations && after.calls == before.calls + calls
  }

  // ---------------------------------------------------------------- fields

  ghost function FieldCodes(c: SchemaConfig, options: CompileOptions, names: seq<string>, k: nat): seq<ErrorCode>
    requires k < |names|
  {
    if forall d <- c.fields :: d.name != names[k] then [CodeInvalidElement]
    else if exists j :: 0 <= j < k && names[j] == names[k] then [CodeConflict]
    else if exists d <- c.fields :: d.name == names[k] && d.deprecated then [CodeUnsupported]
    else if !Allowed(options, CapabilityField, names[k]) then [CodeAuthorization]
    else []
  }

  /** Asked about: declared, current, and not asked for before. */
  ghost function FieldQuestion(c: SchemaConfig, options: CompileOptions, names: seq<string>, k: nat): seq<Callback>
    requires k < |names|
  {
    var codes := FieldCodes(c, options, names, k);
    if codes == [] || codes == [CodeAuthorization] then Question(options, CapabilityField, names[k]) else []
  }

  lemma FieldJudged(c: SchemaConfig, s: Schema, options: CompileOptions, names: seq<string>, k: nat, st: FieldState)
    requires Built(c, s) && k < |names|
    ensures var after := FieldStep(s, options, names, k, st); var codes := FieldCodes(c, options, names, k);
      && Grows(st.trail, after.trail, About(Indexed("fields", k), codes), FieldQuestion(c, options, names, k))
      && after.response == if codes == [] then st.response + [names[k]] else st.response
  {
    FieldIsDeclared(c, s, names[k]);
    assert names[k] in names[..k] <==> exists j :: 0 <= j < k && names[j] == names[k];
    hide Built, FieldDeprecated, Indexed;
  }

  lemma FieldIsDeclared(c: SchemaConfig, s: Schema, name: string)
    requires Built(c, s)
    ensures name in s.fieldIndex <==> exists d <- c.fields :: d.name == name
    ensures FieldDeprecated(s, name) <==> exists d <- c.fields :: d.name == name && d.deprecated
  {
    BuiltIsValid(c, s);
    FieldLookup(s, name);
    hide ValidConfig, ValidSchema, Indexes, IndexOf;
    if name in s.fieldIndex {
      assert s.fields[s.fieldIndex[name]] in c.fields;
    }
  }

  ghost function FieldsReport(c: SchemaConfig, options: CompileOptions, names: seq<string>, k: nat): seq<Violation>
    requires k <= |names|
  {
    if k == 0 then []
    else FieldsReport(c, options, names, k - 1) + About(Indexed("fields", k - 1), FieldCodes(c, options, names, k - 1))
  }

  ghost function FieldsQuestions(c: SchemaConfig, options: CompileOptions, names: seq<string>, k: nat): seq<Callback>
    requires k <= |names|
  {
    if k == 0 then [] else FieldsQuestions(c, options, names, k - 1) + FieldQuestion(c, options, names, k - 1)
  }

  /** The field phase reports and asks exactly this, field by field. */
  lemma {:induction false} FieldsJudged(c: SchemaConfig, s: Schema, options: CompileOptions, names: seq<string>, k: nat,
                                        t: Trail)
    requires Built(c, s) && k <= |names|
    ensures Grows(t, FieldRun(s, options, names, k, t).trail, FieldsReport(c, options, names, k),
                  FieldsQuestions(c, options, names, k))
  {
    hide Built, FieldStep, FieldCodes, FieldQuestion;
    if k > 0 {
      FieldsJudged(c, s, options, names, k - 1, t);
      FieldJudged(c, s, options, names, k - 1, FieldRun(s, options, names, k - 1, t));
    }
  }

  // ---------------------------------------------------------------- constraints

  ghost function ConstraintCodes(c: SchemaConfig, cs: seq<Constraint>, k: nat): seq<ErrorCode>
    requires k < |cs|
  {
    When(!(Name(cs[k].name) && cs[k].value.kind in VALUE_TYPES), CodeInvalidElement)
    + When(exists j :: 0 <= j < k && cs[j].name == cs[k].name, CodeConflict)
    + When(ByteLength(cs[k].value.text) > Limit(c.bounds.maxStringBytes, 4096), CodeLimitExceeded)
  }

  ghost function ConstraintsReport(c: SchemaConfig, cs: seq<Constraint>, k: nat): seq<Violation>
    requires k <= |cs|
  {
    if k == 0 then []
    else ConstraintsReport(c, cs, k - 1) + About(Indexed("constraints", k - 1), ConstraintCodes(c, cs, k - 1))
  }

  lemma ConstraintJudged(c: SchemaConfig, s: Schema, cs: seq<Constraint>, k: nat, t: Trail)
    requires Built(c, s) && k < |cs|
    ensures Grows(t, ConstraintStep(s, cs, k, t), About(Indexed("constraints", k), ConstraintCodes(c, cs, k)), [])
  {
    BuiltBounds(c, s);
    NamesAreNames(cs[k].name);
    assert cs[k].name in ConstraintNames(cs)[..k] <==> exists j :: 0 <= j < k && cs[j].name == cs[k].name by {
      if j :| 0 <= j < k && cs[j].name == cs[k].name {
        assert ConstraintNames(cs)[..k][j] == cs[k].name;
      }
    }
    hide Built, Indexed, ConstraintNames, ByteLength, Limit, ValidName, Name;
  }

  lemma {:induction false} ConstraintsJudged(c: SchemaConfig, s: Schema, cs: seq<Constraint>, k: nat, t: Trail)
    requires Built(c, s) && k <= |cs|
    ensures Grows(t, ConstraintTrail(s, cs, k, t), ConstraintsReport(c, cs, k), [])
  {
    hide Built, ConstraintStep, ConstraintCodes;
    if k > 0 {
      ConstraintsJudged(c, s, cs, k - 1, t);
      ConstraintJudged(c, s, cs, k - 1, ConstraintTrail(s, cs, k - 1, t));
    }
  }

  // ---------------------------------------------------------------- sorts

  ghost function SortCodes(c: SchemaConfig, options: CompileOptions, terms: seq<SortTerm>, k: nat): seq<ErrorCode>
    requires k < |terms|
  {
    var t := terms[k];
    if forall d <- c.sorts :: d.name != t.name then [CodeInvalidElement]
    else if exists j :: 0 <= j < k && terms[j].name == t.name then [CodeConflict]
    else if t.direction !in {Ascending, Descending} then [CodeInvalidElement]
    else if !Allowed(options, CapabilitySort, t.name) then [CodeAuthorization]
    else if t.nulls !in {NullsUnset, NullsFirst, NullsLast} then [CodeInvalidElement]
    else if t.nulls != NullsUnset && exists d <- c.sorts ::
      d.name == t.name && d.nulls != t.nulls then [CodeUnsupported]
    else []
  }

  /** Asked about: declared, not ordered by before, in a known direction. */
  ghost function SortQuestion(c: SchemaConfig, options: CompileOptions, terms: seq<SortTerm>, k: nat): seq<Callback>
    requires k < |terms|
  {
    var t := terms[k];
    if && (exists d <- c.sorts :: d.name == t.name) && (forall j :: 0 <= j < k ==> terms[j].name != t.name)
       && t.direction in {Ascending, Descending}
    then Question(options, CapabilitySort, t.name) else []
  }

  lemma SortIsDeclared(c: SchemaConfig, s: Schema, t: SortTerm)
    requires Built(c, s)
    ensures t.name in s.sortIndex <==> exists d <- c.sorts :: d.name == t.name
    ensures t.name in s.sortIndex ==>
      (t.nulls != DeclaredNulls(s, t.name) <==> exists d <- c.sorts :: d.name == t.name && d.nulls != t.nulls)
  {
    BuiltIsValid(c, s);
    DeclaredSort(s, t.name);
    hide ValidConfig, ValidSchema, Indexes, IndexOf;
    if t.name in s.sortIndex {
      assert s.sorts[s.sortIndex[t.name]] in c.sorts;
    }
  }

  lemma SortJudged(c: SchemaConfig, s: Schema, options: CompileOptions, terms: seq<SortTerm>, k: nat, st: SortState)
    requires Built(c, s) && k < |terms|
    ensures var after := SortStep(s, options, terms, k, st);
      Grows(st.trail, after.trail, About(Indexed("sorts", k), SortCodes(c, options, terms, k)),
            SortQuestion(c, options, terms, k))
  {
    SortIsDeclared(c, s, terms[k]);
    assert terms[k].name in TermNames(terms)[..k] <==> exists j :: 0 <= j < k && terms[j].name == terms[k].name by {
      if j :| 0 <= j < k && terms[j].name == terms[k].name {
        assert TermNames(terms)[..k][j] == terms[k].name;
      }
    }
    hide Built, Indexed, TermNames, DeclaredNulls, Completed;
  }

  ghost function SortsReport(c: SchemaConfig, options: CompileOptions, terms: seq<SortTerm>, k: nat): seq<Violation>
    requires k <= |terms|
  {
    if k == 0 then []
    else SortsReport(c, options, terms, k - 1) + About(Indexed("sorts", k - 1), SortCodes(c, options, terms, k - 1))
  }

  ghost function SortsQuestions(c: SchemaConfig, options: CompileOptions, terms: seq<SortTerm>, k: nat): seq<Callback>
    requires k <= |terms|
  {
    if k == 0 then [] else SortsQuestions(c, options, terms, k - 1) + SortQuestion(c, options, terms, k - 1)
  }

  /** The sort phase reports and asks exactly this, term by term. */
  lemma {:induction false} SortsJudged(c: SchemaConfig, s: Schema, options: CompileOptions, terms: seq<SortTerm>,
                                       k: nat, t: Trail)
    requires Built(c, s) && k <= |terms|
    ensures Grows(t, SortRun(s, options, terms, k, t).trail, SortsReport(c, options, terms, k),
                  SortsQuestions(c, options, terms, k))
  {
    hide Built, SortStep, SortCodes, SortQuestion;
    if k > 0 {
      SortsJudged(c, s, options, terms, k - 1, t);
      SortJudged(c, s, options, terms, k - 1, SortRun(s, options, terms, k - 1, t));
    }
  }

  // ---------------------------------------------------------------- includes

  ghost function IncludeCodes(c: SchemaConfig, options: CompileOptions, paths: seq<string>, k: nat): seq<ErrorCode>
    requires k < |paths|
  {
    if forall names, d | Declares(c.relationships, names, d) :: Path(names) != paths[k] then [CodeInvalidElement]
    else if exists names, d | Declares(c.relationships, names, d) ::
              Path(names) == paths[k] && |names| > Limit(c.bounds.maxIncludeDepth, 4) then [CodeLimitExceeded]
    else if exists j :: 0 <= j < k && paths[j] == paths[k] then [CodeConflict]
    else if exists names, d | Declares(c.relationships, names, d) :: Path(names) == paths[k] && Barred(options, names)
    then [CodeAuthorization]
    else []
  }

  /** Some beginning of the path is not allowed. */
  ghost predicate Barred(options: CompileOptions, names: seq<string>) {
    exists j :: 0 < j <= |names| && !Allowed(options, CapabilityRelationship, Path(names[..j]))
  }

  /** How a declared path is found: at its depth, barred exactly when one of its prefixes is not permitted. */
  lemma PathJudged(c: SchemaConfig, s: Schema, options: CompileOptions, names: seq<string>, d: RelationshipDefinition)
    requires Built(c, s) && Declares(c.relationships, names, d)
    ensures Path(names) in s.relationIndex && s.relationIndex[Path(names)].depth == |names|
    ensures Barred(options, names) <==>
      !forall i :: 0 <= i < |Prefixes(Path(names))| ==> Permits(options, CapabilityRelationship,
                                                                Prefixes(Path(names))[i])
  {
    PathIndexed(c, s, names, d);
    hide Built, Prefixes, Path;
    forall i | 0 <= i < |names| ensures Prefixes(Path(names))[i] == Path(names[..i + 1]) {
      assert Prefixes(Path(names))[(i + 1) - 1] == Path(names[..i + 1]);
    }
  }

  lemma IncludeJudged(c: SchemaConfig, s: Schema, options: CompileOptions, paths: seq<string>, k: nat, st: IncludeState)
    requires Built(c, s) && k < |paths| && EdgesTidy(options, st.edges)
    ensures var after := IncludeStep(s, options, paths, k, st);
      && after.trail.violations == st.trail.violations
                                   + About(Indexed("includes", k), IncludeCodes(c, options, paths, k))
      && EdgesTidy(options, after.edges)
  {
    BuiltBounds(c, s);
    var name, path := paths[k], Indexed("includes", k);
    assert name in paths[..k] <==> exists j :: 0 <= j < k && paths[j] == name;
    forall names, d | Declares(c.relationships, names, d)
      ensures Path(names) in s.relationIndex && s.relationIndex[Path(names)].depth == |names|
      ensures Barred(options, names) <==>
        !forall i :: 0 <= i < |Prefixes(Path(names))| ==> Permits(options, CapabilityRelationship,
                                                                  Prefixes(Path(names))[i])
    {
      PathJudged(c, s, options, names, d);
    }
    if name in s.relationIndex {
      var names, d := KeyDeclared(c, s, name);
      EdgesJudged(options, name, path, EdgeState(st.trail, st.edges, true));
    }
    hide Built, Prefixes, Path, EdgesTidy, EdgeRun, Barred, Declares, Limit, Indexed, Permits;
  }

  /** Along one path at most one refusal is reported. */
  lemma {:induction false} EdgesJudgedUpTo(options: CompileOptions, name: string, k: nat, path: string, st: EdgeState)
    requires k <= |Prefixes(name)| && st.allowed
    ensures var r := EdgeRun(options, Prefixes(name), k, path, st);
      r.trail.violations == st.trail.violations + if r.allowed then [] else [Violation(CodeAuthorization, path)]
  {
    hide Prefixes, Permits;
    if k > 0 {
      EdgesJudgedUpTo(options, name, k - 1, path, st);
    }
  }

  lemma EdgesJudged(options: CompileOptions, name: string, path: string, st: EdgeState)
    requires st.allowed && EdgesTidy(options, st.edges)
    ensures var r := EdgeRun(options, Prefixes(name), |Prefixes(name)|, path, st);
      && EdgesTidy(options, r.edges)
      && r.trail.violations == st.trail.violations + (if r.allowed then [] else [Violation(CodeAuthorization, path)])
      && (r.allowed <==>
            forall i :: 0 <= i < |Prefixes(name)| ==> Permits(options, CapabilityRelationship, Prefixes(name)[i]))
  {
    EdgesJudgedUpTo(options, name, |Prefixes(name)|, path, st);
    EdgeRunTidy(options, name, |Prefixes(name)|, path, st);
    hide *;
  }

  ghost function IncludesReport(c: SchemaConfig, options: CompileOptions, paths: seq<string>, k: nat): seq<Violation>
    requires k <= |paths|
  {
    if k == 0 then []
    else IncludesReport(c, options, paths, k - 1)
         + About(Indexed("includes", k - 1), IncludeCodes(c, options, paths, k - 1))
  }

  /** The include phase reports exactly this, path by path. */
  lemma {:induction false} IncludesJudged(c: SchemaConfig, s: Schema, options: CompileOptions, paths: seq<string>,
                                          k: nat, t: Trail)
    requires Built(c, s) && k <= |paths|
    ensures var r := IncludeRun(s, options, paths, k, t);
      r.trail.violations == t.violations + IncludesReport(c, options, paths, k) && EdgesTidy(options, r.edges)
  {
    hide Built, IncludeStep, IncludeCodes, EdgesTidy;
    if k == 0 {
      NoEdges(options);
    } else {
      IncludesJudged(c, s, options, paths, k - 1, t);
      IncludeJudged(c, s, options, paths, k - 1, IncludeRun(s, options, paths, k - 1, t));
    }
  }

  // ---------------------------------------------------------------- predicates

  ghost function OperandCodes(c: SchemaConfig, d: FilterDefinition, values: seq<Value>, k: nat): seq<ErrorCode>
    requires k < |values|
  {
    var v := values[k];
    (When(exists j :: 0 <= j < k && values[j] == v, CodeConflict) + When(v.kind != d.kind, CodeInvalidElement))
    + (When(ByteLength(v.text) > Limit(c.bounds.maxStringBytes, 4096), CodeLimitExceeded)
       + When(v == Value(TypeString, "") && !d.allowEmpty, CodeInvalidElement))
  }

  ghost function OperandsCodes(c: SchemaConfig, d: FilterDefinition, values: seq<Value>, k: nat): seq<ErrorCode>
    requires k <= |values|
  {
    if k == 0 then [] else OperandsCodes(c, d, values, k - 1) + OperandCodes(c, d, values, k - 1)
  }

  ghost function ArityCodes(c: SchemaConfig, p: Predicate): seq<ErrorCode> {
    match p.operator
    case OpIn | OpNotIn => if 1 <= |p.values| <= Limit(c.bounds.maxMembership, 100) then [] else [CodeLimitExceeded]
    case OpIsNull => if p.values == [] then [] else [CodeConflict]
    case OpBetween => if |p.values| == 2 then [] else [CodeConflict]
    case _ => if |p.values| == 1 then [] else [CodeConflict]
  }

  /** What is reported about a predicate on a declared filter, when room for this many operands is left and the
      same test may have occurred before. */
  ghost function LeafCodes(c: SchemaConfig, options: CompileOptions, d: FilterDefinition, p: Predicate, room: int,
                           repeated: bool): seq<ErrorCode>
  {
    if !Allowed(options, CapabilityFilter, p.name) then [CodeAuthorization]
    else if d.deprecated then [CodeUnsupported]
    else if repeated then [CodeConflict]
    else
      (if p.operator in d.operators then [] else [CodeUnsupported])
      + if |p.values| > room then [CodeLimitExceeded]
        else ArityCodes(c, p) + OperandsCodes(c, d, p.values, |p.values|)
  }

  lemma OperandJudged(c: SchemaConfig, s: Schema, d: FilterDefinition, values: seq<Value>, k: nat, path: string,
                      t: Trail)
    requires Built(c, s) && k < |values|
    ensures Grows(t, ValueStep(s, d, values, k, path, t), About(path, OperandCodes(c, d, values, k)), [])
  {
    BuiltBounds(c, s);
    RepeatedValue(values, k);
    var v, repeated := values[k], exists j :: 0 <= j < k && values[j] == values[k];
    assert v in values[..k] <==> repeated;
    hide Built, ByteLength, Limit, ValueKey, ValueKeys, Grows, When, About;
    var long := ByteLength(v.text) > s.bounds.maxStringBytes;
    var empty := v == Value(TypeString, "") && !d.allowEmpty;
    var two := t.ReportIf(repeated, CodeConflict, path).ReportIf(v.kind != d.kind, CodeInvalidElement, path);
    ReportsTwo(t, repeated, CodeConflict, v.kind != d.kind, CodeInvalidElement, path);
    ReportsTwo(two, long, CodeLimitExceeded, empty, CodeInvalidElement, path);
    GrowsTwice(t, two, ValueStep(s, d, values, k, path, t), path,
               When(repeated, CodeConflict) + When(v.kind != d.kind, CodeInvalidElement),
               When(long, CodeLimitExceeded) + When(empty, CodeInvalidElement));
  }

  lemma ReportsTwo(t: Trail, a: bool, one: ErrorCode, b: bool, two: ErrorCode, path: string)
    ensures Grows(t, t.ReportIf(a, one, path).ReportIf(b, two, path), About(path, When(a, one) + When(b, two)), [])
  {
  }

  lemma AboutConcat(path: string, a: seq<ErrorCode>, b: seq<ErrorCode>)
    ensures About(path, a + b) == About(path, a) + About(path, b)
  {
  }

  lemma {:induction false} OperandsJudged(c: SchemaConfig, s: Schema, d: FilterDefinition, values: seq<Value>, k: nat,
                                          path: string, t: Trail)
    requires Built(c, s) && k <= |values|
    ensures Grows(t, ValueRun(s, d, values, k, path, t), About(path, OperandsCodes(c, d, values, k)), [])
  {
    hide Built, ValueStep, OperandCodes;
    if k > 0 {
      OperandsJudged(c, s, d, values, k - 1, path, t);
      OperandJudged(c, s, d, values, k - 1, path, ValueRun(s, d, values, k - 1, path, t));
      AboutConcat(path, OperandsCodes(c, d, values, k - 1), OperandCodes(c, d, values, k - 1));
    }
  }

  lemma ArityJudged(c: SchemaConfig, s: Schema, p: Predicate, path: string, t: Trail)
    requires Built(c, s)
    ensures Grows(t, ArityRun(s, p, path, t), About(path, ArityCodes(c, p)), [])
  {
    BuiltBounds(c, s);
    hide Built, Limit;
  }

  /** The keys of the predicates that already stand in the filter. */
  ghost predicate Seen(c: SchemaConfig, seen: set<string>, before: seq<Predicate>) {
    && seen == (set q <- before :: FilterKey(q.name, q.operator))
    && forall q <- before :: exists d <- c.filters :: d.name == q.name
  }

  ghost predicate Stands(before: seq<Predicate>, p: Predicate) {
    exists q <- before :: q.name == p.name && q.operator == p.operator
  }

  lemma SeenIsStanding(c: SchemaConfig, s: Schema, seen: set<string>, before: seq<Predicate>, p: Predicate)
    requires Built(c, s) && Seen(c, seen, before) && exists d <- c.filters :: d.name == p.name
    ensures FilterKey(p.name, p.operator) in seen <==> Stands(before, p)
  {
    forall d | d in c.filters ensures ValidName(d.name) {
      assert FilterDeclared(d, s.bounds.maxCost);
    }
    hide Built, ValidName, FilterKey;
    forall q | q in before
      ensures FilterKey(q.name, q.operator) == FilterKey(p.name, p.operator) <==>
        q.name == p.name && q.operator == p.operator
    {
      FilterKeyInjective(q.name, q.operator, p.name, p.operator);
    }
  }

  lemma SeenNext(c: SchemaConfig, seen: set<string>, before: seq<Predicate>, p: Predicate)
    requires Seen(c, seen, before) && exists d <- c.filters :: d.name == p.name
    ensures Seen(c, seen + {FilterKey(p.name, p.operator)}, before + [p])
  {
    hide FilterKey;
    var more := before + [p];
    assert more[|before|] == p;
    forall q | q in before ensures q in more {}
  }

  lemma GrowsTwice(a: Trail, b: Trail, c: Trail, path: string, one: seq<ErrorCode>, two: seq<ErrorCode>)
    requires Grows(a, b, About(path, one), []) && Grows(b, c, About(path, two), [])
    ensures Grows(a, c, About(path, one + two), [])
  {
    AboutConcat(path, one, two);
    hide About;
  }

  /** The operands of a predicate that has room for them. */
  lemma CheckedOperandsJudged(c: SchemaConfig, s: Schema, d: FilterDefinition, p: Predicate, path: string, t: Trail)
    requires Built(c, s)
    ensures Grows(t, ValuesRun(s, d, p, path, t),
                  About(path, ArityCodes(c, p) + OperandsCodes(c, d, p.values, |p.values|)), [])
  {
    ArityJudged(c, s, p, path, t);
    OperandsJudged(c, s, d, p.values, |p.values|, path, ArityRun(s, p, path, t));
    hide Built, Grows, About, ArityRun, ValueRun, ArityCodes, OperandsCodes;
    GrowsTwice(t, ArityRun(s, p, path, t), ValuesRun(s, d, p, path, t), path, ArityCodes(c, p),
               OperandsCodes(c, d, p.values, |p.values|));
  }

  lemma OperatorJudged(d: FilterDefinition, p: Predicate, path: string, t: Trail)
    ensures Grows(t, t.ReportIf(p.operator !in d.operators, CodeUnsupported, path),
                  About(path, if p.operator in d.operators then [] else [CodeUnsupported]), [])
  {
  }

  lemma OneReport(t: Trail, code: ErrorCode, path: string)
    ensures Grows(t, t.Report(code, path), About(path, [code]), [])
  {
  }

  /** A predicate that was allowed on a current filter. */
  lemma CurrentLeafJudged(c: SchemaConfig, s: Schema, options: CompileOptions, d: FilterDefinition, node: FilterExpr,
                          path: string, st: WalkState, repeated: bool)
    requires Built(c, s) && node.leaf.Some? && !d.deprecated
    requires Allowed(options, CapabilityFilter, node.leaf.value.name)
    requires repeated <==> FilterKey(node.leaf.value.name, node.leaf.value.operator) in st.seen
    ensures var codes := LeafCodes(c, options, d, node.leaf.value, s.bounds.maxValues - st.values, repeated);
      Grows(st.trail, WalkDeclared(s, d, node, path, st).st.trail, About(path, codes), [])
  {
    var p := node.leaf.value;
    var t := st.trail.ReportIf(p.operator !in d.operators, CodeUnsupported, path);
    var first := if p.operator in d.operators then [] else [CodeUnsupported];
    var rest := ArityCodes(c, p) + OperandsCodes(c, d, p.values, |p.values|);
    OperatorJudged(d, p, path, st.trail);
    OneReport(st.trail, CodeConflict, path);
    OneReport(t, CodeLimitExceeded, path);
    CheckedOperandsJudged(c, s, d, p, path, t);
    hide Built, Grows, About, ValuesRun, ArityCodes, OperandsCodes, FilterKey;
    GrowsTwice(st.trail, t, t.Report(CodeLimitExceeded, path), path, first, [CodeLimitExceeded]);
    GrowsTwice(st.trail, t, ValuesRun(s, d, p, path, t), path, first, rest);
  }

  /** What a predicate is refused for, and that nobody is asked about an undeclared one. */
  lemma LeafJudged(c: SchemaConfig, s: Schema, options: CompileOptions, node: FilterExpr, path: string, st: WalkState,
                   before: seq<Predicate>)
    requires Built(c, s) && node.leaf.Some? && Seen(c, st.seen, before)
    ensures var after, p := WalkLeaf(s, options, node, path, st).st, node.leaf.value;
      var room := s.bounds.maxValues - st.values;
      if forall d <- c.filters :: d.name != p.name then
        after == st.(trail := after.trail) && Grows(st.trail, after.trail, [Violation(CodeInvalidElement, path)], [])
      else
        && (forall d <- c.filters :: d.name == p.name ==>
              Grows(st.trail, after.trail, About(path, LeafCodes(c, options, d, p, room, Stands(before, p))),
                    Question(options, CapabilityFilter, p.name)))
  {
    var p := node.leaf.value;
    FilterIsDeclared(c, s, p.name);
    if p.name in s.filterIndex {
      var d := s.filters[s.filterIndex[p.name]];
      SeenIsStanding(c, s, st.seen, before, p);
      var asked := st.(trail := st.trail.Ask(options, CapabilityFilter, p.name));
      if Allowed(options, CapabilityFilter, p.name) && !d.deprecated {
        CurrentLeafJudged(c, s, options, d, node, path, asked, Stands(before, p));
      }
    }
    hide Built, WalkDeclared, FilterKey, ArityCodes, OperandsCodes, Seen;
  }

  lemma FilterIsDeclared(c: SchemaConfig, s: Schema, name: string)
    requires Built(c, s)
    ensures name in s.filterIndex <==> exists d <- c.filters :: d.name == name
    ensures name in s.filterIndex ==>
      && s.filterIndex[name] < |s.filters|
      && forall d <- c.filters :: d.name == name ==> d == s.filters[s.filterIndex[name]]
  {
    BuiltIsValid(c, s);
    FilterLookup(s, name);
    hide ValidConfig, ValidSchema, Indexes, IndexOf;
    if name in s.filterIndex {
      assert s.filters[s.filterIndex[name]] in c.filters;
      forall d | d in c.filters && d.name == name ensures d == s.filters[s.filterIndex[name]] {
        var i :| 0 <= i < |s.filters| && s.filters[i] == d;
      }
    }
  }

  // ---------------------------------------------------------------- pages

  function PageWhen(cause: bool, code: ErrorCode, path: string): seq<Violation> {
    if cause then [Violation(code, path)] else []
  }

  /** Whether the page is there, and within its bounds. */
  ghost function PageBoundsReport(c: SchemaConfig, p: PageRequest): seq<Violation> {
    var size := if p.size == 0 && p.mode != PageUnset && p.mode != PageNone then c.pagination.defaultPageSize
      else p.size;
    PageWhen(p.mode == PageCursor && !c.pagination.cursor, CodeUnsupported, "page.mode")
    + PageWhen(p.mode == PageOffset && !c.pagination.offset, CodeUnsupported, "page.mode")
    + PageWhen(p.mode == PageOffset && !(0 <= p.offset <= c.pagination.maxOffset), CodeLimitExceeded, "page.offset")
    + PageWhen(!(0 <= size <= Limit(c.bounds.maxPageSize, 100)), CodeLimitExceeded, "page.size")
  }

  /** Its tokens. */
  ghost function PageTokensReport(c: SchemaConfig, p: PageRequest): seq<Violation> {
    PageWhen(p.after != "" && p.before != "", CodeConflict, "page")
    + PageWhen(ByteLength(p.after) > Limit(c.bounds.maxCursorBytes, 4096), CodeLimitExceeded, "page.after")
    + PageWhen(ByteLength(p.before) > Limit(c.bounds.maxCursorBytes, 4096), CodeLimitExceeded, "page.before")
  }

  /** What its mode has no use for. */
  ghost function PageModeReport(c: SchemaConfig, p: PageRequest): seq<Violation> {
    PageWhen(p.mode.PageUnknown?, CodeUnsupported, "page.mode")
    + PageWhen((p.mode == PageUnset || p.mode == PageNone)
               && !(p.size == 0 && p.offset == 0 && p.after == "" && p.before == ""), CodeConflict, "page")
    + PageWhen(p.mode == PageCursor && p.offset != 0, CodeConflict, "page.offset")
    + PageWhen(p.mode == PageOffset && !(p.after == "" && p.before == ""), CodeConflict, "page")
  }

  lemma PageSupportJudged(c: SchemaConfig, s: Schema, p: PageRequest, t: Trail)
    requires Built(c, s)
    ensures Grows(t, PageSupportTrail(s, NormalizedPage(s, p), t), PageBoundsReport(c, p), [])
  {
    BuiltBounds(c, s);
    assert s.pagination == c.pagination;
    hide Built, Limit;
  }

  lemma PageTokensJudged(c: SchemaConfig, s: Schema, p: PageRequest, t: Trail)
    requires Built(c, s)
    ensures Grows(t, PageTokenTrail(s, NormalizedPage(s, p), t), PageTokensReport(c, p), [])
  {
    BuiltBounds(c, s);
    hide Built, Limit, ByteLength;
  }

  lemma PageModeJudged(c: SchemaConfig, s: Schema, p: PageRequest, t: Trail)
    ensures Grows(t, PageModeTrail(NormalizedPage(s, p), t), PageModeReport(c, p), [])
  {
  }

  lemma GrowsThen(a: Trail, b: Trail, c: Trail, one: seq<Violation>, two: seq<Violation>)
    requires Grows(a, b, one, []) && Grows(b, c, two, [])
    ensures Grows(a, c, one + two, [])
  {
  }

  /** The page checks report exactly this. */
  lemma PageJudged(c: SchemaConfig, s: Schema, p: PageRequest, t: Trail)
    requires Built(c, s)
    ensures var page := NormalizedPage(s, p);
      Grows(t, PageModeTrail(page, PageBoundsTrail(s, page, t)),
            PageBoundsReport(c, p) + PageTokensReport(c, p) + PageModeReport(c, p), [])
  {
    var page := NormalizedPage(s, p);
    var one := PageSupportTrail(s, page, t);
    var two := PageTokenTrail(s, page, one);
    assert PageBoundsTrail(s, page, t) == two;
    hide *;
    PageSupportJudged(c, s, p, t);
    PageTokensJudged(c, s, p, one);
    PageModeJudged(c, s, p, two);
    GrowsThen(t, one, two, PageBoundsReport(c, p), PageTokensReport(c, p));
    GrowsThen(t, two, PageModeTrail(page, two), PageBoundsReport(c, p) + PageTokensReport(c, p), PageModeReport(c, p));
  }

  /** On a schema with cursor pages: room for the missing tie-breaker, then permission to use it. */
  lemma TieJudged(c: SchemaConfig, s: Schema, options: CompileOptions, terms: seq<SortTerm>, t: Trail,
                  d: SortDefinition)
    requires Built(c, s) && c.pagination.cursor && d in c.sorts && d.tieBreaker
    ensures var after := TieRun(s, options, terms, t); var missing := d.name !in NamesOfTerms(terms);
      var room := |terms| < Limit(c.bounds.maxSorts, 8);
      && Grows(t, after.trail,
               PageWhen(missing && !room, CodeLimitExceeded, "sorts")
               + PageWhen(missing && room && !Allowed(options, CapabilitySort, d.name), CodeAuthorization, "sorts"),
               if missing && room then Question(options, CapabilitySort, d.name) else [])
      && after.sorts == if missing && room && Allowed(options, CapabilitySort, d.name)
                        then terms + [SortTerm(d.name, Ascending, d.nulls)] else terms
  {
    BuiltBounds(c, s);
    var i := OnlyTieBreaker(c, s);
    NamesStay(s, terms);
    hide Built, Limit, FirstTieBreaker, TermNames, NamesOfTerms, CompletedAll;
  }
}
