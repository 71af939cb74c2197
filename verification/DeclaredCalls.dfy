/** Every call an accepted request makes into the application, in terms of its plan and the declarations. */
module DeclaredCalls {
  import opened Text
  import opened Types
  import opened Relationships
  import opened Schemas
  import opened FieldPhase
  import opened IncludePhase
  import opened FilterSpec
  import opened FilterProofs
  import opened SortPhase
  import opened Compile
  import opened Admission
  import opened Calls
  import opened Declarations
  import opened DeclarationProofs
  import opened DeclaredFilters
  import opened DeclaredCompile

  /** One question about each of these names, in order, if there is anyone to ask. */
  function AskedAbout(options: CompileOptions, kind: CapabilityKind, names: seq<string>): seq<Callback> {
    if options.authorize.None? then []
    else seq(|names|, i requires 0 <= i < |names| => Asked(Capability(kind, names[i])))
  }

  /** The call that decodes the token of a cursor page. */
  function TokenCall(c: SchemaConfig, p: PageRequest, final: seq<SortTerm>): seq<Callback> {
    if p.mode != PageCursor || (p.after == "" && p.before == "") then []
    else [Decoded(if p.after != "" then p.after else p.before, c.revision, final)]
  }

  /** names are those of a filter's predicates, depth first and left to right. */
  ghost predicate LeafNamesAre(filter: Option<FilterExpr>, names: seq<string>) {
    match filter
    case None => names == []
    case Some(root) => exists paths | AllLeaves(root, paths) ::
      |names| == |paths| && forall i :: 0 <= i < |paths| ==> names[i] == PredicateAt(root, paths[i]).name
  }

  /** Every edge comes after the edges on its way. */
  ghost predicate ParentsBefore(c: SchemaConfig, edges: seq<string>) {
    forall i, names, d, j | 0 <= i < |edges| && Declares(c.relationships, names, d) && Path(names) == edges[i]
                            && 0 < j < |names| :: Path(names[..j]) in edges[..i]
  }

  function SortNamesOf(terms: seq<SortTerm>): seq<string> {
    seq(|terms|, i requires 0 <= i < |terms| => terms[i].name)
  }

  lemma {:induction false} AskAllIs(options: CompileOptions, kind: CapabilityKind, names: seq<string>, k: nat)
    requires k <= |names|
    ensures AskAll(options, kind, names, k) == AskedAbout(options, kind, names[..k])
  {
    if k > 0 {
      AskAllIs(options, kind, names, k - 1);
      assert names[..k] == names[..k - 1] + [names[k - 1]];
    }
  }

  lemma QuestionsAre(options: CompileOptions, kind: CapabilityKind, names: seq<string>)
    ensures Questions(options, kind, names) == AskedAbout(options, kind, names)
  {
    AskAllIs(options, kind, names, |names|);
    assert names[..|names|] == names;
  }

  function NamesOfLeaves(leaves: seq<Predicate>): (names: seq<string>)
    ensures |names| == |leaves|
  {
    seq(|leaves|, i requires 0 <= i < |leaves| => leaves[i].name)
  }

  lemma {:induction false} AskLeavesIs(options: CompileOptions, leaves: seq<Predicate>)
    ensures AskLeaves(options, leaves) == AskedAbout(options, CapabilityFilter, NamesOfLeaves(leaves))
  {
    if leaves != [] {
      AskLeavesIs(options, leaves[1..]);
      assert NamesOfLeaves(leaves) == [leaves[0].name] + NamesOfLeaves(leaves[1..]);
    }
  }

  lemma LeafQuestionsAre(c: SchemaConfig, options: CompileOptions, s: Schema, filter: Option<FilterExpr>)
    returns (names: seq<string>)
    requires Built(c, s) && (filter.Some? ==> FilterFits(c, options, filter.value))
    ensures LeafNamesAre(filter, names)
    ensures LeafQuestions(options, filter) == AskedAbout(options, CapabilityFilter, names)
  {
    if filter.None? {
      names := [];
    } else {
      PlacesAgree(c, s, options, filter.value);
      AskLeavesIs(options, Leaves(filter.value));
      names := NamesOfLeaves(Leaves(filter.value));
      hide Built, FilterFits, Tidy, AllLeaves, IsLeaf;
      LeafNamesListed(filter.value);
    }
  }

  lemma LeafNamesListed(root: FilterExpr)
    requires Tidy(root)
    ensures LeafNamesAre(Some(root), NamesOfLeaves(Leaves(root)))
  {
    var paths := Paths(root, true);
    Listings(root);
    LeavesListed(root, paths);
    hide Leaves, Paths, AllLeaves, AllNodes, Tidy, IsLeaf;
    assert AllLeaves(root, paths);
  }

  lemma EdgesInOrder(c: SchemaConfig, s: Schema, edges: seq<string>)
    requires Built(c, s) && ParentsFirst(edges)
    ensures ParentsBefore(c, edges)
  {
    forall i, names, d, j | 0 <= i < |edges| && Declares(c.relationships, names, d) && Path(names) == edges[i]
                            && 0 < j < |names|
      ensures Path(names[..j]) in edges[..i]
    {
      PathIndexed(c, s, names, d);
      assert ParentsAmong(edges[i], edges[..i]);
      hide Built, Prefixes, Path, Declares;
      assert Prefixes(edges[i])[j - 1] == Path(names[..j]);
      assert names[..|names|] == names && Prefixes(edges[i])[|names| - 1] == edges[i];
      PrefixesApart(edges[i], j - 1, |names| - 1);
    }
  }

  /** A path's prefixes are all different. */
  lemma PrefixesApart(path: string, a: nat, b: nat)
    requires a < b < |Prefixes(path)|
    ensures Prefixes(path)[a] != Prefixes(path)[b]
  {
    PrefixesOfPrefix(path, a);
    PrefixesOfPrefix(path, b);
    hide Prefixes;
    assert |Prefixes(Prefixes(path)[a])| == a + 1 && |Prefixes(Prefixes(path)[b])| == b + 1;
  }

  lemma OrderQuestionsAre(c: SchemaConfig, s: Schema, request: Request, options: CompileOptions)
    ensures var page, sorts := NormalizedPage(s, request.page), EffectiveSorts(s, request.sorts);
      Questions(options, CapabilitySort, TermNames(sorts)) + TieQuestion(s, options, page, CompletedAll(s, sorts))
        == AskedAbout(options, CapabilitySort, SortNamesOf(FinalSorts(s, request)))
  {
    var page, sorts := NormalizedPage(s, request.page), EffectiveSorts(s, request.sorts);
    var done := CompletedAll(s, sorts);
    QuestionsAre(options, CapabilitySort, TermNames(sorts));
    QuestionsAre(options, CapabilitySort, TermNames(TieTerm(s, done)));
    assert TermNames(done) == TermNames(sorts);
    hide Questions, TieTerm, NormalizedPage, CompletedAll, EffectiveSorts;
    assert SortNamesOf(done) == TermNames(sorts);
    assert SortNamesOf(done + TieTerm(s, done)) == TermNames(sorts) + TermNames(TieTerm(s, done));
  }

  lemma TokenCallIs(c: SchemaConfig, s: Schema, p: PageRequest, final: seq<SortTerm>)
    requires Built(c, s) && PageFits(c, p)
    ensures Decoding(s, NormalizedPage(s, p), final) == TokenCall(c, p, final)
  {
    assert s.revision == c.revision;
    hide Built, ByteLength, Limit;
  }

  /** The calls behind a plan: each response field, each edge parents first, each predicate left to right, each
      term of the order with its tie-breaker, and the decoder for the token. */
  lemma CallsAreNamed(c: SchemaConfig, s: Schema, request: Request, options: CompileOptions)
    returns (edges: seq<string>, leaves: seq<string>)
    requires Built(c, s) && CompileRun(s, request, options).trail.violations == []
    ensures var run := CompileRun(s, request, options); var plan := run.plan;
      && AreEdges(c, plan.includes, edges) && ParentsBefore(c, edges) && LeafNamesAre(plan.filter, leaves)
      && run.trail.calls == AskedAbout(options, CapabilityField, plan.responseFields)
                            + AskedAbout(options, CapabilityRelationship, edges)
                            + AskedAbout(options, CapabilityFilter, leaves)
                            + AskedAbout(options, CapabilitySort, SortNamesOf(plan.sorts))
                            + TokenCall(c, request.page, plan.sorts)
  {
    BuiltIsValid(c, s);
    Accepted(s, request, options);
    CallsAreExact(s, request, options);
    var run := CompileRun(s, request, options);
    edges := run.edges;
    leaves := CallsOfParts(c, s, request, options, edges);
    RequestEdges(c, s, request, options, edges);
    hide Built, CompileRun, RequestOk, ValidSchema, EdgesCover, EdgesTidy, AllCalls, AskedAbout, TokenCall,
      LeafNamesAre, AreEdges, ParentsBefore, EffectiveFields, ExecutionFields, FinalSorts, TotalCost, FinalPage,
      FinalCursor,
      SortNamesOf;
  }

  lemma RequestEdges(c: SchemaConfig, s: Schema, request: Request, options: CompileOptions, edges: seq<string>)
    requires Built(c, s) && RequestOk(s, request, options)
    requires EdgesTidy(options, edges) && EdgesCover(edges, RequestedIncludes(request))
    ensures AreEdges(c, RequestedIncludes(request), edges) && ParentsBefore(c, edges)
  {
    RequestParts(s, request, options);
    assert ParentsFirst(edges);
    hide Built, RequestOk, PartsOk, EdgesTidy, EdgesCover, IncludesOk, SortsOk, CursorOk, AreEdges, ParentsFirst,
      ParentsBefore;
    RunEdges(c, s, RequestedIncludes(request), options, edges);
    EdgesInOrder(c, s, edges);
  }

  lemma CallsOfParts(c: SchemaConfig, s: Schema, request: Request, options: CompileOptions, edges: seq<string>)
    returns (leaves: seq<string>)
    requires Built(c, s) && RequestOk(s, request, options)
    ensures LeafNamesAre(request.filter, leaves)
    ensures AllCalls(s, request, options, edges)
         == AskedAbout(options, CapabilityField, EffectiveFields(s, request.fields))
            + AskedAbout(options, CapabilityRelationship, edges)
            + AskedAbout(options, CapabilityFilter, leaves)
            + AskedAbout(options, CapabilitySort, SortNamesOf(FinalSorts(s, request)))
            + TokenCall(c, request.page, FinalSorts(s, request))
  {
    assert request.filter.Some? ==> TreeOk(s, options, request.filter.value);
    assert PageOk(s, NormalizedPage(s, request.page));
    PageAgrees(c, s, request.page);
    if request.filter.Some? {
      FilterAgrees(c, s, options, request.filter.value);
    }
    hide *;
    leaves := LeafQuestionsAre(c, options, s, request.filter);
    QuestionsAre(options, CapabilityField, EffectiveFields(s, request.fields));
    QuestionsAre(options, CapabilityRelationship, edges);
    OrderQuestionsAre(c, s, request, options);
    TokenCallIs(c, s, request.page, FinalSorts(s, request));
    CallsJoin(s, request, options, edges);
  }

  lemma CallsJoin(s: Schema, request: Request, options: CompileOptions, edges: seq<string>)
    ensures var page, sorts := NormalizedPage(s, request.page), EffectiveSorts(s, request.sorts);
      AllCalls(s, request, options, edges)
        == Questions(options, CapabilityField, EffectiveFields(s, request.fields))
           + Questions(options, CapabilityRelationship, edges)
           + LeafQuestions(options, request.filter)
           + (Questions(options, CapabilitySort, TermNames(sorts)) + TieQuestion(s, options, page,
                                                                                 CompletedAll(s, sorts)))
           + Decoding(s, page, FinalSorts(s, request))
  {
    hide Questions, LeafQuestions, TieQuestion, Decoding, NormalizedPage, EffectiveSorts, EffectiveFields, FinalSorts,
      CompletedAll, TermNames;
  }
}
