/** Included relationship paths: every edge of a path is approved before the path is, parents first,
    and an approved edge is asked about and charged once however many paths share it. */
module IncludePhase {
  import opened Text
  import opened Types
  import opened PlanHeap
  import opened Violations
  import opened Relationships
  import opened Schemas
  import opened Compilation
  import opened FieldPhase

  datatype EdgeState = EdgeState(trail: Trail, edges: seq<string>, allowed: bool)

  function EdgeStep(options: CompileOptions, edge: string, path: string, st: EdgeState): EdgeState {
    if !st.allowed || edge in st.edges then st
    else
      var asked := st.trail.Ask(options, CapabilityRelationship, edge);
      if Permits(options, CapabilityRelationship, edge) then EdgeState(asked, st.edges + [edge], true)
      else EdgeState(asked.Report(CodeAuthorization, path), st.edges, false)
  }

  /** The edges of one path, outermost first, until one is refused. */
  function EdgeRun(options: CompileOptions, edges: seq<string>, k: nat, path: string, st: EdgeState): EdgeState
    requires k <= |edges|
  {
    if k == 0 then st else EdgeStep(options, edges[k - 1], path, EdgeRun(options, edges, k - 1, path, st))
  }

  datatype IncludeState = IncludeState(trail: Trail, includes: seq<string>, edges: seq<string>)

  function IncludeStep(schema: Schema, options: CompileOptions, includes: seq<string>, k: nat,
                       st: IncludeState): IncludeState
    requires k < |includes|
  {
    var path, name := Indexed("includes", k), includes[k];
    if name !in schema.relationIndex then st.(trail := st.trail.Report(CodeInvalidElement, path))
    else if schema.relationIndex[name].depth > schema.bounds.maxIncludeDepth then
      st.(trail := st.trail.Report(CodeLimitExceeded, path))
    else if name in includes[..k] then st.(trail := st.trail.Report(CodeConflict, path))
    else
      var e := EdgeRun(options, Prefixes(name), |Prefixes(name)|, path, EdgeState(st.trail, st.edges, true));
      IncludeState(e.trail, if e.allowed then st.includes + [name] else st.includes, e.edges)
  }

  function IncludeRun(schema: Schema, options: CompileOptions, includes: seq<string>, k: nat, t: Trail): IncludeState
    requires k <= |includes|
  {
    if k == 0 then IncludeState(t, [], [])
    else IncludeStep(schema, options, includes, k - 1, IncludeRun(schema, options, includes, k - 1, t))
  }

  function IncludesRun(schema: Schema, options: CompileOptions, requested: Option<seq<string>>,
                       t: Trail): IncludeState {
    match requested
    case None => IncludeState(t, [], [])
    case Some(includes) =>
      var kept := Truncated(includes, schema.bounds.maxIncludes);
      IncludeRun(schema, options, kept, |kept|,
                 t.ReportIf(|includes| > schema.bounds.maxIncludes, CodeLimitExceeded, "includes"))
  }

  // ---------------------------------------------------------------- the loops

  function EdgeWeight(schema: Schema): string -> int { edge => EdgeCost(schema, edge) }

  lemma DeclaredEdges(schema: Schema, name: string)
    requires ValidSchema(schema) && name in schema.relationIndex
    ensures forall i :: 0 <= i < |Prefixes(name)| ==>
      && Prefixes(name)[i] in schema.relationIndex
      && 0 <= schema.relationIndex[Prefixes(name)[i]].definition.cost
  {
    hide Prefixes;
    assert PathDeclared(schema.relationIndex, name, {schema.resource}, schema.bounds.maxCost);
  }

  method ApproveEdges(schema: Schema, name: string, path: string, seenEdges: set<string>, ghost before: seq<string>,
                      authority: Authority, plan: Plan, collector: Collector)
    returns (seen: set<string>, ghost edges: seq<string>, allowed: bool)
    requires ValidSchema(schema) && collector.Valid() && plan.CostTracks(schema.bounds.maxCost)
    requires name in schema.relationIndex && seenEdges == set e <- before
    modifies plan`cost, plan`costExceeded, plan`charged, collector, authority`calls
    ensures collector.Valid() && plan.CostTracks(schema.bounds.maxCost)
    ensures seen == set e <- edges
    ensures EdgeState(TrailOf(collector, authority), edges, allowed)
         == EdgeRun(authority.options, Prefixes(name), |Prefixes(name)|, path,
                    EdgeState(old(TrailOf(collector, authority)), before, true))
    ensures plan.charged - Sum(EdgeWeight(schema), edges) == old(plan.charged) - Sum(EdgeWeight(schema), before)
  {
    DeclaredEdges(schema, name);
    hide ValidSchema, Prefixes, Sum, EdgeRun;
    var prefixes := RelationshipPrefixes(name);
    seen, edges, allowed := seenEdges, before, true;
    ghost var start := EdgeState(old(TrailOf(collector, authority)), before, true);
    EdgeRunStarts(authority.options, prefixes, path, start);
    for i := 0 to |prefixes|
      invariant collector.Valid() && plan.CostTracks(schema.bounds.maxCost)
      invariant seen == set e <- edges
      invariant allowed && EdgeState(TrailOf(collector, authority), edges, true) == EdgeRun(authority.options, prefixes,
          i, path, start)
      invariant plan.charged - Sum(EdgeWeight(schema), edges) == old(plan.charged) - Sum(EdgeWeight(schema), before)
    {
      var edge := prefixes[i];
      EdgeRunSteps(authority.options, prefixes, i, path, start);
      if edge in seen {
        continue;
      }
      var ok := authority.Authorized(CapabilityRelationship, edge);
      if !ok {
        collector.Add(CodeAuthorization, path);
        allowed := false;
        RefusalEndsRun(authority.options, prefixes, i + 1, path, start);
        return;
      }
      SumSnoc(EdgeWeight(schema), edges, edge);
      seen, edges := seen + {edge}, edges + [edge];
      plan.AddPlanCost(schema.bounds.maxCost, schema.relationIndex[edge].definition.cost, EdgeCost(schema, edge));
    }
  }

  lemma EdgeRunStarts(options: CompileOptions, edges: seq<string>, path: string, st: EdgeState)
    ensures EdgeRun(options, edges, 0, path, st) == st
  {
  }

  lemma EdgeRunSteps(options: CompileOptions, edges: seq<string>, k: nat, path: string, st: EdgeState)
    requires k < |edges|
    ensures EdgeRun(options, edges, k + 1, path, st)
      == EdgeStep(options, edges[k], path, EdgeRun(options, edges, k, path, st))
  {
  }

  lemma {:induction false} RefusalEndsRun(options: CompileOptions, edges: seq<string>, k: nat, path: string,
                                          st: EdgeState)
    requires k <= |edges| && !EdgeRun(options, edges, k, path, st).allowed
    ensures EdgeRun(options, edges, |edges|, path, st) == EdgeRun(options, edges, k, path, st)
    decreases |edges| - k
  {
    if k < |edges| {
      RefusalEndsRun(options, edges, k + 1, path, st);
    }
  }

  method CompileIncludes(schema: Schema, requested: Option<array<string>>, authority: Authority, plan: Plan,
                         collector: Collector)
    returns (ghost edges: seq<string>)
    requires ValidSchema(schema) && collector.Valid() && plan.CostTracks(schema.bounds.maxCost)
      && plan.includes[..] == []
    modifies plan`includes, plan`cost, plan`costExceeded, plan`charged, collector, authority`calls
    ensures collector.Valid() && plan.CostTracks(schema.bounds.maxCost)
    ensures plan.includes == old(plan.includes) || fresh(plan.includes)
    ensures IncludeState(TrailOf(collector, authority), plan.includes[..], edges)
         == IncludesRun(schema, authority.options, Requested(requested), old(TrailOf(collector, authority)))
    ensures plan.charged == old(plan.charged) + Sum(EdgeWeight(schema), edges)
  {
    edges := [];
    if requested.None? {
      return;
    }
    var includes := requested.value[..];
    assert schema.bounds.maxIncludes > 0 by { assert BoundValues(schema.bounds)[2] > 0; }
    hide ValidSchema;
    if |includes| > schema.bounds.maxIncludes {
      collector.Add(CodeLimitExceeded, "includes");
      includes := includes[..schema.bounds.maxIncludes];
    }
    edges := AdmitIncludes(schema, includes, authority, plan, collector);
  }

  method AdmitIncludes(schema: Schema, includes: seq<string>, authority: Authority, plan: Plan, collector: Collector)
    returns (ghost edges: seq<string>)
    requires ValidSchema(schema) && collector.Valid() && plan.CostTracks(schema.bounds.maxCost)
      && plan.includes[..] == []
    modifies plan`includes, plan`cost, plan`costExceeded, plan`charged, collector, authority`calls
    ensures collector.Valid() && plan.CostTracks(schema.bounds.maxCost)
    ensures plan.includes == old(plan.includes) || fresh(plan.includes)
    ensures IncludeState(TrailOf(collector, authority), plan.includes[..], edges)
         == IncludeRun(schema, authority.options, includes, |includes|, old(TrailOf(collector, authority)))
    ensures plan.charged == old(plan.charged) + Sum(EdgeWeight(schema), edges)
  {
    hide ValidSchema, IncludeStep;
    edges := [];
    var seen: set<string> := {};
    var seenEdges: set<string> := {};
    for i := 0 to |includes|
      invariant collector.Valid() && plan.CostTracks(schema.bounds.maxCost)
      invariant plan.includes == old(plan.includes) || fresh(plan.includes)
      invariant seen == set n | n in includes[..i] && Shallow(schema, n)
      invariant seenEdges == set e <- edges
      invariant IncludeState(TrailOf(collector, authority), plan.includes[..], edges)
             == IncludeRun(schema, authority.options, includes, i, old(TrailOf(collector, authority)))
      invariant plan.charged == old(plan.charged) + Sum(EdgeWeight(schema), edges)
    {
      assert includes[..i + 1] == includes[..i] + [includes[i]];
      seenEdges, edges := AdmitInclude(schema, includes, i, seen, seenEdges, edges, authority, plan, collector);
      if Shallow(schema, includes[i]) {
        seen := seen + {includes[i]};
      }
    }
  }

  predicate Shallow(schema: Schema, name: string) {
    name in schema.relationIndex && schema.relationIndex[name].depth <= schema.bounds.maxIncludeDepth
  }

  /** The body of the loop; a path joins the duplicate set whenever it is declared and shallow enough. */
  method AdmitInclude(schema: Schema, includes: seq<string>, i: nat, seen: set<string>, seenEdges: set<string>,
                      ghost before: seq<string>, authority: Authority, plan: Plan, collector: Collector)
    returns (nowSeen: set<string>, ghost edges: seq<string>)
    requires ValidSchema(schema) && collector.Valid() && plan.CostTracks(schema.bounds.maxCost) && i < |includes|
    requires seen == (set n | n in includes[..i] && Shallow(schema, n)) && seenEdges == set e <- before
    modifies plan`includes, plan`cost, plan`costExceeded, plan`charged, collector, authority`calls
    ensures collector.Valid() && plan.CostTracks(schema.bounds.maxCost) && nowSeen == set e <- edges
    ensures plan.includes == old(plan.includes) || fresh(plan.includes)
    ensures IncludeState(TrailOf(collector, authority), plan.includes[..], edges)
         == IncludeStep(schema, authority.options, includes, i,
                        IncludeState(old(TrailOf(collector, authority)), old(plan.includes[..]), before))
    ensures plan.charged - Sum(EdgeWeight(schema), edges) == old(plan.charged) - Sum(EdgeWeight(schema), before)
  {
    hide ValidSchema, Prefixes, EdgeRun;
    var path, name := Indexed("includes", i), includes[i];
    nowSeen, edges := seenEdges, before;
    if name !in schema.relationIndex {
      collector.Add(CodeInvalidElement, path);
      return;
    }
    if schema.relationIndex[name].depth > schema.bounds.maxIncludeDepth {
      collector.Add(CodeLimitExceeded, path);
      return;
    }
    if name in seen {
      collector.Add(CodeConflict, path);
      return;
    }
    var allowed;
    nowSeen, edges, allowed := ApproveEdges(schema, name, path, seenEdges, before, authority, plan, collector);
    if allowed {
      plan.includes := Append(plan.includes, name);
    }
  }

  // ---------------------------------------------------------------- what the phase guarantees

  /** Approved edges, none twice, each after its own parents. */
  ghost predicate EdgesTidy(options: CompileOptions, edges: seq<string>) {
    && Distinct(edges)
    && (forall e <- edges :: Permits(options, CapabilityRelationship, e))
    && ParentsFirst(edges)
  }

  ghost predicate ParentsFirst(edges: seq<string>) {
    forall i :: 0 <= i < |edges| ==> ParentsAmong(edges[i], edges[..i])
  }

  ghost predicate ParentsAmong(edge: string, earlier: seq<string>) {
    forall p <- Prefixes(edge) :: p == edge || p in earlier
  }

  lemma {:induction false} PrefixesOfProperPrefix(path: string, k: nat, j: nat)
    requires k <= |path| && j < |ProperPrefixes(path, k)|
    ensures ProperPrefixes(path, k)[j] <= path
    ensures Prefixes(ProperPrefixes(path, k)[j]) == ProperPrefixes(path, k)[..j + 1]
  {
    if j < |ProperPrefixes(path, k - 1)| {
      PrefixesOfProperPrefix(path, k - 1, j);
    } else {
      var q := path[..k - 1];
      assert path == q + path[k - 1..];
      ProperPrefixesExtend(q, path[k - 1..], k - 1);
    }
  }

  /** The prefixes of a path's j-th prefix are the first ones of the path. */
  lemma PrefixesOfPrefix(path: string, j: nat)
    requires j < |Prefixes(path)|
    ensures Prefixes(Prefixes(path)[j]) == Prefixes(path)[..j + 1]
  {
    if j < |ProperPrefixes(path, |path|)| {
      PrefixesOfProperPrefix(path, |path|, j);
    }
  }

  lemma TidySnoc(options: CompileOptions, edges: seq<string>, edge: string)
    requires EdgesTidy(options, edges) && edge !in edges
    requires Permits(options, CapabilityRelationship, edge) && ParentsAmong(edge, edges)
    ensures EdgesTidy(options, edges + [edge])
  {
    hide Prefixes, Permits;
    var more := edges + [edge];
    assert more[..|edges|] == edges;
    DistinctNext(more, |edges|);
    assert more[..|more|] == more;
    forall i | 0 <= i < |more| ensures ParentsAmong(more[i], more[..i]) {
      if i < |edges| {
        assert more[..i] == edges[..i];
      }
    }
  }

  /** One path's edges: all approved, or one refused and reported. */
  lemma {:induction false} EdgeRunTidy(options: CompileOptions, name: string, k: nat, path: string, st: EdgeState)
    requires k <= |Prefixes(name)| && st.allowed && EdgesTidy(options, st.edges)
    ensures var r := EdgeRun(options, Prefixes(name), k, path, st);
      && EdgesTidy(options, r.edges)
      && st.edges <= r.edges
      && (r.allowed <==> forall i :: 0 <= i < k ==> Permits(options, CapabilityRelationship, Prefixes(name)[i]))
      && (forall e <- r.edges :: e in st.edges || e in Prefixes(name)[..k])
      && (r.allowed ==>
            && r.trail.violations == st.trail.violations
            && (forall e <- Prefixes(name)[..k] :: e in r.edges))
      && (!r.allowed ==> r.trail.violations != [])
  {
    hide Prefixes, EdgesTidy, Permits;
    if k > 0 {
      EdgeRunTidy(options, name, k - 1, path, st);
      var before := EdgeRun(options, Prefixes(name), k - 1, path, st);
      var edge := Prefixes(name)[k - 1];
      assert Prefixes(name)[..k] == Prefixes(name)[..k - 1] + [edge];
      if edge in before.edges {
        TidyPermits(options, before.edges, edge);
      } else if before.allowed && Permits(options, CapabilityRelationship, edge) {
        PrefixesOfPrefix(name, k - 1);
        assert ParentsAmong(edge, before.edges);
        TidySnoc(options, before.edges, edge);
      }
    }
  }

  lemma TidyPermits(options: CompileOptions, edges: seq<string>, edge: string)
    requires EdgesTidy(options, edges) && edge in edges
    ensures Permits(options, CapabilityRelationship, edge)
  {
  }

  lemma {:induction false} AskAllOfPrefix(options: CompileOptions, kind: CapabilityKind, a: seq<string>, b: seq<string>,
                                          k: nat)
    requires k <= |a| && k <= |b| && a[..k] == b[..k]
    ensures AskAll(options, kind, a, k) == AskAll(options, kind, b, k)
  {
    if k > 0 {
      assert a[..k - 1] == a[..k][..k - 1] && b[..k - 1] == b[..k][..k - 1];
      AskAllOfPrefix(options, kind, a, b, k - 1);
      assert a[k - 1] == a[..k][k - 1] && b[k - 1] == b[..k][k - 1];
    }
  }

  /** While nothing is refused, exactly the edges taken up were asked about, once each. */
  lemma {:induction false} EdgeRunAsks(options: CompileOptions, edges: seq<string>, k: nat, path: string, st: EdgeState,
                                       base: seq<Callback>)
    requires k <= |edges|
    requires st.trail.calls == base + AskAll(options, CapabilityRelationship, st.edges, |st.edges|)
    ensures var r := EdgeRun(options, edges, k, path, st);
      r.allowed ==> r.trail.calls == base + AskAll(options, CapabilityRelationship, r.edges, |r.edges|)
  {
    if k > 0 {
      EdgeRunAsks(options, edges, k - 1, path, st, base);
      var before := EdgeRun(options, edges, k - 1, path, st);
      AskAllOfPrefix(options, CapabilityRelationship, before.edges, before.edges + [edges[k - 1]], |before.edges|);
    }
  }

  ghost predicate IncludeOk(schema: Schema, options: CompileOptions, name: string) {
    && name in schema.relationIndex
    && schema.relationIndex[name].depth <= schema.bounds.maxIncludeDepth
    && forall i :: 0 <= i < |Prefixes(name)| ==> Permits(options, CapabilityRelationship, Prefixes(name)[i])
  }

  ghost predicate IncludesOk(schema: Schema, options: CompileOptions, includes: seq<string>) {
    && |includes| <= schema.bounds.maxIncludes
    && Distinct(includes)
    && forall n <- includes :: IncludeOk(schema, options, n)
  }

  /** The edges are exactly the prefixes of the paths. */
  ghost predicate EdgesCover(edges: seq<string>, paths: seq<string>) {
    && (forall p <- paths :: forall q <- Prefixes(p) :: q in edges)
    && (forall e <- edges :: exists i :: 0 <= i < |paths| && e in Prefixes(paths[i]))
  }

  lemma CoverNext(edges: seq<string>, more: seq<string>, paths: seq<string>, path: string)
    requires EdgesCover(edges, paths) && edges <= more
    requires forall e <- more :: e in edges || e in Prefixes(path)
    requires forall q <- Prefixes(path) :: q in more
    ensures EdgesCover(more, paths + [path])
  {
    hide Prefixes;
    var all := paths + [path];
    forall p, q | p in all && q in Prefixes(p) ensures q in more {
      if p in paths { assert q in edges; }
    }
    forall e | e in more ensures exists i :: 0 <= i < |all| && e in Prefixes(all[i]) {
      if e in edges {
        var i :| 0 <= i < |paths| && e in Prefixes(paths[i]);
        assert all[i] == paths[i];
      } else {
        assert all[|paths|] == path;
      }
    }
  }

  lemma {:induction false} IncludeRunClean(schema: Schema, options: CompileOptions, includes: seq<string>, k: nat,
                                           t: Trail)
    requires k <= |includes|
    ensures var st := IncludeRun(schema, options, includes, k, t);
      && EdgesTidy(options, st.edges)
      && (st.trail.violations == [] <==>
            && t.violations == [] && Distinct(includes[..k])
            && forall i :: 0 <= i < k ==> IncludeOk(schema, options, includes[i]))
      && (st.trail.violations == [] ==>
            && st.includes == includes[..k] && EdgesCover(st.edges, includes[..k])
            && st.trail.calls == t.calls + AskAll(options, CapabilityRelationship, st.edges, |st.edges|))
  {
    hide EdgesTidy, EdgesCover, Prefixes, EdgeRun, Permits, Distinct;
    if k == 0 {
      NoEdges(options);
      assert includes[..0] == [];
    } else {
      IncludeRunClean(schema, options, includes, k - 1, t);
      var before := IncludeRun(schema, options, includes, k - 1, t);
      var name := includes[k - 1];
      var path := Indexed("includes", k - 1);
      var start := EdgeState(before.trail, before.edges, true);
      DistinctNext(includes, k - 1);
      assert includes[..k] == includes[..k - 1] + [name];
      EdgeRunTidy(options, name, |Prefixes(name)|, path, start);
      assert Prefixes(name)[..|Prefixes(name)|] == Prefixes(name);
      if before.trail.violations == [] {
        EdgeRunAsks(options, Prefixes(name), |Prefixes(name)|, path, start, t.calls);
        var r := EdgeRun(options, Prefixes(name), |Prefixes(name)|, path, start);
        if r.allowed {
          CoverNext(before.edges, r.edges, includes[..k - 1], name);
        }
      }
    }
  }

  lemma NoEdges(options: CompileOptions)
    ensures EdgesTidy(options, []) && EdgesCover([], []) && Distinct<string>([])
  {
  }

  /** The include phase reports nothing exactly when every requested path is declared, shallow
      enough, not repeated and approved edge by edge. The edges then cover exactly the prefixes of
      the paths, each is asked about once and only after its parents. */
  lemma {:induction false} IncludesAccepted(schema: Schema, options: CompileOptions, requested: Option<seq<string>>,
                                            t: Trail)
    requires schema.bounds.maxIncludes >= 0
    ensures var includes := if requested.None? then [] else requested.value;
      var st := IncludesRun(schema, options, requested, t);
      && EdgesTidy(options, st.edges)
      && (st.trail.violations == [] <==> t.violations == [] && IncludesOk(schema, options, includes))
      && (st.trail.violations == [] ==>
            && st.includes == includes && EdgesCover(st.edges, includes)
            && st.trail.calls == t.calls + AskAll(options, CapabilityRelationship, st.edges, |st.edges|))
  {
    NoEdges(options);
    if requested.Some? {
      hide EdgesTidy, EdgesCover, IncludeRun, IncludeOk;
      var includes := requested.value;
      var kept := Truncated(includes, schema.bounds.maxIncludes);
      IncludeRunClean(schema, options, kept, |kept|,
                      t.ReportIf(|includes| > schema.bounds.maxIncludes, CodeLimitExceeded, "includes"));
      assert kept[..|kept|] == kept;
    }
  }
}
