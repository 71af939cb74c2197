/** compileFilter: the recursive walk over shared counters, and the saturating filter cost. */
module FilterPhase {
  import opened Text
  import opened Types
  import opened PlanHeap
  import opened Violations
  import opened Schemas
  import opened Compilation
  import opened FilterSpec
  import opened FilterProofs

  /** The counters and the duplicate set that every recursive call shares. */
  class FilterWalk {
    var nodes: nat
    var values: nat
    var seen: set<string>

    constructor ()
      ensures nodes == 0 && values == 0 && seen == {}
    {
      nodes, values, seen := 0, 0, {};
    }

    ghost function State(collector: Collector, authority: Authority): WalkState
      reads this, collector, authority
    {
      WalkState(TrailOf(collector, authority), nodes, values, seen)
    }
  }

  method CheckArity(schema: Schema, p: Predicate, path: string, collector: Collector, ghost authority: Authority)
    requires collector.Valid()
    modifies collector
    ensures collector.Valid()
    ensures TrailOf(collector, authority) == ArityRun(schema, p, path, old(TrailOf(collector, authority)))
  {
    hide KnownSpelling;
    var want := 1;
    match p.operator {
      case OpIsNull => want := 0;
      case OpBetween => want := 2;
      case OpIn | OpNotIn =>
        want := -1;
        if |p.values| == 0 || |p.values| > schema.bounds.maxMembership {
          collector.Add(CodeLimitExceeded, path);
        }
      case _ =>
    }
    if want >= 0 && |p.values| != want {
      collector.Add(CodeConflict, path);
    }
  }

  method ValidatePredicateValues(schema: Schema, definition: FilterDefinition, p: Predicate, path: string,
                                 collector: Collector, ghost authority: Authority)
    requires collector.Valid()
    modifies collector
    ensures collector.Valid()
    ensures TrailOf(collector, authority) == ValuesRun(schema, definition, p, path, old(TrailOf(collector, authority)))
  {
    CheckArity(schema, p, path, collector, authority);
    CheckValues(schema, definition, p.values, path, collector, authority);
  }

  method CheckValues(schema: Schema, definition: FilterDefinition, values: seq<Value>, path: string,
                     collector: Collector, ghost authority: Authority)
    requires collector.Valid()
    modifies collector
    ensures collector.Valid()
    ensures TrailOf(collector, authority)
         == ValueRun(schema, definition, values, |values|, path, old(TrailOf(collector, authority)))
  {
    var seen: set<string> := {};
    for i := 0 to |values|
      invariant collector.Valid() && seen == ValueKeys(values, i)
      invariant TrailOf(collector, authority)
        == ValueRun(schema, definition, values, i, path, old(TrailOf(collector, authority)))
    {
      CheckValue(schema, definition, values, i, path, seen, collector, authority);
      seen := seen + {ValueKey(values[i])};
    }
  }

  method CheckValue(schema: Schema, definition: FilterDefinition, values: seq<Value>, i: nat, path: string,
                    seen: set<string>, collector: Collector, ghost authority: Authority)
    requires collector.Valid() && i < |values| && seen == ValueKeys(values, i)
    modifies collector
    ensures collector.Valid()
    ensures TrailOf(collector, authority)
      == ValueStep(schema, definition, values, i, path, old(TrailOf(collector, authority)))
  {
    var value := values[i];
    if ValueKey(value) in seen {
      collector.Add(CodeConflict, path);
    }
    if value.kind != definition.kind {
      collector.Add(CodeInvalidElement, path);
    }
    if ByteLength(value.text) > schema.bounds.maxStringBytes {
      collector.Add(CodeLimitExceeded, path);
    }
    if value.kind == TypeString && value.text == "" && !definition.allowEmpty {
      collector.Add(CodeInvalidElement, path);
    }
  }

  /** The request's tree is not among the objects the walk changes. */
  ghost predicate Apart(node: FilterCell, authority: Authority, collector: Collector, walk: FilterWalk)
    reads node
  {
    authority !in node.Repr && collector !in node.Repr && walk !in node.Repr
  }

  /** A compiled subtree: new objects only, closed under following references. */
  ghost predicate Isolated(cell: FilterCell?)
    reads cell, if cell == null then {} else cell.Repr
  {
    cell != null ==> cell.Valid() && Closed(cell.Repr)
  }

  method AdmitPredicate(schema: Schema, definition: FilterDefinition, node: FilterCell, authority: Authority,
                        collector: Collector, path: string, walk: FilterWalk)
    returns (result: FilterCell?)
    requires collector.Valid() && node.Valid() && node.test != null && Apart(node, authority, collector, walk)
    modifies walk, collector
    ensures collector.Valid() && Isolated(result) && (result != null ==> fresh(result.Repr))
    ensures WalkResult(walk.State(collector, authority), TreeOf(result))
         == WalkDeclared(schema, definition, node.Tree, path, old(walk.State(collector, authority)))
  {
    var ok := CheckPredicate(schema, definition, node.Tree, node.test.View(), authority, collector, path, walk);
    if !ok {
      return null;
    }
    hide WalkDeclared, Closed;
    result := CloneFilter(node);
  }

  /** Everything about an accepted predicate but its copy. */
  method CheckPredicate(schema: Schema, definition: FilterDefinition, ghost node: FilterExpr, p: Predicate,
                        ghost authority: Authority, collector: Collector, path: string, walk: FilterWalk)
    returns (ok: bool)
    requires collector.Valid() && node.leaf == Some(p)
    modifies walk, collector
    ensures collector.Valid()
    ensures WalkResult(walk.State(collector, authority), if ok then Some(node) else None)
         == WalkDeclared(schema, definition, node, path, old(walk.State(collector, authority)))
  {
    hide ValuesRun, FilterKey;
    var key := FilterKey(p.name, p.operator);
    if key in walk.seen {
      collector.Add(CodeConflict, path);
      return false;
    }
    walk.seen := walk.seen + {key};
    if p.operator !in definition.operators {
      collector.Add(CodeUnsupported, path);
    }
    if |p.values| > schema.bounds.maxValues - walk.values {
      collector.Add(CodeLimitExceeded, path);
      return false;
    }
    walk.values := walk.values + |p.values|;
    ValidatePredicateValues(schema, definition, p, path, collector, authority);
    ok := true;
  }

  method CompileLeaf(schema: Schema, node: FilterCell, authority: Authority, collector: Collector, path: string,
                     walk: FilterWalk)
    returns (result: FilterCell?)
    requires ValidSchema(schema) && collector.Valid() && node.Valid() && node.test != null
      && Apart(node, authority, collector, walk)
    modifies walk, collector, authority`calls
    ensures collector.Valid() && Isolated(result) && (result != null ==> fresh(result.Repr))
    ensures WalkResult(walk.State(collector, authority), TreeOf(result))
         == WalkLeaf(schema, authority.options, node.Tree, path, old(walk.State(collector, authority)))
  {
    var name := node.test.name;
    if name in schema.filterIndex { DeclaredFilterName(schema, name); }
    hide ValidSchema, WalkDeclared, Permits, FilterDeclared, Closed;
    if name !in schema.filterIndex {
      collector.Add(CodeInvalidElement, path);
      return null;
    }
    var allowed := authority.Authorized(CapabilityFilter, name);
    if !allowed {
      collector.Add(CodeAuthorization, path);
      return null;
    }
    var definition := schema.filters[schema.filterIndex[name]];
    if definition.deprecated {
      collector.Add(CodeUnsupported, path);
      return null;
    }
    result := AdmitPredicate(schema, definition, node, authority, collector, path, walk);
  }

  /** The recursive walk on the request's own tree, which it only reads. An accepted predicate is
      cloned and a group gets an array of its own, so the compiled tree shares nothing with the request. */
  method CompileFilterNode(schema: Schema, node: FilterCell, authority: Authority, collector: Collector,
                           path: string, depth: int, walk: FilterWalk)
    returns (result: FilterCell?)
    requires ValidSchema(schema) && collector.Valid() && node.Valid() && Apart(node, authority, collector, walk)
    modifies walk, collector, authority`calls
    ensures collector.Valid() && Isolated(result) && (result != null ==> fresh(result.Repr))
    ensures WalkResult(walk.State(collector, authority), TreeOf(result))
         == WalkNode(schema, authority.options, node.Tree, path, depth, old(walk.State(collector, authority)))
    decreases node.Repr, 1
  {
    hide ValidSchema, WalkChildren, WalkLeaf, Closed;
    walk.nodes := walk.nodes + 1;
    if depth > schema.bounds.maxFilterDepth {
      collector.Add(CodeLimitExceeded, path);
      return null;
    }
    if (node.test == null) == (node.count == 0) {
      collector.Add(CodeConflict, path);
      return null;
    }
    if node.test != null {
      result := CompileLeaf(schema, node, authority, collector, path, walk);
      return;
    }
    if node.logic !in schema.allowedLogic {
      collector.Add(CodeUnsupported, path);
    }
    if node.logic == LogicNot && node.count != 1 {
      collector.Add(CodeConflict, path);
    }
    result := CompileGroup(schema, node, authority, collector, path, depth, walk);
  }

  method CompileGroup(schema: Schema, node: FilterCell, authority: Authority, collector: Collector,
                      path: string, depth: int, walk: FilterWalk)
    returns (result: FilterCell)
    requires ValidSchema(schema) && collector.Valid() && node.Valid() && Apart(node, authority, collector, walk)
    modifies walk, collector, authority`calls
    ensures collector.Valid() && Isolated(result) && fresh(result.Repr)
    ensures WalkResult(walk.State(collector, authority), TreeOf(result))
         == WalkChildren(schema, authority.options, node.Tree, 0, path, depth, old(walk.State(collector, authority)),
                         [])
    decreases node.Repr, 0, 1
  {
    hide ValidSchema, WalkChildren;
    var children, count, compiled, below := CompileChildren(schema, node, authority, collector, path, depth, walk);
    result := new FilterCell(null, node.logic, children, count, FilterExpr(None, node.logic, compiled),
                             below + {children});
    ClosedNode(result, {}, below);
  }

  /** The loop: compiled children are appended to an array made for as many as the group has. */
  method CompileChildren(schema: Schema, node: FilterCell, authority: Authority, collector: Collector,
                         path: string, depth: int, walk: FilterWalk)
    returns (children: array<FilterCell?>, count: nat, ghost compiled: seq<FilterExpr>, ghost below: set<object>)
    requires ValidSchema(schema) && collector.Valid() && node.Valid() && Apart(node, authority, collector, walk)
    modifies walk, collector, authority`calls
    ensures collector.Valid() && fresh(children) && fresh(below) && Grown(children, compiled, below)
      && count == |compiled|
    ensures WalkResult(walk.State(collector, authority), Some(FilterExpr(None, node.logic, compiled)))
         == WalkChildren(schema, authority.options, node.Tree, 0, path, depth, old(walk.State(collector, authority)),
                         [])
    decreases node.Repr, 0, 0
  {
    hide ValidSchema, WalkNode, WalkChildren;
    children, count, compiled, below := new FilterCell?[node.count](i => null), 0, [], {};
    ghost var whole := WalkChildren(schema, authority.options, node.Tree, 0, path, depth,
                                    walk.State(collector, authority), []);
    for i := 0 to node.count
      invariant collector.Valid() && count == |compiled| <= i
      invariant fresh(below) && Grown(children, compiled, below)
      invariant whole
             == WalkChildren(schema, authority.options, node.Tree, i, path, depth, walk.State(collector, authority),
                             compiled)
    {
      hide Grown, Closed;
      ChildrenStep(schema, authority.options, node.Tree, i, path, depth, walk.State(collector, authority), compiled);
      if walk.nodes >= schema.bounds.maxFilterNodes {
        collector.Add(CodeLimitExceeded, path);
        return;
      }
      var child := CompileFilterNode(schema, node.children[i], authority, collector,
                                     Indexed(path + ".children", i), depth + 1, walk);
      if child != null {
        below := Grow(children, count, child, compiled, below);
        count := count + 1;
        compiled := compiled + [child.Tree];
      }
    }
    ChildrenEnd(schema, authority.options, node.Tree, path, depth, walk.State(collector, authority), compiled);
  }

  lemma ChildrenStep(schema: Schema, options: CompileOptions, node: FilterExpr, i: nat, path: string, depth: int,
                     st: WalkState, compiled: seq<FilterExpr>)
    requires i < |node.children|
    ensures WalkChildren(schema, options, node, i, path, depth, st, compiled)
      == if st.nodes >= schema.bounds.maxFilterNodes then
           WalkResult(st.(trail := st.trail.Report(CodeLimitExceeded, path)),
                      Some(FilterExpr(None, node.logic, compiled)))
         else
           var child := WalkNode(schema, options, node.children[i], Indexed(path + ".children", i), depth + 1, st);
           WalkChildren(schema, options, node, i + 1, path, depth, child.st,
                        if child.filter.Some? then compiled + [child.filter.value] else compiled)
  {
    hide WalkNode;
  }

  lemma ChildrenEnd(schema: Schema, options: CompileOptions, node: FilterExpr, path: string, depth: int,
                    st: WalkState, compiled: seq<FilterExpr>)
    ensures WalkChildren(schema, options, node, |node.children|, path, depth, st, compiled)
      == WalkResult(st, Some(FilterExpr(None, node.logic, compiled)))
  {
    hide WalkNode;
  }

  method CompileFilter(schema: Schema, filter: FilterCell?, authority: Authority, collector: Collector)
    returns (result: FilterCell?)
    requires ValidSchema(schema) && collector.Valid()
    requires filter != null ==> filter.Valid() && authority !in filter.Repr && collector !in filter.Repr
    modifies collector, authority`calls
    ensures collector.Valid() && Isolated(result) && (result != null ==> fresh(result.Repr))
    ensures (TrailOf(collector, authority), TreeOf(result))
         == FilterRun(schema, authority.options, TreeOf(filter), old(TrailOf(collector, authority)))
    ensures result != null ==> LeavesDeclared(schema, Leaves(result.Tree))
  {
    hide Closed, WalkNode, LeavesDeclared;
    if filter == null {
      return null;
    }
    var walk := new FilterWalk();
    WalkDeclares(schema, authority.options, filter.Tree, "filter", 1, walk.State(collector, authority));
    result := CompileFilterNode(schema, filter, authority, collector, "filter", 1, walk);
  }

  // ---------------------------------------------------------------- cost

  ghost predicate LeavesDeclared(schema: Schema, leaves: seq<Predicate>) {
    forall p <- leaves :: p.name in schema.filterIndex && schema.filterIndex[p.name] < |schema.filters|
  }

  /** Whatever the walk returns, accepted or partial, holds declared predicates only. */
  lemma {:induction false} WalkDeclares(schema: Schema, options: CompileOptions, node: FilterExpr, path: string,
                                        depth: int, st: WalkState)
    ensures var r := WalkNode(schema, options, node, path, depth, st);
      r.filter.Some? ==> LeavesDeclared(schema, Leaves(r.filter.value))
    decreases node, |node.children| + 1
  {
    hide ValuesRun, Permits, FilterKey;
    if node.leaf.None? && node.children != [] {
      var visited := st.(nodes := st.nodes + 1);
      var t := visited.trail
               .ReportIf(node.logic !in schema.allowedLogic, CodeUnsupported, path)
               .ReportIf(node.logic == LogicNot && |node.children| != 1, CodeConflict, path);
      NoLeaves(node.logic);
      WalkChildrenDeclare(schema, options, node, 0, path, depth, visited.(trail := t), []);
    }
  }

  lemma NoLeaves(logic: Logic)
    ensures Leaves(FilterExpr(None, logic, [])) == []
  {
  }

  lemma {:induction false} WalkChildrenDeclare(schema: Schema, options: CompileOptions, node: FilterExpr, i: nat,
                                               path: string, depth: int, st: WalkState, compiled: seq<FilterExpr>)
    requires i <= |node.children| && LeavesDeclared(schema, Leaves(FilterExpr(None, node.logic, compiled)))
    ensures var r := WalkChildren(schema, options, node, i, path, depth, st, compiled);
      r.filter.Some? ==> LeavesDeclared(schema, Leaves(r.filter.value))
    decreases node, |node.children| - i
  {
    hide WalkNode, Leaves, LeavesDeclared;
    if i < |node.children| && st.nodes < schema.bounds.maxFilterNodes {
      var childPath := Indexed(path + ".children", i);
      WalkDeclares(schema, options, node.children[i], childPath, depth + 1, st);
      var child := WalkNode(schema, options, node.children[i], childPath, depth + 1, st);
      if child.filter.Some? {
        DeclaredSnoc(schema, node.logic, compiled, child.filter.value);
        WalkChildrenDeclare(schema, options, node, i + 1, path, depth, child.st, compiled + [child.filter.value]);
      } else {
        WalkChildrenDeclare(schema, options, node, i + 1, path, depth, child.st, compiled);
      }
    }
  }

  lemma {:induction false} DeclaredSnoc(schema: Schema, logic: Logic, compiled: seq<FilterExpr>, child: FilterExpr)
    requires LeavesDeclared(schema, Leaves(FilterExpr(None, logic, compiled))) && LeavesDeclared(schema, Leaves(child))
    ensures LeavesDeclared(schema, Leaves(FilterExpr(None, logic, compiled + [child])))
  {
    LeavesSnoc(logic, compiled, child, 0);
    forall p | p in Leaves(FilterExpr(None, logic, compiled + [child]))
      ensures p.name in schema.filterIndex && schema.filterIndex[p.name] < |schema.filters|
    {
      assert p in Leaves(FilterExpr(None, logic, compiled)) || p in Leaves(child);
    }
  }

  lemma {:induction false} LeavesSnoc(logic: Logic, compiled: seq<FilterExpr>, child: FilterExpr, i: nat)
    requires i <= |compiled|
    ensures LeavesFrom(FilterExpr(None, logic, compiled + [child]), i)
         == LeavesFrom(FilterExpr(None, logic, compiled), i) + Leaves(child)
    decreases |compiled| - i
  {
    var more := FilterExpr(None, logic, compiled + [child]);
    if i == |compiled| {
      assert LeavesFrom(more, i + 1) == [];
    } else {
      LeavesSnoc(logic, compiled, child, i + 1);
      ConcatAssociates(Leaves(compiled[i]), LeavesFrom(FilterExpr(None, logic, compiled), i + 1), Leaves(child));
    }
  }

  function LeafWeight(schema: Schema): string -> int { name => LeafCost(schema, name) }

  function LeafNames(leaves: seq<Predicate>): (names: seq<string>)
    ensures |names| == |leaves|
  {
    seq(|leaves|, i requires 0 <= i < |leaves| => leaves[i].name)
  }

  /** The unbounded cost of a list of predicates. */
  function LeafTotal(schema: Schema, leaves: seq<Predicate>): int {
    Sum(LeafWeight(schema), LeafNames(leaves))
  }

  lemma LeafTotalConcat(schema: Schema, a: seq<Predicate>, b: seq<Predicate>)
    ensures LeafTotal(schema, a + b) == LeafTotal(schema, a) + LeafTotal(schema, b)
  {
    assert LeafNames(a + b) == LeafNames(a) + LeafNames(b);
    SumConcat(LeafWeight(schema), LeafNames(a), LeafNames(b));
  }

  lemma LeafTotalOne(schema: Schema, p: Predicate)
    requires ValidSchema(schema) && LeavesDeclared(schema, [p])
    ensures LeafTotal(schema, [p]) == schema.filters[schema.filterIndex[p.name]].cost as int
    ensures 0 <= schema.filters[schema.filterIndex[p.name]].cost
  {
    assert p in [p];
    DeclaredFilterName(schema, p.name);
    var names := LeafNames([p]);
    assert names == [p.name];
    assert Total(LeafWeight(schema), names, 1) == Total(LeafWeight(schema), names, 0) + LeafWeight(schema)(names[0]);
  }

  /** cost stands for exact: it is that sum, or the largest int when the sum is larger still. */
  ghost predicate Saturates(cost: Int64, exact: int) {
    && 0 <= cost
    && (cost as int == exact || (cost as int == MAX_INT && exact > MAX_INT))
  }

  method FilterCost(schema: Schema, filter: FilterCell) returns (cost: Int64)
    requires ValidSchema(schema) && filter.Valid() && LeavesDeclared(schema, Leaves(filter.Tree))
    ensures Saturates(cost, LeafTotal(schema, Leaves(filter.Tree)))
    decreases filter.Repr
  {
    hide ValidSchema;
    if filter.test != null {
      LeafTotalOne(schema, filter.test.View());
      return schema.filters[schema.filterIndex[filter.test.name]].cost;
    }
    hide LeafTotal, LeavesDeclared;
    cost := 0;
    ghost var exact, tree := 0, filter.Tree;
    LeafTotalNone(schema);
    for i := 0 to filter.count
      invariant Saturates(cost, exact) && exact >= 0
      invariant exact + LeafTotal(schema, LeavesFrom(tree, i)) == LeafTotal(schema, LeavesFrom(tree, 0))
      invariant LeavesDeclared(schema, LeavesFrom(tree, i))
    {
      var child := filter.children[i];
      LeafTotalConcat(schema, Leaves(child.Tree), LeavesFrom(tree, i + 1));
      DeclaredParts(schema, Leaves(child.Tree), LeavesFrom(tree, i + 1));
      LeafTotalNonNegative(schema, LeavesFrom(tree, i + 1));
      var childCost := FilterCost(schema, child);
      exact := exact + LeafTotal(schema, Leaves(child.Tree));
      if childCost > MAX_INT as Int64 - cost {
        return MAX_INT as Int64;
      }
      cost := cost + childCost;
    }
  }

  lemma LeafTotalNone(schema: Schema)
    ensures LeafTotal(schema, []) == 0
  {
  }

  lemma DeclaredParts(schema: Schema, a: seq<Predicate>, b: seq<Predicate>)
    requires LeavesDeclared(schema, a + b)
    ensures LeavesDeclared(schema, a) && LeavesDeclared(schema, b)
  {
    forall p | p in a || p in b ensures p in a + b {}
  }

  lemma {:induction false} LeafTotalNonNegative(schema: Schema, leaves: seq<Predicate>)
    requires ValidSchema(schema) && LeavesDeclared(schema, leaves)
    ensures LeafTotal(schema, leaves) >= 0
    decreases |leaves|
  {
    hide ValidSchema;
    if leaves != [] {
      assert leaves == [leaves[0]] + leaves[1..];
      DeclaredParts(schema, [leaves[0]], leaves[1..]);
      LeafTotalConcat(schema, [leaves[0]], leaves[1..]);
      LeafTotalOne(schema, leaves[0]);
      LeafTotalNonNegative(schema, leaves[1..]);
    } else {
      LeafTotalNone(schema);
    }
  }
}
