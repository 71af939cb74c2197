/** The recursive filter walk as a function of its counters, and the filters it should accept. */
module FilterSpec {
  import opened Text
  import opened Types
  import opened Relationships
  import opened Schemas
  import opened Compilation

  const NUL: string := "\0"

  // ---------------------------------------------------------------- keys joined with a NUL

  function FilterKey(name: string, op: Operator): string { name + NUL + OperatorText(op) }

  function ValueKey(v: Value): string { TypeText(v.kind) + NUL + v.text }

  /** A NUL-free head is read back off the joined text. */
  lemma JoinedHead(head: string, tail: string)
    requires '\0' !in head
    ensures var n := Run(head + NUL + tail, c => c != '\0');
      n == |head| && (head + NUL + tail)[..n] == head && (head + NUL + tail)[n + 1..] == tail
  {
    RunStops(head + NUL + tail, c => c != '\0', |head|);
  }

  lemma OperatorTextInjective(a: Operator, b: Operator)
    ensures OperatorText(a) == OperatorText(b) <==> a == b
  {
    if a.OpUnknown? && !b.OpUnknown? { KnownIsSpelled(b); }
    if b.OpUnknown? && !a.OpUnknown? { KnownIsSpelled(a); }
  }

  lemma KnownIsSpelled(op: Operator)
    requires !op.OpUnknown?
    ensures KnownSpelling(OperatorText(op))
  {
    assert KNOWN_OPERATORS[0] == OpEqual && KNOWN_OPERATORS[1] == OpNotEqual && KNOWN_OPERATORS[2] == OpLess
        && KNOWN_OPERATORS[3] == OpLessOrEqual && KNOWN_OPERATORS[4] == OpGreater
        && KNOWN_OPERATORS[5] == OpGreaterOrEqual && KNOWN_OPERATORS[6] == OpIn && KNOWN_OPERATORS[7] == OpNotIn
        && KNOWN_OPERATORS[8] == OpBetween && KNOWN_OPERATORS[9] == OpIsNull && KNOWN_OPERATORS[10] == OpContains
        && KNOWN_OPERATORS[11] == OpStartsWith && KNOWN_OPERATORS[12] == OpEndsWith;
  }

  /** Joined keys of declared names are equal exactly when name and operator are. */
  lemma FilterKeyInjective(n: string, a: Operator, m: string, b: Operator)
    requires ValidName(n) && ValidName(m)
    ensures FilterKey(n, a) == FilterKey(m, b) <==> n == m && a == b
  {
    NamesHaveNoNul(n);
    NamesHaveNoNul(m);
    JoinedHead(n, OperatorText(a));
    JoinedHead(m, OperatorText(b));
    OperatorTextInjective(a, b);
  }

  lemma NamesHaveNoNul(name: string)
    requires ValidName(name)
    ensures '\0' !in name
  {
    forall i | 0 <= i < |name| ensures name[i] != '\0' {
      assert NameChar(name[i], i == 0);
    }
  }

  /** Joined value keys are equal exactly when the values are. */
  lemma ValueKeyInjective(a: Value, b: Value)
    ensures ValueKey(a) == ValueKey(b) <==> a == b
  {
    JoinedHead(TypeText(a.kind), a.text);
    JoinedHead(TypeText(b.kind), b.text);
  }

  // ---------------------------------------------------------------- one predicate

  /** The operand count an operator demands; None for the membership operators. */
  function Want(op: Operator): Option<nat> {
    match op
    case OpIsNull => Some(0)
    case OpBetween => Some(2)
    case OpIn | OpNotIn => None
    case _ => Some(1)
  }

  function ValueKeys(values: seq<Value>, k: nat): set<string>
    requires k <= |values|
  {
    set i | 0 <= i < k :: ValueKey(values[i])
  }

  function ValueStep(schema: Schema, definition: FilterDefinition, values: seq<Value>, k: nat, path: string,
                     t: Trail): Trail
    requires k < |values|
  {
    var v := values[k];
    t.ReportIf(ValueKey(v) in ValueKeys(values, k), CodeConflict, path)
     .ReportIf(v.kind != definition.kind, CodeInvalidElement, path)
     .ReportIf(ByteLength(v.text) > schema.bounds.maxStringBytes, CodeLimitExceeded, path)
     .ReportIf(v.kind == TypeString && v.text == "" && !definition.allowEmpty, CodeInvalidElement, path)
  }

  function ValueRun(schema: Schema, definition: FilterDefinition, values: seq<Value>, k: nat, path: string,
                    t: Trail): Trail
    requires k <= |values|
  {
    if k == 0 then t
    else ValueStep(schema, definition, values, k - 1, path, ValueRun(schema, definition, values, k - 1, path, t))
  }

  function ArityRun(schema: Schema, p: Predicate, path: string, t: Trail): Trail {
    var count := |p.values|;
    t.ReportIf(Want(p.operator).None? && (count == 0 || count > schema.bounds.maxMembership), CodeLimitExceeded, path)
     .ReportIf(Want(p.operator).Some? && count != Want(p.operator).value, CodeConflict, path)
  }

  function ValuesRun(schema: Schema, definition: FilterDefinition, p: Predicate, path: string, t: Trail): Trail {
    ValueRun(schema, definition, p.values, |p.values|, path, ArityRun(schema, p, path, t))
  }

  // ---------------------------------------------------------------- the walk

  /** The counters and the duplicate set are shared by the whole tree. */
  datatype WalkState = WalkState(trail: Trail, nodes: nat, values: nat, seen: set<string>)

  datatype WalkResult = WalkResult(st: WalkState, filter: Option<FilterExpr>)

  function Refuse(st: WalkState, code: ErrorCode, path: string): WalkResult {
    WalkResult(st.(trail := st.trail.Report(code, path)), None)
  }

  /** A declared, approved and current predicate: its key, its operator and its values. */
  function WalkDeclared(schema: Schema, definition: FilterDefinition, node: FilterExpr, path: string,
                        st: WalkState): WalkResult
    requires node.leaf.Some?
  {
    var p := node.leaf.value;
    var key := FilterKey(p.name, p.operator);
    if key in st.seen then Refuse(st, CodeConflict, path)
    else
      var used := WalkState(st.trail.ReportIf(p.operator !in definition.operators, CodeUnsupported, path),
                            st.nodes, st.values, st.seen + {key});
      if |p.values| > schema.bounds.maxValues - st.values then Refuse(used, CodeLimitExceeded, path)
      else
        WalkResult(WalkState(ValuesRun(schema, definition, p, path, used.trail), used.nodes,
                             used.values + |p.values|, used.seen),
                   Some(node))
  }

  function WalkLeaf(schema: Schema, options: CompileOptions, node: FilterExpr, path: string, st: WalkState): WalkResult
    requires node.leaf.Some?
  {
    var p := node.leaf.value;
    if p.name !in schema.filterIndex || schema.filterIndex[p.name] >= |schema.filters| then
      Refuse(st, CodeInvalidElement, path)
    else
      var definition := schema.filters[schema.filterIndex[p.name]];
      var asked := st.(trail := st.trail.Ask(options, CapabilityFilter, p.name));
      if !Permits(options, CapabilityFilter, p.name) then Refuse(asked, CodeAuthorization, path)
      else if definition.deprecated then Refuse(asked, CodeUnsupported, path)
      else WalkDeclared(schema, definition, node, path, asked)
  }

  function WalkNode(schema: Schema, options: CompileOptions, node: FilterExpr, path: string, depth: int,
                    st: WalkState): WalkResult
    decreases node, |node.children| + 1
  {
    var visited := st.(nodes := st.nodes + 1);
    if depth > schema.bounds.maxFilterDepth then Refuse(visited, CodeLimitExceeded, path)
    else if node.leaf.None? == (node.children == []) then Refuse(visited, CodeConflict, path)
    else if node.leaf.Some? then WalkLeaf(schema, options, node, path, visited)
    else
      var t := visited.trail
               .ReportIf(node.logic !in schema.allowedLogic, CodeUnsupported, path)
               .ReportIf(node.logic == LogicNot && |node.children| != 1, CodeConflict, path);
      WalkChildren(schema, options, node, 0, path, depth, visited.(trail := t), [])
  }

  /** The children from i on, with the compiled ones so far. */
  function WalkChildren(schema: Schema, options: CompileOptions, node: FilterExpr, i: nat, path: string, depth: int,
                        st: WalkState, compiled: seq<FilterExpr>): WalkResult
    requires i <= |node.children|
    decreases node, |node.children| - i
  {
    if i == |node.children| then WalkResult(st, Some(FilterExpr(None, node.logic, compiled)))
    else if st.nodes >= schema.bounds.maxFilterNodes then
      WalkResult(st.(trail := st.trail.Report(CodeLimitExceeded, path)), Some(FilterExpr(None, node.logic, compiled)))
    else
      var child := WalkNode(schema, options, node.children[i], Indexed(path + ".children", i), depth + 1, st);
      WalkChildren(schema, options, node, i + 1, path, depth, child.st,
                   if child.filter.Some? then compiled + [child.filter.value] else compiled)
  }

  function FilterRun(schema: Schema, options: CompileOptions, filter: Option<FilterExpr>, t: Trail)
    : (Trail, Option<FilterExpr>)
  {
    match filter
    case None => (t, None)
    case Some(root) =>
      var r := WalkNode(schema, options, root, "filter", 1, WalkState(t, 0, 0, {}));
      (r.st.trail, r.filter)
  }

  // ---------------------------------------------------------------- the filters to accept

  ghost predicate ValueOk(schema: Schema, definition: FilterDefinition, v: Value) {
    && v.kind == definition.kind
    && ByteLength(v.text) <= schema.bounds.maxStringBytes
    && (v.kind == TypeString && v.text == "" ==> definition.allowEmpty)
  }

  ghost predicate ArityOk(schema: Schema, p: Predicate) {
    match Want(p.operator)
    case Some(n) => |p.values| == n
    case None => 0 < |p.values| <= schema.bounds.maxMembership
  }

  ghost predicate LeafOk(schema: Schema, options: CompileOptions, p: Predicate) {
    && p.name in schema.filterIndex && schema.filterIndex[p.name] < |schema.filters|
    && Permits(options, CapabilityFilter, p.name)
    && var definition := schema.filters[schema.filterIndex[p.name]];
       && !definition.deprecated
       && p.operator in definition.operators
       && ArityOk(schema, p)
       && Distinct(p.values)
       && forall v <- p.values :: ValueOk(schema, definition, v)
  }

  /** Every node is either one admissible predicate or one nonempty group of an allowed logic, and
      no node is too deep. */
  ghost predicate FilterOk(schema: Schema, options: CompileOptions, node: FilterExpr, depth: int)
    decreases node
  {
    && depth <= schema.bounds.maxFilterDepth
    && if node.leaf.Some? then node.children == [] && LeafOk(schema, options, node.leaf.value)
       else
         && node.children != [] && node.logic in schema.allowedLogic
         && (node.logic == LogicNot ==> |node.children| == 1)
         && forall i :: 0 <= i < |node.children| ==> FilterOk(schema, options, node.children[i], depth + 1)
  }

  /** The predicates of a tree, left to right. */
  function Leaves(node: FilterExpr): seq<Predicate>
    decreases node, |node.children| + 1
  {
    if node.leaf.Some? then [node.leaf.value] else LeavesFrom(node, 0)
  }

  function LeavesFrom(node: FilterExpr, i: nat): seq<Predicate>
    requires i <= |node.children|
    decreases node, |node.children| - i
  {
    if i == |node.children| then [] else Leaves(node.children[i]) + LeavesFrom(node, i + 1)
  }

  function Size(node: FilterExpr): nat
    decreases node, |node.children| + 1
  {
    1 + if node.leaf.Some? then 0 else SizeFrom(node, 0)
  }

  function SizeFrom(node: FilterExpr, i: nat): nat
    requires i <= |node.children|
    decreases node, |node.children| - i
  {
    if i == |node.children| then 0 else Size(node.children[i]) + SizeFrom(node, i + 1)
  }

  function ValueCount(leaves: seq<Predicate>): nat {
    if leaves == [] then 0 else |leaves[0].values| + ValueCount(leaves[1..])
  }

  function KeyTexts(leaves: seq<Predicate>): (keys: seq<string>)
    ensures |keys| == |leaves|
  {
    seq(|leaves|, i requires 0 <= i < |leaves| => FilterKey(leaves[i].name, leaves[i].operator))
  }

  /** No name and operator occur together twice, anywhere in the tree. */
  ghost predicate LeavesDistinct(leaves: seq<Predicate>) {
    forall i, j :: 0 <= i < j < |leaves| ==> !(leaves[i].name == leaves[j].name
                                               && leaves[i].operator == leaves[j].operator)
  }

  ghost predicate TreeOk(schema: Schema, options: CompileOptions, root: FilterExpr) {
    && FilterOk(schema, options, root, 1)
    && Size(root) <= schema.bounds.maxFilterNodes
    && ValueCount(Leaves(root)) <= schema.bounds.maxValues
    && LeavesDistinct(Leaves(root))
  }
}
