/** What compiling a request means, in terms of the declarations and the request alone: which requests are
    admissible, which plan they name and what it costs. None of this looks anything up in an index, and
    none of it knows the order in which Compile works. */
module Declarations {
  import opened Text
  import opened Types
  import opened Relationships
  import opened Schemas

  /** A bound that is not positive has a default. */
  function Limit(declared: int, fallback: int): int { if declared > 0 then declared else fallback }

  /** Without an authorizer everything is allowed. */
  ghost predicate Allowed(options: CompileOptions, kind: CapabilityKind, name: string) {
    options.authorize.Some? ==> options.authorize.value(Capability(kind, name))
  }

  function Plus(items: seq<int>): int { if items == [] then 0 else items[0] + Plus(items[1..]) }

  ghost predicate NoRepeats(names: seq<string>) { forall i, j :: 0 <= i < j < |names| ==> names[i] != names[j] }

  // ---------------------------------------------------------------- names

  const LETTERS: string := "abcdefghijklm" + "nopqrstuvwxyz"

  const NAME_TAIL: string := LETTERS + "0123456789_"

  predicate Name(s: string) {
    |s| > 0 && s[0] in LETTERS && forall i :: 0 < i < |s| ==> s[i] in NAME_TAIL
  }

  const VALUE_TYPES: set<ValueType> := {TypeString, TypeInt, TypeUint, TypeFloat, TypeBool, TypeTime, TypeBytes}

  const ORDERED_TYPES: set<ValueType> := {TypeString, TypeInt, TypeUint, TypeFloat, TypeTime}

  // ---------------------------------------------------------------- fields

  /** names are the names of exactly the declarations to keep, in declaration order. */
  ghost predicate Lists(names: seq<string>, fields: seq<FieldDefinition>, keep: FieldDefinition -> bool) {
    exists at: seq<nat> :: ListsAt(names, fields, keep, at)
  }

  ghost predicate ListsAt(names: seq<string>, fields: seq<FieldDefinition>, keep: FieldDefinition -> bool,
                          at: seq<nat>) {
    && |at| == |names|
    && (forall i :: 0 <= i < |at| ==> at[i] < |fields| && keep(fields[at[i]]) && names[i] == fields[at[i]].name)
    && (forall i, j :: 0 <= i < j < |at| ==> at[i] < at[j])
    && (forall k: nat {:trigger k in at} :: k < |fields| && keep(fields[k]) ==> k in at)
  }

  /** The response fields a request has in effect: its own, or the default ones. */
  ghost predicate FieldsInEffect(c: SchemaConfig, requested: Option<seq<string>>, fields: seq<string>) {
    match requested
    case Some(own) => fields == own
    case None => Lists(fields, c.fields, (d: FieldDefinition) => d.selected)
  }

  ghost predicate FieldOffered(c: SchemaConfig, options: CompileOptions, name: string) {
    && (exists d <- c.fields :: d.name == name && !d.deprecated)
    && Allowed(options, CapabilityField, name)
  }

  ghost predicate FieldsFit(c: SchemaConfig, options: CompileOptions, fields: seq<string>) {
    && |fields| <= Limit(c.bounds.maxFields, 64) && NoRepeats(fields)
    && forall f <- fields :: FieldOffered(c, options, f)
  }

  /** Required fields the response lacks, in declaration order, and then the response. */
  ghost predicate Executes(c: SchemaConfig, response: seq<string>, execution: seq<string>) {
    exists added :: execution == added + response && Lists(added, c.fields,
                                                           (d: FieldDefinition) => d.required && d.name !in response)
  }

  // ---------------------------------------------------------------- constraints

  ghost predicate ConstraintsFit(c: SchemaConfig, constraints: seq<Constraint>) {
    && |constraints| <= Limit(c.bounds.maxValues, 256)
    && (forall i, j :: 0 <= i < j < |constraints| ==> constraints[i].name != constraints[j].name)
    && forall x <- constraints ::
         && Name(x.name) && x.value.kind in VALUE_TYPES
         && ByteLength(x.value.text) <= Limit(c.bounds.maxStringBytes, 4096)
  }

  // ---------------------------------------------------------------- configurations

  /** d is declared under these nested names. */
  ghost predicate Declares(rs: seq<RelationshipDefinition>, names: seq<string>, d: RelationshipDefinition)
    decreases |names|
  {
    names != [] && exists r <- rs ::
      r.name == names[0] && if |names| == 1 then d == r else Declares(r.relationships, names[1..], d)
  }

  /** A definition's name, type and cost. */
  ghost predicate Declared(c: SchemaConfig, name: string, kind: ValueType, cost: Int64) {
    Name(name) && kind in VALUE_TYPES && 0 <= cost as int <= Limit(c.bounds.maxCost as int, 1000)
  }

  /** The operators that fit a filter. */
  predicate Suits(op: Operator, d: FilterDefinition) {
    || op in {OpEqual, OpNotEqual, OpIn, OpNotIn}
    || (op in {OpLess, OpLessOrEqual, OpGreater, OpGreaterOrEqual, OpBetween} && d.kind in ORDERED_TYPES)
    || (op in {OpContains, OpStartsWith, OpEndsWith} && d.kind == TypeString)
    || (op == OpIsNull && d.nullable)
  }

  ghost predicate BoundsFit(b: Bounds) {
    && b.maxRequestBytes >= 0 && b.maxFields >= 0 && b.maxIncludes >= 0 && b.maxIncludeDepth >= 0
    && b.maxFilterDepth >= 0 && b.maxFilterNodes >= 0 && b.maxValues >= 0 && b.maxMembership >= 0
    && b.maxStringBytes >= 0 && b.maxSorts >= 0 && b.maxPageSize >= 0 && b.maxCursorBytes >= 0
    && b.maxCanonicalBytes >= 0 && b.maxErrors >= 0 && b.maxCost >= 0
  }

  ghost predicate DefinitionsFit(c: SchemaConfig) {
    && (forall d <- c.fields :: Declared(c, d.name, d.kind, d.cost))
    && (forall i, j :: 0 <= i < j < |c.fields| ==> c.fields[i].name != c.fields[j].name)
    && (forall d <- c.filters ::
          && Declared(c, d.name, d.kind, d.cost) && d.operators != []
          && (forall i, j :: 0 <= i < j < |d.operators| ==> d.operators[i] != d.operators[j])
          && forall op <- d.operators :: Suits(op, d))
    && (forall i, j :: 0 <= i < j < |c.filters| ==> c.filters[i].name != c.filters[j].name)
    && (forall d <- c.sorts ::
          Declared(c, d.name, d.kind, d.cost) && d.nulls in {NullsUnset, NullsFirst, NullsLast})
    && (forall i, j :: 0 <= i < j < |c.sorts| ==> c.sorts[i].name != c.sorts[j].name)
  }

  ghost predicate SiblingsApart(rs: seq<RelationshipDefinition>) {
    forall i, j :: 0 <= i < j < |rs| ==> rs[i].name != rs[j].name
  }

  /** Declared well everywhere, with no resource below itself or below the roots. */
  ghost predicate TreeFits(rs: seq<RelationshipDefinition>, roots: set<string>, maxCost: int) {
    && SiblingsApart(rs)
    && (forall names, d | Declares(rs, names, d) ::
          Name(d.name) && Name(d.resource) && 0 <= d.cost as int <= maxCost && d.resource !in roots
          && SiblingsApart(d.relationships))
    && forall names, d, more, e | Declares(rs, names, d) && Declares(d.relationships, more, e) ::
         d.resource != e.resource
  }

  /** The sort at i is a tie-breaker, and no other is. */
  ghost predicate TieBreakerIs(sorts: seq<SortDefinition>, i: int) {
    forall j :: 0 <= j < |sorts| ==> (sorts[j].tieBreaker <==> j == i)
  }

  ghost predicate DefaultTermFits(c: SchemaConfig, t: SortTerm) {
    && t.direction in {Ascending, Descending}
    && exists d <- c.sorts :: d.name == t.name && (t.nulls == NullsUnset || t.nulls == d.nulls)
  }

  ghost predicate Breaks(c: SchemaConfig, t: SortTerm) { exists d <- c.sorts :: d.name == t.name && d.tieBreaker }

  ghost predicate PaginationFits(c: SchemaConfig) {
    var p, room := c.pagination, Limit(c.bounds.maxSorts, 8);
    && |c.defaultSort| <= room
    && (p.cursor || p.offset ==> 0 < p.defaultPageSize <= Limit(c.bounds.maxPageSize, 100))
    && (p.offset ==> p.maxOffset >= 0)
    && (p.cursor ==> exists i :: 0 <= i < |c.sorts| && TieBreakerIs(c.sorts, i))
    && (forall t <- c.defaultSort :: DefaultTermFits(c, t))
    && (forall i, j :: 0 <= i < j < |c.defaultSort| ==> c.defaultSort[i].name != c.defaultSort[j].name)
    && (p.cursor && |c.defaultSort| == room ==> exists t <- c.defaultSort :: Breaks(c, t))
  }

  /** The configurations NewSchema accepts. */
  ghost predicate ConfigFits(c: SchemaConfig) {
    && BoundsFit(c.bounds) && Name(c.resource) && c.revision != ""
    && (forall l <- c.allowedLogic :: l in {LogicAnd, LogicOr, LogicNot})
    && (forall i, j :: 0 <= i < j < |c.allowedLogic| ==> c.allowedLogic[i] != c.allowedLogic[j])
    && DefinitionsFit(c) && TreeFits(c.relationships, {c.resource}, Limit(c.bounds.maxCost as int, 1000))
    && PaginationFits(c)
  }

  // ---------------------------------------------------------------- includes

  function Path(names: seq<string>): string { Join(names, ".") }

  ghost predicate IncludeOffered(c: SchemaConfig, options: CompileOptions, path: string) {
    exists names, d ::
      && Declares(c.relationships, names, d) && path == Path(names)
      && |names| <= Limit(c.bounds.maxIncludeDepth, 4)
      && forall j :: 0 < j <= |names| ==> Allowed(options, CapabilityRelationship, Path(names[..j]))
  }

  ghost predicate IncludesFit(c: SchemaConfig, options: CompileOptions, includes: seq<string>) {
    && |includes| <= Limit(c.bounds.maxIncludes, 16) && NoRepeats(includes)
    && forall p <- includes :: IncludeOffered(c, options, p)
  }

  /** An edge of the included paths: a declared path's beginning. */
  ghost predicate IsEdge(c: SchemaConfig, includes: seq<string>, edge: string) {
    exists names, d, j :: EdgeAt(c, includes, edge, names, d, j)
  }

  ghost predicate EdgeAt(c: SchemaConfig, includes: seq<string>, edge: string, names: seq<string>,
                         d: RelationshipDefinition, j: nat)
  {
    Declares(c.relationships, names, d) && Path(names) in includes && 0 < j <= |names| && edge == Path(names[..j])
  }

  ghost predicate AreEdges(c: SchemaConfig, includes: seq<string>, edges: seq<string>) {
    NoRepeats(edges) && forall e :: e in edges <==> IsEdge(c, includes, e)
  }

  // ---------------------------------------------------------------- filters

  /** The node a path of child indexes leads to. */
  function NodeOf(e: FilterExpr, steps: seq<nat>): Option<FilterExpr>
    decreases |steps|
  {
    if steps == [] then Some(e)
    else if steps[0] < |e.children| then NodeOf(e.children[steps[0]], steps[1..])
    else None
  }

  ghost predicate NodeFits(c: SchemaConfig, options: CompileOptions, e: FilterExpr) {
    if e.leaf.Some? then e.children == [] && LeafFits(c, options, e.leaf.value)
    else
      && e.children != []
      && (e.logic in c.allowedLogic || (c.allowedLogic == [] && e.logic == LogicAnd))
      && (e.logic == LogicNot ==> |e.children| == 1)
  }

  ghost predicate LeafFits(c: SchemaConfig, options: CompileOptions, p: Predicate) {
    && Allowed(options, CapabilityFilter, p.name)
    && (exists d <- c.filters :: d.name == p.name && !d.deprecated && p.operator in d.operators && OperandsFit(c, d, p))
  }

  ghost predicate OperandsFit(c: SchemaConfig, d: FilterDefinition, p: Predicate) {
    && (match p.operator
        case OpIsNull => p.values == []
        case OpBetween => |p.values| == 2
        case OpIn | OpNotIn => 1 <= |p.values| <= Limit(c.bounds.maxMembership, 100)
        case _ => |p.values| == 1)
    && (forall i, j :: 0 <= i < j < |p.values| ==> p.values[i] != p.values[j])
    && forall v <- p.values ::
         && v.kind == d.kind && ByteLength(v.text) <= Limit(c.bounds.maxStringBytes, 4096)
         && (v == Value(TypeString, "") ==> d.allowEmpty)
  }

  predicate IsNode(root: FilterExpr, steps: seq<nat>) { NodeOf(root, steps).Some? }

  predicate IsLeaf(root: FilterExpr, steps: seq<nat>) {
    IsNode(root, steps) && NodeOf(root, steps).value.leaf.Some?
  }

  function PredicateAt(root: FilterExpr, steps: seq<nat>): Predicate
    requires IsLeaf(root, steps)
  {
    NodeOf(root, steps).value.leaf.value
  }

  /** Depth first, left to right. */
  predicate Earlier(a: seq<nat>, b: seq<nat>) {
    b != [] && (a != [] ==> a[0] < b[0] || (a[0] == b[0] && Earlier(a[1..], b[1..])))
  }

  ghost predicate AllNodes(root: FilterExpr, paths: seq<seq<nat>>) {
    && (forall i, j :: 0 <= i < j < |paths| ==> Earlier(paths[i], paths[j]))
    && forall steps :: steps in paths <==> IsNode(root, steps)
  }

  ghost predicate AllLeaves(root: FilterExpr, paths: seq<seq<nat>>) {
    && (forall i, j :: 0 <= i < j < |paths| ==> Earlier(paths[i], paths[j]))
    && forall steps :: steps in paths <==> IsLeaf(root, steps)
  }

  /** How many operands each predicate has. */
  ghost predicate OperandCounts(root: FilterExpr, counts: seq<int>) {
    exists paths | AllLeaves(root, paths) ::
      |counts| == |paths| && forall i :: 0 <= i < |paths| ==> counts[i] == |PredicateAt(root, paths[i]).values|
  }

  /** Every node is in its place and none is too deep. */
  ghost predicate PlacesFit(c: SchemaConfig, options: CompileOptions, root: FilterExpr) {
    forall steps :: IsNode(root, steps) ==>
      |steps| < Limit(c.bounds.maxFilterDepth, 8) && NodeFits(c, options, NodeOf(root, steps).value)
  }

  /** No two predicates agree in name and operator. */
  ghost predicate PredicatesApart(root: FilterExpr) {
    forall a, b | IsLeaf(root, a) && IsLeaf(root, b) && a != b ::
      PredicateAt(root, a).name != PredicateAt(root, b).name
      || PredicateAt(root, a).operator != PredicateAt(root, b).operator
  }

  ghost predicate FilterFits(c: SchemaConfig, options: CompileOptions, root: FilterExpr) {
    && PlacesFit(c, options, root)
    && (exists paths | AllNodes(root, paths) :: |paths| <= Limit(c.bounds.maxFilterNodes, 128))
    && (exists counts | OperandCounts(root, counts) :: Plus(counts) <= Limit(c.bounds.maxValues, 256))
    && PredicatesApart(root)
  }

  // ---------------------------------------------------------------- sorts

  function TermsInEffect(c: SchemaConfig, requested: Option<seq<SortTerm>>): seq<SortTerm> {
    if requested.Some? then requested.value else c.defaultSort
  }

  ghost predicate TermFits(c: SchemaConfig, options: CompileOptions, t: SortTerm) {
    && (t.direction == Ascending || t.direction == Descending)
    && Allowed(options, CapabilitySort, t.name)
    && exists d <- c.sorts :: d.name == t.name && (t.nulls == NullsUnset || t.nulls == d.nulls)
  }

  ghost predicate TermsFit(c: SchemaConfig, options: CompileOptions, terms: seq<SortTerm>) {
    && |terms| <= Limit(c.bounds.maxSorts, 8)
    && (forall i, j :: 0 <= i < j < |terms| ==> terms[i].name != terms[j].name)
    && forall t <- terms :: TermFits(c, options, t)
  }

  /** A term as the plan holds it: a missing null order is the declared one. */
  ghost predicate Filled(c: SchemaConfig, t: SortTerm, done: SortTerm) {
    && done.name == t.name && done.direction == t.direction
    && (t.nulls != NullsUnset ==> done.nulls == t.nulls)
    && (t.nulls == NullsUnset ==> forall d <- c.sorts :: d.name == t.name ==> done.nulls == d.nulls)
  }

  /** The plan's order: every term filled in and, on a cursor page, the tie-breaker at the end, ascending,
      unless it is there already. */
  ghost predicate Ordered(c: SchemaConfig, cursorPage: bool, terms: seq<SortTerm>, final: seq<SortTerm>) {
    && |terms| <= |final|
    && (forall i :: 0 <= i < |terms| ==> Filled(c, terms[i], final[i]))
    && if cursorPage && exists d <- c.sorts :: d.tieBreaker && d.name !in NamesOfTerms(terms) then
         forall d <- c.sorts :: d.tieBreaker ==> final[|terms|..] == [SortTerm(d.name, Ascending, d.nulls)]
       else |final| == |terms|
  }

  ghost function NamesOfTerms(terms: seq<SortTerm>): set<string> { set t <- terms :: t.name }

  /** There must be room for the tie-breaker, and permission to use it. */
  ghost predicate TieFits(c: SchemaConfig, options: CompileOptions, terms: seq<SortTerm>) {
    forall d <- c.sorts :: d.tieBreaker && d.name !in NamesOfTerms(terms) ==>
      |terms| < Limit(c.bounds.maxSorts, 8) && Allowed(options, CapabilitySort, d.name)
  }

  // ---------------------------------------------------------------- pages and cursors

  ghost predicate PageFits(c: SchemaConfig, p: PageRequest) {
    match p.mode
    case PageUnset => p.size == 0 && p.offset == 0 && p.after == "" && p.before == ""
    case PageNone => p.size == 0 && p.offset == 0 && p.after == "" && p.before == ""
    case PageCursor =>
      && c.pagination.cursor && 0 <= p.size <= Limit(c.bounds.maxPageSize, 100) && p.offset == 0
      && (p.after == "" || p.before == "")
      && ByteLength(p.after + p.before) <= Limit(c.bounds.maxCursorBytes, 4096)
    case PageOffset =>
      && c.pagination.offset && 0 <= p.size <= Limit(c.bounds.maxPageSize, 100)
      && 0 <= p.offset <= c.pagination.maxOffset && p.after == "" && p.before == ""
    case PageUnknown(_) => false
  }

  /** The plan's page: no page by default, the default size where an active mode gives none, no tokens. */
  function PageOf(c: SchemaConfig, p: PageRequest): PageRequest {
    match p.mode
    case PageUnset => PageRequest(PageNone, p.size, "", "", p.offset)
    case PageNone => PageRequest(PageNone, p.size, "", "", p.offset)
    case mode => PageRequest(mode, if p.size == 0 then c.pagination.defaultPageSize else p.size, "", "", p.offset)
  }

  ghost predicate StateFits(c: SchemaConfig, direction: CursorDirection, final: seq<SortTerm>, state: CursorState) {
    && state.direction == direction && |state.positions| == |final|
    && ByteLength(state.policy) <= Limit(c.bounds.maxStringBytes, 4096)
    && forall i :: 0 <= i < |final| ==>
         && ByteLength(state.positions[i].text) <= Limit(c.bounds.maxStringBytes, 4096)
         && (state.positions[i].kind == TypeNull
             || exists d <- c.sorts :: d.name == final[i].name && d.kind == state.positions[i].kind)
  }

  /** What the plan holds as its cursor: nothing without a token, else what the token decodes to. */
  ghost predicate CursorIs(c: SchemaConfig, options: CompileOptions, p: PageRequest, final: seq<SortTerm>,
                           cursor: Option<CursorState>)
  {
    if p.mode != PageCursor || (p.after == "" && p.before == "") then cursor == None
    else
      var (token, direction) := if p.after != "" then (p.after, Forward) else (p.before, Backward);
      && cursor.Some? && options.decoder.Some? && cursor == options.decoder.value(token, c.revision, final)
      && StateFits(c, direction, final, cursor.value)
  }

  // ---------------------------------------------------------------- admission

  /** Every component of the request that a plan was named for is acceptable. */
  ghost predicate Admissible(c: SchemaConfig, request: Request, options: CompileOptions, plan: PlanData) {
    var terms := TermsInEffect(c, request.sorts);
    && (request.schemaRevision == None || request.schemaRevision == Some(c.revision))
    && ConstraintsFit(c, options.constraints)
    && FieldsFit(c, options, plan.responseFields)
    && IncludesFit(c, options, plan.includes)
    && (request.filter.Some? ==> FilterFits(c, options, request.filter.value))
    && TermsFit(c, options, terms)
    && PageFits(c, request.page)
    && (request.page.mode == PageCursor ==> TieFits(c, options, terms))
  }

  // ---------------------------------------------------------------- cost

  ghost predicate FieldBill(c: SchemaConfig, names: seq<string>, items: seq<int>) {
    && |items| == |names|
    && forall i, d | 0 <= i < |names| && d in c.fields && d.name == names[i] :: items[i] == d.cost as int
  }

  ghost predicate EdgeBill(c: SchemaConfig, edges: seq<string>, items: seq<int>) {
    && |items| == |edges|
    && forall i, names, d | 0 <= i < |edges| && Declares(c.relationships, names, d) && Path(names) == edges[i] ::
         items[i] == d.cost as int
  }

  ghost predicate LeafBill(c: SchemaConfig, filter: Option<FilterExpr>, items: seq<int>) {
    match filter
    case None => items == []
    case Some(root) => exists paths | AllLeaves(root, paths) ::
      && |items| == |paths|
      && forall i, d | 0 <= i < |paths| && d in c.filters && d.name == PredicateAt(root, paths[i]).name ::
           items[i] == d.cost as int
  }

  ghost predicate SortBill(c: SchemaConfig, final: seq<SortTerm>, items: seq<int>) {
    && |items| == |final|
    && forall i, d | 0 <= i < |final| && d in c.sorts && d.name == final[i].name :: items[i] == d.cost as int
  }

  datatype Bill = Bill(fields: seq<int>, edges: seq<int>, leaves: seq<int>, sorts: seq<int>) {
    /** One, and everything on the bill. */
    function Total(): int { 1 + Plus(fields) + Plus(edges) + Plus(leaves) + Plus(sorts) }
  }

  /** What a plan is charged for: each execution field, each distinct edge, each predicate of the filter, each
      term of the order, at its declared cost. */
  ghost predicate Billed(c: SchemaConfig, plan: PlanData, edges: seq<string>, bill: Bill) {
    && FieldBill(c, plan.executionFields, bill.fields)
    && AreEdges(c, plan.includes, edges) && EdgeBill(c, edges, bill.edges)
    && LeafBill(c, plan.filter, bill.leaves)
    && SortBill(c, plan.sorts, bill.sorts)
  }

  // ---------------------------------------------------------------- the plan

  /** The plan a request names. */
  ghost predicate Names(c: SchemaConfig, request: Request, options: CompileOptions, plan: PlanData) {
    && plan.resource == c.resource && plan.revision == c.revision
    && FieldsInEffect(c, request.fields, plan.responseFields)
    && Executes(c, plan.responseFields, plan.executionFields)
    && plan.includes == (if request.includes.Some? then request.includes.value else [])
    && plan.filter == request.filter && plan.constraints == options.constraints
    && Ordered(c, request.page.mode == PageCursor, TermsInEffect(c, request.sorts), plan.sorts)
    && plan.page == PageOf(c, request.page) && CursorIs(c, options, request.page, plan.sorts, plan.cursor)
  }

  /** The request compiles to this plan. */
  ghost predicate Compiles(c: SchemaConfig, request: Request, options: CompileOptions, plan: PlanData,
                           edges: seq<string>, bill: Bill)
  {
    && Names(c, request, options, plan) && Admissible(c, request, options, plan)
    && Billed(c, plan, edges, bill) && plan.cost == bill.Total() <= Limit(c.bounds.maxCost as int, 1000)
  }
}
