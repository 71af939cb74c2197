/** Schema construction: NewSchema accepts exactly the well-formed declarations and indexes them. */
module Schemas {
  import opened Types
  import opened Relationships

  // ---------------------------------------------------------------- declarations

  datatype Bounds = Bounds(
    maxRequestBytes: int, maxFields: int, maxIncludes: int, maxIncludeDepth: int, maxFilterDepth: int,
    maxFilterNodes: int, maxValues: int, maxMembership: int, maxStringBytes: int, maxSorts: int,
    maxPageSize: int, maxCursorBytes: int, maxCanonicalBytes: int, maxErrors: int, maxCost: Int64)

  datatype FieldDefinition = FieldDefinition(
    name: string, kind: ValueType, selected: bool, required: bool, deprecated: bool, cost: Int64)

  datatype FilterDefinition = FilterDefinition(
    name: string, kind: ValueType, operators: seq<Operator>, guarded: bool, deprecated: bool,
    nullable: bool, allowEmpty: bool, cost: Int64)

  datatype SortDefinition = SortDefinition(
    name: string, kind: ValueType, tieBreaker: bool, nulls: NullOrder, cost: Int64)

  datatype PaginationDefinition = PaginationDefinition(
    cursor: bool, offset: bool, defaultPageSize: int, maxOffset: int)

  datatype SchemaConfig = SchemaConfig(
    resource: string,
    revision: string,
    fields: seq<FieldDefinition>,
    filters: seq<FilterDefinition>,
    sorts: seq<SortDefinition>,
    relationships: seq<RelationshipDefinition>,
    defaultSort: seq<SortTerm>,
    allowedLogic: seq<Logic>,
    pagination: PaginationDefinition,
    bounds: Bounds)

  datatype Schema = Schema(
    resource: string,
    revision: string,
    fields: seq<FieldDefinition>,
    fieldIndex: map<string, nat>,
    filters: seq<FilterDefinition>,
    filterIndex: map<string, nat>,
    sorts: seq<SortDefinition>,
    sortIndex: map<string, nat>,
    relationIndex: RelationIndex,
    defaultSort: seq<SortTerm>,
    allowedLogic: set<Logic>,
    bounds: Bounds,
    pagination: PaginationDefinition)

  function OrDefault(value: int, fallback: int): int {
    if value <= 0 then fallback else value
  }

  function Normalized(b: Bounds): Bounds {
    Bounds(
      OrDefault(b.maxRequestBytes, 16384), OrDefault(b.maxFields, 64), OrDefault(b.maxIncludes, 16),
      OrDefault(b.maxIncludeDepth, 4), OrDefault(b.maxFilterDepth, 8), OrDefault(b.maxFilterNodes, 128),
      OrDefault(b.maxValues, 256), OrDefault(b.maxMembership, 100), OrDefault(b.maxStringBytes, 4096),
      OrDefault(b.maxSorts, 8), OrDefault(b.maxPageSize, 100), OrDefault(b.maxCursorBytes, 4096),
      OrDefault(b.maxCanonicalBytes, 65536), OrDefault(b.maxErrors, 16),
      if b.maxCost <= 0 then 1000 else b.maxCost)
  }

  /** The declared bounds in the order validateDeclaredBounds reports them. */
  function BoundValues(b: Bounds): seq<int> {
    [b.maxRequestBytes, b.maxFields, b.maxIncludes, b.maxIncludeDepth, b.maxFilterDepth, b.maxFilterNodes,
     b.maxValues, b.maxMembership, b.maxStringBytes, b.maxSorts, b.maxPageSize, b.maxCursorBytes,
     b.maxCanonicalBytes, b.maxErrors, b.maxCost as int]
  }

  ghost predicate PositiveBounds(b: Bounds) {
    forall i :: 0 <= i < |BoundValues(b)| ==> BoundValues(b)[i] > 0
  }

  predicate OperatorSupportsType(op: Operator, kind: ValueType, nullable: bool) {
    match op
    case OpEqual | OpNotEqual | OpIn | OpNotIn => true
    case OpLess | OpLessOrEqual | OpGreater | OpGreaterOrEqual | OpBetween => kind != TypeBool && kind != TypeBytes
    case OpIsNull => nullable
    case OpContains | OpStartsWith | OpEndsWith => kind == TypeString
    case OpUnknown(_) => false
  }

  // ---------------------------------------------------------------- what a well-formed declaration is

  ghost predicate FieldDeclared(f: FieldDefinition, maxCost: Int64) {
    ValidName(f.name) && ValidType(f.kind) && CostDeclared(f.cost, maxCost)
  }

  ghost predicate FilterDeclared(f: FilterDefinition, maxCost: Int64) {
    && ValidName(f.name) && ValidType(f.kind) && f.operators != [] && CostDeclared(f.cost, maxCost)
    && Distinct(f.operators)
    && forall op <- f.operators :: OperatorSupportsType(op, f.kind, f.nullable)
  }

  ghost predicate SortDeclared(s: SortDefinition, maxCost: Int64) {
    ValidName(s.name) && ValidType(s.kind) && ValidNulls(s.nulls) && CostDeclared(s.cost, maxCost)
  }

  function FieldNames(fields: seq<FieldDefinition>): (names: seq<string>)
    ensures |names| == |fields|
  {
    seq(|fields|, i requires 0 <= i < |fields| => fields[i].name)
  }

  function FilterNames(filters: seq<FilterDefinition>): (names: seq<string>)
    ensures |names| == |filters|
  {
    seq(|filters|, i requires 0 <= i < |filters| => filters[i].name)
  }

  function SortNames(sorts: seq<SortDefinition>): (names: seq<string>)
    ensures |names| == |sorts|
  {
    seq(|sorts|, i requires 0 <= i < |sorts| => sorts[i].name)
  }

  function TermNames(terms: seq<SortTerm>): (names: seq<string>)
    ensures |names| == |terms|
  {
    seq(|terms|, i requires 0 <= i < |terms| => terms[i].name)
  }

  /** index maps each of the first k names to its position, and nothing else. */
  ghost predicate Indexes(index: map<string, nat>, names: seq<string>, k: nat)
    requires k <= |names|
  {
    && (forall i :: 0 <= i < k ==> names[i] in index && index[names[i]] == i)
    && (forall n <- index :: index[n] < k && names[index[n]] == n)
  }

  ghost predicate TermDeclared(term: SortTerm, sorts: seq<SortDefinition>) {
    && ValidDirection(term.direction)
    && ValidNulls(term.nulls)
    && exists i :: 0 <= i < |sorts| && sorts[i].name == term.name
                   && (term.nulls == NullsUnset || term.nulls == sorts[i].nulls)
  }

  ghost predicate IsTieBreaker(name: string, sorts: seq<SortDefinition>) {
    exists i :: 0 <= i < |sorts| && sorts[i].name == name && sorts[i].tieBreaker
  }

  ghost predicate OneTieBreaker(sorts: seq<SortDefinition>) {
    exists i ::
      && 0 <= i < |sorts| && sorts[i].tieBreaker
      && forall j :: 0 <= j < |sorts| && sorts[j].tieBreaker ==> j == i
  }

  ghost predicate PaginationDeclared(p: PaginationDefinition, defaultSort: seq<SortTerm>,
                                     sorts: seq<SortDefinition>, bounds: Bounds) {
    && |defaultSort| <= bounds.maxSorts
    && (p.cursor || p.offset ==> 0 < p.defaultPageSize <= bounds.maxPageSize)
    && (p.offset ==> 0 <= p.maxOffset)
    && (p.cursor ==> OneTieBreaker(sorts))
    && (forall i :: 0 <= i < |defaultSort| ==> TermDeclared(defaultSort[i], sorts))
    && Distinct(TermNames(defaultSort))
    && (p.cursor && |defaultSort| >= bounds.maxSorts ==>
          exists i :: 0 <= i < |defaultSort| && IsTieBreaker(defaultSort[i].name, sorts))
  }

  ghost predicate LogicDeclared(logic: seq<Logic>) {
    Distinct(logic) && forall l <- logic :: !l.LogicUnknown?
  }

  ghost predicate ValidConfig(c: SchemaConfig) {
    var bounds := Normalized(c.bounds);
    && (forall i :: 0 <= i < |BoundValues(c.bounds)| ==> BoundValues(c.bounds)[i] >= 0)
    && ValidName(c.resource) && c.revision != ""
    && LogicDeclared(c.allowedLogic)
    && (forall f <- c.fields :: FieldDeclared(f, bounds.maxCost)) && Distinct(FieldNames(c.fields))
    && (forall f <- c.filters :: FilterDeclared(f, bounds.maxCost)) && Distinct(FilterNames(c.filters))
    && (forall s <- c.sorts :: SortDeclared(s, bounds.maxCost)) && Distinct(SortNames(c.sorts))
    && ValidRelations(c.relationships, |c.relationships|, {c.resource}, bounds.maxCost)
    && PaginationDeclared(c.pagination, c.defaultSort, c.sorts, bounds)
  }

  /** s is the snapshot of c; the index maps are determined by the declarations. */
  ghost predicate Snapshot(c: SchemaConfig, s: Schema) {
    && s.resource == c.resource && s.revision == c.revision
    && s.fields == c.fields && s.filters == c.filters && s.sorts == c.sorts
    && s.defaultSort == c.defaultSort && s.pagination == c.pagination
    && s.bounds == Normalized(c.bounds)
    && s.allowedLogic == (if c.allowedLogic == [] then {LogicAnd} else set l <- c.allowedLogic)
    && Indexes(s.fieldIndex, FieldNames(c.fields), |c.fields|)
    && Indexes(s.filterIndex, FilterNames(c.filters), |c.filters|)
    && Indexes(s.sortIndex, SortNames(c.sorts), |c.sorts|)
    && s.relationIndex == IndexOf(c.relationships, |c.relationships|, "")
  }

  /** What the compiler relies on in a constructed schema. */
  ghost predicate ValidSchema(s: Schema) {
    && PositiveBounds(s.bounds)
    && s.allowedLogic != {} && (forall l <- s.allowedLogic :: !l.LogicUnknown?)
    && (forall f <- s.fields :: FieldDeclared(f, s.bounds.maxCost))
    && Indexes(s.fieldIndex, FieldNames(s.fields), |s.fields|)
    && (forall f <- s.filters :: FilterDeclared(f, s.bounds.maxCost))
    && Indexes(s.filterIndex, FilterNames(s.filters), |s.filters|)
    && (forall d <- s.sorts :: SortDeclared(d, s.bounds.maxCost))
    && Indexes(s.sortIndex, SortNames(s.sorts), |s.sorts|)
    && PrefixClosed(s.relationIndex, {s.resource}, s.bounds.maxCost)
    && PaginationDeclared(s.pagination, s.defaultSort, s.sorts, s.bounds)
  }

  lemma SnapshotIsValid(c: SchemaConfig, s: Schema)
    requires ValidConfig(c) && Snapshot(c, s)
    ensures ValidSchema(s)
  {
    IndexIsPrefixClosed(c.relationships, {c.resource}, s.bounds.maxCost);
    hide IndexOf, PrefixClosed, ValidRelations, PaginationDeclared, FilterDeclared, SortDeclared, FieldDeclared,
      Indexes;
    DefaultsArePositive(c.bounds);
    if c.allowedLogic != [] {
      assert c.allowedLogic[0] in s.allowedLogic;
    }
  }

  lemma DefaultsArePositive(b: Bounds)
    requires forall i :: 0 <= i < |BoundValues(b)| ==> BoundValues(b)[i] >= 0
    ensures PositiveBounds(Normalized(b))
  {
  }
}
