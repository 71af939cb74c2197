/** NewSchema itself: nested loops that fill index maps and collect violations. Each reports exactly what
    SchemaReport lists. */
module SchemaBuilder {
  import opened Text
  import opened Types
  import opened Violations
  import opened Relationships
  import opened RelationHeap
  import opened Schemas
  import opened SchemaReport
  import opened Declarations
  import opened DeclaredSchema

  const FALLBACKS: seq<int> := [16384, 64, 16, 4, 8, 128, 256, 100, 4096, 8, 100, 4096, 65536, 16, 1000]

  /** Every bound that is not positive is replaced by its default, the others are kept. */
  method NormalizeBounds(bounds: Bounds) returns (result: Bounds)
    ensures result == Normalized(bounds)
    ensures forall i :: 0 <= i < |BoundValues(bounds)| ==>
              BoundValues(result)[i] == if BoundValues(bounds)[i] > 0 then BoundValues(bounds)[i] else FALLBACKS[i]
  {
    var declared := BoundValues(bounds);
    var values := declared;
    for index := 0 to |values|
      invariant |values| == |declared| == |FALLBACKS|
      invariant forall j :: 0 <= j < index ==> values[j] == OrDefault(declared[j], FALLBACKS[j])
      invariant forall j :: index <= j < |values| ==> values[j] == declared[j]
    {
      if values[index] <= 0 {
        values := values[index := FALLBACKS[index]];
      }
    }
    result := Bounds(values[0], values[1], values[2], values[3], values[4], values[5], values[6], values[7], values[8],
                     values[9], values[10], values[11], values[12], values[13], values[14] as Int64);
  }

  method ValidateDeclaredBounds(bounds: Bounds, collector: Collector)
    requires collector.Valid()
    modifies collector
    ensures collector.Valid()
    ensures collector.all == BoundsReport(BoundValues(bounds), |BoundValues(bounds)|, old(collector.all))
  {
    var values := BoundValues(bounds);
    for i := 0 to |values|
      invariant collector.Valid()
      invariant collector.all == BoundsReport(values, i, old(collector.all))
    {
      if values[i] < 0 {
        collector.Add(CodeInvalidElement, Indexed("schema.bounds", i));
      }
    }
  }

  method ValidateLogic(allowed: seq<Logic>, collector: Collector) returns (result: set<Logic>)
    requires collector.Valid()
    modifies collector
    ensures collector.Valid()
    ensures collector.all == LogicReport(EffectiveLogic(allowed), |EffectiveLogic(allowed)|, old(collector.all))
    ensures result == set l <- EffectiveLogic(allowed) | !l.LogicUnknown?
  {
    result := {};
    var logic := if |allowed| == 0 then [LogicAnd] else allowed;
    for i := 0 to |logic|
      invariant collector.Valid()
      invariant collector.all == LogicReport(logic, i, old(collector.all))
      invariant result == set l <- logic[..i] | !l.LogicUnknown?
    {
      assert logic[..i + 1] == logic[..i] + [logic[i]];
      if logic[i] != LogicAnd && logic[i] != LogicOr && logic[i] != LogicNot {
        collector.Add(CodeInvalidElement, Indexed("schema.allowed_logic", i));
        continue;
      }
      if logic[i] in result {
        collector.Add(CodeConflict, Indexed("schema.allowed_logic", i));
        continue;
      }
      result := result + {logic[i]};
    }
    assert logic[..|logic|] == logic;
  }

  /** One more name indexed, unless it is already there. */
  lemma FindsNext(index: map<string, nat>, names: seq<string>, k: nat)
    requires k < |names| && Finds(index, names, k)
    ensures names[k] in index <==> FirstOf(names, k, names[k]).Some?
    ensures Finds(if names[k] in index then index else index[names[k] := k], names, k + 1)
  {
    var next := if names[k] in index then index else index[names[k] := k];
    assert Find(index, names[k]) == FirstOf(names, k, names[k]);
    forall name ensures Find(next, name) == FirstOf(names, k + 1, name) {
      assert Find(index, name) == FirstOf(names, k, name);
    }
  }

  method ValidateFields(fields: seq<FieldDefinition>, maxCost: Int64, collector: Collector)
    returns (index: map<string, nat>)
    requires collector.Valid()
    modifies collector
    ensures collector.Valid()
    ensures collector.all == FieldsReport(fields, |fields|, maxCost, old(collector.all))
    ensures Finds(index, FieldNames(fields), |fields|)
  {
    index := map[];
    ghost var names := FieldNames(fields);
    for i := 0 to |fields|
      invariant collector.Valid()
      invariant collector.all == FieldsReport(fields, i, maxCost, old(collector.all))
      invariant Finds(index, names, i)
    {
      FindsNext(index, names, i);
      hide Finds, ValidName, FirstOf;
      var field, path := fields[i], Indexed("schema.fields", i);
      if !ValidName(field.name) || !ValidType(field.kind) {
        collector.Add(CodeInvalidElement, path);
      }
      if field.cost < 0 || field.cost > maxCost {
        collector.Add(CodeInvalidElement, path);
      }
      if field.name in index {
        collector.Add(CodeConflict, path);
      } else {
        index := index[field.name := i];
      }
    }
  }

  method ValidateOperators(filter: FilterDefinition, path: string, collector: Collector)
    requires collector.Valid()
    modifies collector
    ensures collector.Valid()
    ensures collector.all == OperatorsReport(filter, |filter.operators|, path, old(collector.all))
  {
    var seen: set<Operator> := {};
    var operators := filter.operators;
    for i := 0 to |operators|
      invariant collector.Valid()
      invariant seen == set op <- operators[..i]
      invariant collector.all == OperatorsReport(filter, i, path, old(collector.all))
    {
      hide OperatorSupportsType;
      assert operators[..i + 1] == operators[..i] + [operators[i]];
      if operators[i] in seen {
        collector.Add(CodeConflict, path);
      }
      seen := seen + {operators[i]};
      if !OperatorSupportsType(operators[i], filter.kind, filter.nullable) {
        collector.Add(CodeUnsupported, path);
      }
    }
  }

  method ValidateFilters(filters: seq<FilterDefinition>, maxCost: Int64, collector: Collector)
    returns (index: map<string, nat>)
    requires collector.Valid()
    modifies collector
    ensures collector.Valid()
    ensures collector.all == FiltersReport(filters, |filters|, maxCost, old(collector.all))
    ensures Finds(index, FilterNames(filters), |filters|)
  {
    index := map[];
    ghost var names := FilterNames(filters);
    for i := 0 to |filters|
      invariant collector.Valid()
      invariant collector.all == FiltersReport(filters, i, maxCost, old(collector.all))
      invariant Finds(index, names, i)
    {
      FindsNext(index, names, i);
      hide Finds, ValidName, FirstOf, OperatorsReport;
      var filter, path := filters[i], Indexed("schema.filters", i);
      if !ValidName(filter.name) || !ValidType(filter.kind) || |filter.operators| == 0 {
        collector.Add(CodeInvalidElement, path);
      }
      if filter.cost < 0 || filter.cost > maxCost {
        collector.Add(CodeInvalidElement, path);
      }
      ValidateOperators(filter, path, collector);
      if filter.name in index {
        collector.Add(CodeConflict, path);
      } else {
        index := index[filter.name := i];
      }
    }
  }

  method ValidateSorts(sorts: seq<SortDefinition>, maxCost: Int64, collector: Collector)
    returns (index: map<string, nat>)
    requires collector.Valid()
    modifies collector
    ensures collector.Valid()
    ensures collector.all == SortsReport(sorts, |sorts|, maxCost, old(collector.all))
    ensures Finds(index, SortNames(sorts), |sorts|)
  {
    index := map[];
    ghost var names := SortNames(sorts);
    for i := 0 to |sorts|
      invariant collector.Valid()
      invariant collector.all == SortsReport(sorts, i, maxCost, old(collector.all))
      invariant Finds(index, names, i)
    {
      FindsNext(index, names, i);
      hide Finds, ValidName, FirstOf;
      var sort, path := sorts[i], Indexed("schema.sorts", i);
      if !ValidName(sort.name) || !ValidType(sort.kind) {
        collector.Add(CodeInvalidElement, path);
      }
      if sort.nulls != NullsUnset && sort.nulls != NullsFirst && sort.nulls != NullsLast {
        collector.Add(CodeInvalidElement, path);
      }
      if sort.cost < 0 || sort.cost > maxCost {
        collector.Add(CodeInvalidElement, path);
      }
      if sort.name in index {
        collector.Add(CodeConflict, path);
      } else {
        index := index[sort.name := i];
      }
    }
  }

  // ---------------------------------------------------------------- relationships

  /** The shared index: every definition in it is a clone, made of objects of Own. */
  class RelationIndexer {
    var relationIndex: IndexCells
    ghost var Own: set<object>

    ghost predicate Valid()
      reads this, Own
    {
      this !in Own && Owns(Own, relationIndex)
    }

    constructor ()
      ensures Valid() && relationIndex == map[] && Own == {}
    {
      relationIndex, Own := map[], {};
    }

    ghost function State(collector: Collector): Indexing
      reads this, collector, set key <- relationIndex :: relationIndex[key].definition
    {
      Indexing(collector.all, IndexView(relationIndex))
    }

    method Insert(fullName: string, relation: RelationCell)
      requires Valid() && relation.Valid()
      modifies this
      ensures Valid() && old(Own) <= Own && fresh(Own - old(Own))
      ensures IndexView(relationIndex)
           == old(IndexView(relationIndex))[fullName := RelationshipNode(relation.Tree, Depth(fullName))]
    {
      hide Owns, Depth;
      var depth := RelationshipDepth(fullName);
      var index, own := WithClone(relationIndex, Own, fullName, relation, depth);
      relationIndex, Own := index, own;
    }

    method IndexRelationships(rs: array<RelationCell?>, count: nat, ghost trees: seq<RelationshipDefinition>,
                              ghost declared: set<object>, prefix: string, schemaPath: string,
                              ancestors: set<string>, maxCost: Int64, collector: Collector)
      requires collector.Valid() && Valid() && collector !in Own
      requires Holds(rs, trees, declared) && count == |trees| && this !in declared && collector !in declared
      modifies this, collector
      ensures collector.Valid() && Valid() && old(Own) <= Own && fresh(Own - old(Own))
      ensures State(collector)
        == RelationsRun(trees, |trees|, prefix, schemaPath, ancestors, maxCost, old(State(collector)))
      decreases trees, 0
    {
      hide RelationsRun, Owns, State;
      RunStarts(trees, prefix, schemaPath, ancestors, maxCost, State(collector));
      for i := 0 to count
        invariant collector.Valid() && Valid() && old(Own) <= Own && fresh(Own - old(Own))
        invariant State(collector)
          == RelationsRun(trees, i, prefix, schemaPath, ancestors, maxCost, old(State(collector)))
      {
        HoldsAt(rs, trees, declared, i);
        RunSteps(trees, i, prefix, schemaPath, ancestors, maxCost, old(State(collector)));
        hide Holds, RelationStep;
        IndexRelationship(rs[i], Indexed(schemaPath, i), prefix, ancestors, maxCost, collector);
      }
    }

    method CheckRelation(relation: RelationCell, known: bool, path: string, maxCost: Int64, collector: Collector)
      requires collector.Valid() && relation.Valid()
      modifies collector
      ensures collector.Valid()
      ensures collector.all == RelationReport(relation.Tree, known, path, maxCost, old(collector.all))
    {
      hide ValidName;
      if !ValidName(relation.name) || !ValidName(relation.resource) {
        collector.Add(CodeInvalidElement, path);
      }
      if relation.cost < 0 || relation.cost > maxCost {
        collector.Add(CodeInvalidElement, path);
      }
      if known {
        collector.Add(CodeConflict, path);
      }
    }

    /** The body of the loop over siblings. */
    method IndexRelationship(relation: RelationCell, path: string, prefix: string, ancestors: set<string>,
                             maxCost: Int64, collector: Collector)
      requires collector.Valid() && Valid() && collector !in Own
      requires relation.Valid() && this !in relation.Repr && collector !in relation.Repr
      modifies this, collector
      ensures collector.Valid() && Valid() && old(Own) <= Own && fresh(Own - old(Own))
      ensures State(collector) == RelationStep(relation.Tree, path, prefix, ancestors, maxCost, old(State(collector)))
      decreases relation.Tree, 1
    {
      hide Owns, RelationsRun, RelationReport, Depth;
      var fullName := FullName(prefix, relation.name);
      var known := fullName in relationIndex;
      CheckRelation(relation, known, path, maxCost, collector);
      if !known {
        Insert(fullName, relation);
      }
      if relation.resource in ancestors {
        collector.Add(CodeConflict, path);
        return;
      }
      IndexRelationships(relation.children, relation.count, relation.Tree.relationships, relation.Repr, fullName,
                         path + ".relationships", ancestors + {relation.resource}, maxCost, collector);
    }
  }

  // ---------------------------------------------------------------- pagination

  method CountTieBreakers(sorts: seq<SortDefinition>) returns (count: nat)
    ensures count == TieBreakers(sorts, |sorts|)
  {
    count := 0;
    for i := 0 to |sorts|
      invariant count == TieBreakers(sorts, i)
    {
      if sorts[i].tieBreaker {
        count := count + 1;
      }
    }
  }

  /** Looking a sort up through its index finds its first declaration. */
  lemma LookupDeclaration(sorts: seq<SortDefinition>, index: map<string, nat>, name: string)
    requires Finds(index, SortNames(sorts), |sorts|)
    ensures name in index ==> index[name] < |sorts|
    ensures Declaration(sorts, name) == if name in index then Some(sorts[index[name]]) else None
  {
    FirstOfIsFirst(SortNames(sorts), |sorts|, name);
    assert Find(index, name) == FirstOf(SortNames(sorts), |sorts|, name);
  }

  method ValidateDefaultSort(terms: seq<SortTerm>, sorts: seq<SortDefinition>, index: map<string, nat>,
                             collector: Collector)
    returns (hasTieBreaker: bool)
    requires collector.Valid() && Finds(index, SortNames(sorts), |sorts|)
    modifies collector
    ensures collector.Valid()
    ensures collector.all == TermsReport(terms, |terms|, sorts, old(collector.all))
    ensures hasTieBreaker == NamesTieBreaker(terms, |terms|, sorts)
  {
    ghost var names := TermNames(terms);
    var seen: set<string> := {};
    hasTieBreaker := false;
    for i := 0 to |terms|
      invariant collector.Valid()
      invariant seen == set n <- names[..i]
      invariant collector.all == TermsReport(terms, i, sorts, old(collector.all))
      invariant hasTieBreaker == NamesTieBreaker(terms, i, sorts)
    {
      assert names[..i + 1] == names[..i] + [names[i]];
      var term, path := terms[i], Indexed("schema.default_sort", i);
      LookupDeclaration(sorts, index, term.name);
      assert names[i] == term.name;
      hide Finds, Declaration, TermNames;
      if term.name !in index || (term.direction != Ascending && term.direction != Descending) {
        collector.Add(CodeInvalidElement, path);
      }
      if term.nulls != NullsUnset && term.nulls != NullsFirst && term.nulls != NullsLast {
        collector.Add(CodeInvalidElement, path);
      } else if term.name in index && term.nulls != NullsUnset && term.nulls != sorts[index[term.name]].nulls {
        collector.Add(CodeUnsupported, path);
      }
      if term.name in seen {
        collector.Add(CodeConflict, path);
      }
      if term.name in index && sorts[index[term.name]].tieBreaker {
        hasTieBreaker := true;
      }
      seen := seen + {term.name};
    }
  }

  method ValidatePagination(p: PaginationDefinition, terms: seq<SortTerm>, sorts: seq<SortDefinition>,
                            index: map<string, nat>, bounds: Bounds, collector: Collector)
    requires collector.Valid() && Finds(index, SortNames(sorts), |sorts|)
    modifies collector
    ensures collector.Valid()
    ensures collector.all == PaginationReport(p, terms, sorts, bounds, old(collector.all))
  {
    hide TermsReport, NamesTieBreaker, TieBreakers, Finds;
    if |terms| > bounds.maxSorts {
      collector.Add(CodeInvalidElement, "schema.default_sort");
    }
    if p.cursor || p.offset {
      if p.defaultPageSize <= 0 || p.defaultPageSize > bounds.maxPageSize {
        collector.Add(CodeInvalidElement, "schema.pagination");
      }
      if p.offset && p.maxOffset < 0 {
        collector.Add(CodeInvalidElement, "schema.pagination");
      }
      if p.cursor {
        var tieBreakers := CountTieBreakers(sorts);
        if tieBreakers != 1 {
          collector.Add(CodeConflict, "schema.pagination");
        }
      }
    }
    var defaultHasTieBreaker := ValidateDefaultSort(terms, sorts, index, collector);
    if p.cursor && |terms| >= bounds.maxSorts && !defaultHasTieBreaker {
      collector.Add(CodeConflict, "schema.default_sort");
    }
  }

  // ---------------------------------------------------------------- NewSchema

  /** A schema: the declarations as they were, their index maps, and the relationship index with the
      objects it is made of. */
  class SchemaCell {
    const config: SchemaConfig
    const bounds: Bounds
    const allowedLogic: set<Logic>
    const fieldIndex: map<string, nat>
    const filterIndex: map<string, nat>
    const sortIndex: map<string, nat>
    const relationIndex: IndexCells
    ghost const Own: set<object>

    constructor (config: SchemaConfig, bounds: Bounds, allowedLogic: set<Logic>, fieldIndex: map<string, nat>,
                 filterIndex: map<string, nat>, sortIndex: map<string, nat>, relationIndex: IndexCells,
                   ghost own: set<object>)
      ensures this.config == config && this.bounds == bounds && this.allowedLogic == allowedLogic
      ensures this.fieldIndex == fieldIndex && this.filterIndex == filterIndex && this.sortIndex == sortIndex
      ensures this.relationIndex == relationIndex && Own == own
    {
      this.config, this.bounds, this.allowedLogic := config, bounds, allowedLogic;
      this.fieldIndex, this.filterIndex, this.sortIndex := fieldIndex, filterIndex, sortIndex;
      this.relationIndex, Own := relationIndex, own;
    }

    ghost predicate Valid()
      reads Own
    {
      Owns(Own, relationIndex)
    }

    ghost function View(): Schema
      reads set key <- relationIndex :: relationIndex[key].definition
    {
      Schema(config.resource, config.revision, config.fields, fieldIndex, config.filters, filterIndex, config.sorts,
             sortIndex, IndexView(relationIndex), config.defaultSort, allowedLogic, bounds, config.pagination)
    }
  }

  /** The checks of NewSchema in their order, and the index maps they fill. */
  method ValidateConfig(config: SchemaConfig, relationships: array<RelationCell?>, ghost declared: set<object>,
                        bounds: Bounds, collector: Collector)
    returns (allowedLogic: set<Logic>, fieldIndex: map<string, nat>, filterIndex: map<string, nat>,
             sortIndex: map<string, nat>, relationIndex: IndexCells, ghost own: set<object>)
    requires collector.Valid() && collector.all == [] && bounds == Normalized(config.bounds) && collector !in declared
    requires relationships.Length == |config.relationships| && Holds(relationships, config.relationships, declared)
    modifies collector
    ensures collector.Valid() && collector.all == ConfigReport(config)
    ensures allowedLogic == set l <- EffectiveLogic(config.allowedLogic) | !l.LogicUnknown?
    ensures Finds(fieldIndex, FieldNames(config.fields), |config.fields|)
    ensures Finds(filterIndex, FilterNames(config.filters), |config.filters|)
    ensures Finds(sortIndex, SortNames(config.sorts), |config.sorts|)
    ensures fresh(own) && collector !in own && Owns(own, relationIndex)
      && IndexView(relationIndex) == ConfigRun(config).index
  {
    hide Finds, ValidName, Normalized, BoundValues, BoundsReport, LogicReport, FieldsReport, FiltersReport, SortsReport,
         RelationsRun, PaginationReport, Owns, Holds;
    ValidateDeclaredBounds(config.bounds, collector);
    if !ValidName(config.resource) {
      collector.Add(CodeInvalidElement, "schema.resource");
    }
    if config.revision == "" {
      collector.Add(CodeInvalidElement, "schema.revision");
    }
    allowedLogic := ValidateLogic(config.allowedLogic, collector);
    assert collector.all == HeadReport(config);
    hide HeadReport;
    fieldIndex := ValidateFields(config.fields, bounds.maxCost, collector);
    filterIndex := ValidateFilters(config.filters, bounds.maxCost, collector);
    sortIndex := ValidateSorts(config.sorts, bounds.maxCost, collector);
    assert collector.all == DefinitionsReport(config, bounds.maxCost, HeadReport(config));
    hide DefinitionsReport;
    relationIndex, own := IndexRoots(config, relationships, declared, bounds.maxCost, collector);
    ValidatePagination(config.pagination, config.defaultSort, config.sorts, sortIndex, bounds, collector);
  }

  method IndexRoots(config: SchemaConfig, relationships: array<RelationCell?>, ghost declared: set<object>,
                    maxCost: Int64, collector: Collector)
    returns (relationIndex: IndexCells, ghost own: set<object>)
    requires collector.Valid() && collector !in declared
    requires relationships.Length == |config.relationships| && Holds(relationships, config.relationships, declared)
    modifies collector
    ensures collector.Valid() && fresh(own) && collector !in own && Owns(own, relationIndex)
    ensures Indexing(collector.all, IndexView(relationIndex))
         == RelationsRun(config.relationships, |config.relationships|, "", "schema.relationships", {config.resource},
                         maxCost, Indexing(old(collector.all), map[]))
  {
    hide RelationsRun, Owns, Holds;
    var indexer := new RelationIndexer();
    assert IndexView(indexer.relationIndex) == map[];
    indexer.IndexRelationships(relationships, relationships.Length, config.relationships, declared, "",
                               "schema.relationships", {config.resource}, maxCost, collector);
    relationIndex, own := indexer.relationIndex, indexer.Own;
  }

  /** A schema is built exactly for the well-formed declarations, and it is their snapshot; a failure
      is what the limit retains of the one list of violations the configuration determines. The declared
      relationships are the caller's objects; the schema is made of new ones. */
  method NewSchema(config: SchemaConfig, relationships: array<RelationCell?>, ghost declared: set<object>)
    returns (schema: SchemaCell?, err: Option<seq<Violation>>)
    requires relationships.Length == |config.relationships| && Holds(relationships, config.relationships, declared)
    ensures schema != null <==> ConfigFits(config)
    ensures schema != null ==> ValidConfig(config) && err.None? && Snapshot(config, schema.View()) && ValidSchema(schema.View())
    ensures schema != null ==> schema.Valid() && fresh(schema) && fresh(schema.Own)
    ensures schema == null ==> err == Some(Capped(Normalized(config.bounds).maxErrors, ConfigReport(config)))
  {
    hide Indexes, Finds, ValidConfig, IndexOf, ValidSchema, Normalized, ConfigReport, ConfigRun, Distinct, Owns, Holds;
    var bounds := NormalizeBounds(config.bounds);
    var collector := new Collector(bounds.maxErrors);
    var allowedLogic, fieldIndex, filterIndex, sortIndex, relationIndex, own :=
      ValidateConfig(config, relationships, declared, bounds, collector);
    ReportedExactly(config);
    AcceptedExactly(config);
    err := collector.Err();
    if err.Some? {
      return null, err;
    }
    IndexesAreExact(config, fieldIndex, filterIndex, sortIndex);
    LogicIsExact(config);
    schema := new SchemaCell(config, bounds, allowedLogic, fieldIndex, filterIndex, sortIndex, relationIndex, own);
    SnapshotIsValid(config, schema.View());
  }

  /** A caller that goes on to rewrite the relationships it declared, in any order, does not reach the schema. */
  method DeclareThenRewrite(config: SchemaConfig, relationships: array<RelationCell?>, steps: seq<Step>,
                            ghost region: set<object>)
    returns (schema: SchemaCell?)
    requires relationships.Length == |config.relationships| && Holds(relationships, config.relationships, region)
    requires Closed(region) && relationships in region
    modifies region
    ensures schema != null <==> ConfigFits(config)
    ensures schema != null ==>
      schema.Valid() && ValidConfig(config) && Snapshot(config, schema.View()) && ValidSchema(schema.View())
  {
    hide Owns, Holds, Closed, ValidConfig, ConfigFits, Snapshot, ValidSchema, IndexView;
    var err;
    schema, err := NewSchema(config, relationships, region);
    if schema != null {
      RewriteDeclarations(relationships, steps, region, schema.Own, schema.relationIndex);
    }
  }

  lemma IndexesAreExact(config: SchemaConfig, fieldIndex: map<string, nat>, filterIndex: map<string, nat>,
                        sortIndex: map<string, nat>)
    requires ValidConfig(config) && Finds(fieldIndex, FieldNames(config.fields), |config.fields|)
    requires Finds(filterIndex, FilterNames(config.filters), |config.filters|)
      && Finds(sortIndex, SortNames(config.sorts), |config.sorts|)
    ensures Indexes(fieldIndex, FieldNames(config.fields), |config.fields|)
    ensures Indexes(filterIndex, FilterNames(config.filters), |config.filters|)
    ensures Indexes(sortIndex, SortNames(config.sorts), |config.sorts|)
  {
    hide Finds, Indexes, Distinct, ValidRelations, PaginationDeclared, FieldDeclared, FilterDeclared, SortDeclared;
    FindsDistinct(fieldIndex, FieldNames(config.fields));
    FindsDistinct(filterIndex, FilterNames(config.filters));
    FindsDistinct(sortIndex, SortNames(config.sorts));
  }

  lemma LogicIsExact(config: SchemaConfig)
    requires ValidConfig(config)
    ensures (set l <- EffectiveLogic(config.allowedLogic) | !l.LogicUnknown?)
         == if config.allowedLogic == [] then {LogicAnd} else set l <- config.allowedLogic
  {
    hide Distinct, ValidRelations, PaginationDeclared, FieldDeclared, FilterDeclared, SortDeclared;
    assert LogicDeclared(config.allowedLogic);
    assert LogicAnd in [LogicAnd];
  }
}
