/** What NewSchema reports about a configuration, in order, and that it is nothing exactly for the
    well-formed declarations. */
module SchemaReport {
  import opened Text
  import opened Types
  import opened Relationships
  import opened Schemas

  /** The list of violations so far, and one more if there is a problem. */
  function Note(t: seq<Violation>, problem: bool, code: ErrorCode, path: string): seq<Violation> {
    if problem then t + [Violation(code, path)] else t
  }

  /** Where a name first occurs among the first k: what the index maps answer, repeated names included. */
  function FirstOf(names: seq<string>, k: nat, name: string): Option<nat>
    requires k <= |names|
  {
    if k == 0 then None
    else
      var before := FirstOf(names, k - 1, name);
      if before.Some? then before else if names[k - 1] == name then Some(k - 1) else None
  }

  lemma {:induction false} FirstOfIsFirst(names: seq<string>, k: nat, name: string)
    requires k <= |names|
    ensures match FirstOf(names, k, name)
      case None => name !in names[..k]
      case Some(i) => i < k && names[i] == name && name !in names[..i]
  {
    if k > 0 {
      FirstOfIsFirst(names, k - 1, name);
      assert names[..k] == names[..k - 1] + [names[k - 1]];
    }
  }

  function Find(index: map<string, nat>, name: string): Option<nat> {
    if name in index then Some(index[name]) else None
  }

  /** The map answers as a search through the first k names would. */
  ghost predicate Finds(index: map<string, nat>, names: seq<string>, k: nat)
    requires k <= |names|
  {
    forall name :: Find(index, name) == FirstOf(names, k, name)
  }

  lemma FindsDistinct(index: map<string, nat>, names: seq<string>)
    requires Finds(index, names, |names|) && Distinct(names)
    ensures Indexes(index, names, |names|)
  {
    assert names[..|names|] == names;
    forall i | 0 <= i < |names| ensures names[i] in index && index[names[i]] == i {
      FirstOfIsFirst(names, |names|, names[i]);
      assert Find(index, names[i]) == FirstOf(names, |names|, names[i]);
    }
    forall n | n in index ensures index[n] < |names| && names[index[n]] == n {
      FirstOfIsFirst(names, |names|, n);
      assert Find(index, n) == FirstOf(names, |names|, n);
    }
  }

  // ---------------------------------------------------------------- flat declarations

  function BoundsReport(values: seq<int>, k: nat, t: seq<Violation>): seq<Violation>
    requires k <= |values|
  {
    if k == 0 then t
    else Note(BoundsReport(values, k - 1, t), values[k - 1] < 0, CodeInvalidElement, Indexed("schema.bounds", k - 1))
  }

  function LogicReport(logic: seq<Logic>, k: nat, t: seq<Violation>): seq<Violation>
    requires k <= |logic|
  {
    if k == 0 then t
    else
      var before, path := LogicReport(logic, k - 1, t), Indexed("schema.allowed_logic", k - 1);
      if logic[k - 1].LogicUnknown? then before + [Violation(CodeInvalidElement, path)]
      else Note(before, logic[k - 1] in logic[..k - 1], CodeConflict, path)
  }

  function CostReport(cost: Int64, maxCost: Int64, path: string, t: seq<Violation>): seq<Violation> {
    Note(t, cost < 0 || cost > maxCost, CodeInvalidElement, path)
  }

  function FieldReport(fields: seq<FieldDefinition>, i: nat, maxCost: Int64, t: seq<Violation>): seq<Violation>
    requires i < |fields|
  {
    var field, path := fields[i], Indexed("schema.fields", i);
    var named := Note(t, !ValidName(field.name) || !ValidType(field.kind), CodeInvalidElement, path);
    var costed := CostReport(field.cost, maxCost, path, named);
    Note(costed, FirstOf(FieldNames(fields), i, field.name).Some?, CodeConflict, path)
  }

  function FieldsReport(fields: seq<FieldDefinition>, k: nat, maxCost: Int64, t: seq<Violation>): seq<Violation>
    requires k <= |fields|
  {
    if k == 0 then t else FieldReport(fields, k - 1, maxCost, FieldsReport(fields, k - 1, maxCost, t))
  }

  /** Each operator of a filter is checked for repetition, then for its type. */
  function OperatorsReport(filter: FilterDefinition, k: nat, path: string, t: seq<Violation>): seq<Violation>
    requires k <= |filter.operators|
  {
    if k == 0 then t
    else
      var op := filter.operators[k - 1];
      var repeated := Note(OperatorsReport(filter, k - 1, path, t), op in filter.operators[..k - 1], CodeConflict,
                           path);
      Note(repeated, !OperatorSupportsType(op, filter.kind, filter.nullable), CodeUnsupported, path)
  }

  function FilterReport(filters: seq<FilterDefinition>, i: nat, maxCost: Int64, t: seq<Violation>): seq<Violation>
    requires i < |filters|
  {
    var filter, path := filters[i], Indexed("schema.filters", i);
    var named := Note(t, !ValidName(filter.name) || !ValidType(filter.kind) || filter.operators == [],
                      CodeInvalidElement, path);
    var costed := CostReport(filter.cost, maxCost, path, named);
    var operated := OperatorsReport(filter, |filter.operators|, path, costed);
    Note(operated, FirstOf(FilterNames(filters), i, filter.name).Some?, CodeConflict, path)
  }

  function FiltersReport(filters: seq<FilterDefinition>, k: nat, maxCost: Int64, t: seq<Violation>): seq<Violation>
    requires k <= |filters|
  {
    if k == 0 then t else FilterReport(filters, k - 1, maxCost, FiltersReport(filters, k - 1, maxCost, t))
  }

  function SortReport(sorts: seq<SortDefinition>, i: nat, maxCost: Int64, t: seq<Violation>): seq<Violation>
    requires i < |sorts|
  {
    var sort, path := sorts[i], Indexed("schema.sorts", i);
    var named := Note(t, !ValidName(sort.name) || !ValidType(sort.kind), CodeInvalidElement, path);
    var ordered := Note(named, !ValidNulls(sort.nulls), CodeInvalidElement, path);
    var costed := CostReport(sort.cost, maxCost, path, ordered);
    Note(costed, FirstOf(SortNames(sorts), i, sort.name).Some?, CodeConflict, path)
  }

  function SortsReport(sorts: seq<SortDefinition>, k: nat, maxCost: Int64, t: seq<Violation>): seq<Violation>
    requires k <= |sorts|
  {
    if k == 0 then t else SortReport(sorts, k - 1, maxCost, SortsReport(sorts, k - 1, maxCost, t))
  }

  lemma {:induction false} BoundsClean(values: seq<int>, k: nat, t: seq<Violation>)
    requires k <= |values|
    ensures BoundsReport(values, k, t) == [] <==> t == [] && forall i :: 0 <= i < k ==> values[i] >= 0
  {
    if k > 0 { BoundsClean(values, k - 1, t); }
  }

  lemma {:induction false} LogicClean(logic: seq<Logic>, k: nat, t: seq<Violation>)
    requires k <= |logic|
    ensures LogicReport(logic, k, t) == [] <==> t == [] && LogicDeclared(logic[..k])
  {
    if k > 0 {
      LogicClean(logic, k - 1, t);
      DistinctNext(logic, k - 1);
      assert logic[..k] == logic[..k - 1] + [logic[k - 1]];
      assert logic[k - 1] in logic[..k];
    }
  }

  lemma {:induction false} FieldsClean(fields: seq<FieldDefinition>, k: nat, maxCost: Int64, t: seq<Violation>)
    requires k <= |fields|
    ensures FieldsReport(fields, k, maxCost, t) == [] <==>
      t == [] && (forall i :: 0 <= i < k ==> FieldDeclared(fields[i], maxCost)) && Distinct(FieldNames(fields)[..k])
  {
    if k > 0 {
      FieldsClean(fields, k - 1, maxCost, t);
      DistinctNext(FieldNames(fields), k - 1);
      FirstOfIsFirst(FieldNames(fields), k - 1, fields[k - 1].name);
      hide ValidName, FirstOf, Distinct;
    }
  }

  lemma {:induction false} OperatorsClean(filter: FilterDefinition, k: nat, path: string, t: seq<Violation>)
    requires k <= |filter.operators|
    ensures OperatorsReport(filter, k, path, t) == [] <==>
      && t == [] && Distinct(filter.operators[..k])
      && forall i :: 0 <= i < k ==> OperatorSupportsType(filter.operators[i], filter.kind, filter.nullable)
  {
    if k > 0 {
      OperatorsClean(filter, k - 1, path, t);
      DistinctNext(filter.operators, k - 1);
      hide OperatorSupportsType, Distinct;
    }
  }

  lemma {:induction false} FiltersClean(filters: seq<FilterDefinition>, k: nat, maxCost: Int64, t: seq<Violation>)
    requires k <= |filters|
    ensures FiltersReport(filters, k, maxCost, t) == [] <==>
      t == [] && (forall i :: 0 <= i < k ==> FilterDeclared(filters[i], maxCost)) && Distinct(FilterNames(filters)[..k])
  {
    if k > 0 {
      var filter := filters[k - 1];
      FiltersClean(filters, k - 1, maxCost, t);
      DistinctNext(FilterNames(filters), k - 1);
      FirstOfIsFirst(FilterNames(filters), k - 1, filter.name);
      FilterClean(filters, k - 1, maxCost, FiltersReport(filters, k - 1, maxCost, t));
      assert FilterNames(filters)[k - 1] == filter.name;
      hide FirstOf, Distinct, FilterReport, FilterDeclared, FilterNames;
    }
  }

  lemma FilterClean(filters: seq<FilterDefinition>, i: nat, maxCost: Int64, t: seq<Violation>)
    requires i < |filters|
    ensures FilterReport(filters, i, maxCost, t) == [] <==>
      t == [] && FilterDeclared(filters[i], maxCost) && FirstOf(FilterNames(filters), i, filters[i].name).None?
  {
    var filter, path := filters[i], Indexed("schema.filters", i);
    var named := Note(t, !ValidName(filter.name) || !ValidType(filter.kind) || filter.operators == [],
                      CodeInvalidElement, path);
    OperatorsClean(filter, |filter.operators|, path, CostReport(filter.cost, maxCost, path, named));
    assert filter.operators[..|filter.operators|] == filter.operators;
    hide ValidName, FirstOf, Distinct, OperatorsReport, OperatorSupportsType;
  }

  lemma {:induction false} SortsClean(sorts: seq<SortDefinition>, k: nat, maxCost: Int64, t: seq<Violation>)
    requires k <= |sorts|
    ensures SortsReport(sorts, k, maxCost, t) == [] <==>
      t == [] && (forall i :: 0 <= i < k ==> SortDeclared(sorts[i], maxCost)) && Distinct(SortNames(sorts)[..k])
  {
    if k > 0 {
      SortsClean(sorts, k - 1, maxCost, t);
      DistinctNext(SortNames(sorts), k - 1);
      FirstOfIsFirst(SortNames(sorts), k - 1, sorts[k - 1].name);
      hide ValidName, FirstOf, Distinct;
    }
  }

  // ---------------------------------------------------------------- relationships

  /** The violations so far and the index so far. */
  datatype Indexing = Indexing(report: seq<Violation>, index: RelationIndex)

  function RelationReport(r: RelationshipDefinition, known: bool, path: string, maxCost: Int64,
                          t: seq<Violation>): seq<Violation> {
    var named := Note(t, !ValidName(r.name) || !ValidName(r.resource), CodeInvalidElement, path);
    Note(CostReport(r.cost, maxCost, path, named), known, CodeConflict, path)
  }

  /** One sibling and, unless it closes a cycle, everything below it. */
  function RelationStep(r: RelationshipDefinition, path: string, prefix: string, ancestors: set<string>, maxCost: Int64,
                        st: Indexing): Indexing
    decreases r, 1
  {
    var full := FullName(prefix, r.name);
    var checked := RelationReport(r, full in st.index, path, maxCost, st.report);
    var index := if full in st.index then st.index else st.index[full := RelationshipNode(r, Depth(full))];
    if r.resource in ancestors then Indexing(checked + [Violation(CodeConflict, path)], index)
    else
      RelationsRun(r.relationships, |r.relationships|, full, path + ".relationships", ancestors + {r.resource}, maxCost,
                   Indexing(checked, index))
  }

  function RelationsRun(rs: seq<RelationshipDefinition>, k: nat, prefix: string, schemaPath: string,
                        ancestors: set<string>, maxCost: Int64, st: Indexing): Indexing
    requires k <= |rs|
    decreases rs, 0, k
  {
    if k == 0 then st
    else
      RelationStep(rs[k - 1], Indexed(schemaPath, k - 1), prefix, ancestors, maxCost,
                   RelationsRun(rs, k - 1, prefix, schemaPath, ancestors, maxCost, st))
  }

  lemma RunStarts(rs: seq<RelationshipDefinition>, prefix: string, schemaPath: string, ancestors: set<string>,
                  maxCost: Int64, st: Indexing)
    ensures RelationsRun(rs, 0, prefix, schemaPath, ancestors, maxCost, st) == st
  {
  }

  lemma RunSteps(rs: seq<RelationshipDefinition>, k: nat, prefix: string, schemaPath: string, ancestors: set<string>,
                 maxCost: Int64, st: Indexing)
    requires k < |rs|
    ensures RelationsRun(rs, k + 1, prefix, schemaPath, ancestors, maxCost, st)
      == RelationStep(rs[k], Indexed(schemaPath, k), prefix, ancestors, maxCost,
                      RelationsRun(rs, k, prefix, schemaPath, ancestors, maxCost, st))
  {
  }

  ghost predicate NothingBelow(index: RelationIndex, prefix: string) {
    forall key <- index :: !Below(prefix, key)
  }

  /** A dotless sibling name is already indexed exactly when an earlier sibling has it. */
  lemma {:induction false} DuplicateSibling(before: RelationIndex, rs: seq<RelationshipDefinition>, k: nat,
                                            prefix: string)
    requires k < |rs| && SiblingNames(rs, k) && '.' !in rs[k].name && rs[k].name != ""
    requires NothingBelow(before, prefix)
    ensures FullName(prefix, rs[k].name) in before + IndexOf(rs, k, prefix)
        <==> exists j :: 0 <= j < k && rs[j].name == rs[k].name
  {
    var full := FullName(prefix, rs[k].name);
    assert Below(prefix, full) by { if prefix != "" { assert full == (prefix + ".") + rs[k].name; } }
    if full in IndexOf(rs, k, prefix) {
      var j := IndexKeysOwned(rs, k, prefix, full);
      if rs[j].name != rs[k].name {
        SiblingsOwnApart(prefix, rs[j].name, rs[k].name, full);
        assert false;
      }
    }
    forall j | 0 <= j < k && rs[j].name == rs[k].name ensures full in IndexOf(rs, k, prefix) {
      assert full in EntriesOf(rs[j], full);
      IndexFindsOwner(rs, j, k, prefix, full);
    }
  }

  lemma PrefixTransitiveBelow(prefix: string, name: string, key: string)
    requires FullName(prefix, name) + "." <= key
    ensures Below(prefix, key)
  {
    if prefix != "" {
      assert FullName(prefix, name) + "." == (prefix + ".") + (name + ".");
      PrefixTransitive(prefix + ".", name + ".", key);
    }
  }

  /** Nothing indexed so far, nor the sibling itself, lies below a new sibling. */
  lemma {:induction false} NothingBelowSibling(before: RelationIndex, rs: seq<RelationshipDefinition>, k: nat,
                                               prefix: string, node: RelationshipNode)
    requires k < |rs| && SiblingNames(rs, k + 1) && NothingBelow(before, prefix)
    ensures NothingBelow((before + IndexOf(rs, k, prefix))[FullName(prefix, rs[k].name) := node],
                         FullName(prefix, rs[k].name))
  {
    var full := FullName(prefix, rs[k].name);
    forall key | key in before ensures !(full + "." <= key) {
      if full + "." <= key {
        PrefixTransitiveBelow(prefix, rs[k].name, key);
        assert false;
      }
    }
    forall key | key in IndexOf(rs, k, prefix) ensures !(full + "." <= key) {
      var j := IndexKeysOwned(rs, k, prefix, key);
      SiblingsOwnApart(prefix, rs[j].name, rs[k].name, key);
    }
  }

  lemma ValidRelationsNext(rs: seq<RelationshipDefinition>, i: nat, ancestors: set<string>, maxCost: Int64)
    requires i < |rs|
    ensures ValidRelations(rs, i + 1, ancestors, maxCost) <==>
      && ValidRelations(rs, i, ancestors, maxCost)
      && ValidRelation(rs[i], ancestors, maxCost)
      && !exists j :: 0 <= j < i && rs[j].name == rs[i].name
  {
  }

  lemma {:induction false} IndexOfNext(before: RelationIndex, rs: seq<RelationshipDefinition>, i: nat, prefix: string)
    requires i < |rs|
    ensures var r := rs[i]; var full := FullName(prefix, r.name);
      before + IndexOf(rs, i + 1, prefix)
        == (before + IndexOf(rs, i, prefix))[full := RelationshipNode(r, Depth(full))]
           + IndexOf(r.relationships, |r.relationships|, full)
  {
    hide IndexOf;
    IndexMembers(rs, i + 1, prefix);
  }

  lemma {:induction false} RelationsOnlyReport(rs: seq<RelationshipDefinition>, k: nat, prefix: string,
                                               schemaPath: string, ancestors: set<string>, maxCost: Int64, st: Indexing)
    requires k <= |rs|
    ensures st.report <= RelationsRun(rs, k, prefix, schemaPath, ancestors, maxCost, st).report
    decreases rs, 0, k
  {
    if k > 0 {
      RelationsOnlyReport(rs, k - 1, prefix, schemaPath, ancestors, maxCost, st);
      StepOnlyReports(rs[k - 1], Indexed(schemaPath, k - 1), prefix, ancestors, maxCost,
                      RelationsRun(rs, k - 1, prefix, schemaPath, ancestors, maxCost, st));
      hide RelationStep;
    }
  }

  lemma {:induction false} StepOnlyReports(r: RelationshipDefinition, path: string, prefix: string,
                                           ancestors: set<string>, maxCost: Int64, st: Indexing)
    ensures st.report <= RelationStep(r, path, prefix, ancestors, maxCost, st).report
    decreases r, 1
  {
    hide ValidName;
    var full := FullName(prefix, r.name);
    if r.resource !in ancestors {
      var checked := RelationReport(r, full in st.index, path, maxCost, st.report);
      var index := if full in st.index then st.index else st.index[full := RelationshipNode(r, Depth(full))];
      hide RelationsRun;
      RelationsOnlyReport(r.relationships, |r.relationships|, full, path + ".relationships", ancestors + {r.resource},
                          maxCost, Indexing(checked, index));
    }
  }

  /** Below a prefix of its own, a list of siblings reports nothing exactly when it is well formed, and
      the index then gains exactly its entries. */
  lemma {:induction false} RelationsClean(rs: seq<RelationshipDefinition>, k: nat, prefix: string, schemaPath: string,
                                          ancestors: set<string>, maxCost: Int64, st: Indexing)
    requires k <= |rs| && st.report == [] && NothingBelow(st.index, prefix)
    ensures var after := RelationsRun(rs, k, prefix, schemaPath, ancestors, maxCost, st);
      && (after.report == [] <==> ValidRelations(rs, k, ancestors, maxCost))
      && (after.report == [] ==> after.index == st.index + IndexOf(rs, k, prefix))
    decreases rs, 0, k
  {
    if k > 0 {
      var before := RelationsRun(rs, k - 1, prefix, schemaPath, ancestors, maxCost, st);
      RelationsClean(rs, k - 1, prefix, schemaPath, ancestors, maxCost, st);
      ValidRelationsNext(rs, k - 1, ancestors, maxCost);
      StepOnlyReports(rs[k - 1], Indexed(schemaPath, k - 1), prefix, ancestors, maxCost, before);
      hide IndexOf, NothingBelow, ValidRelation, ValidRelations, RelationStep;
      if before.report == [] {
        StepClean(rs, k - 1, prefix, Indexed(schemaPath, k - 1), ancestors, maxCost, st.index);
      }
    }
  }

  lemma {:induction false} StepClean(rs: seq<RelationshipDefinition>, i: nat, prefix: string, path: string,
                                     ancestors: set<string>, maxCost: Int64, before: RelationIndex)
    requires i < |rs| && ValidRelations(rs, i, ancestors, maxCost) && NothingBelow(before, prefix)
    ensures var after :=
      RelationStep(rs[i], path, prefix, ancestors, maxCost, Indexing([], before + IndexOf(rs, i, prefix)));
      && (after.report == [] <==>
            ValidRelation(rs[i], ancestors, maxCost) && !exists j :: 0 <= j < i && rs[j].name == rs[i].name)
      && (after.report == [] ==> after.index == before + IndexOf(rs, i + 1, prefix))
    decreases rs, 0, i
  {
    var r, full := rs[i], FullName(prefix, rs[i].name);
    var index := before + IndexOf(rs, i, prefix);
    var next := index[full := RelationshipNode(r, Depth(full))];
    ValidSiblings(rs, i, ancestors, maxCost);
    ValidRelationsNext(rs, i, ancestors, maxCost);
    IndexOfNext(before, rs, i, prefix);
    if ValidName(r.name) {
      NamesHaveNoDots(r.name);
      DuplicateSibling(before, rs, i, prefix);
      if full !in index {
        assert SiblingNames(rs, i + 1);
        NothingBelowSibling(before, rs, i, prefix, RelationshipNode(r, Depth(full)));
        RelationsClean(r.relationships, |r.relationships|, full, path + ".relationships", ancestors + {r.resource},
                       maxCost, Indexing([], next));
      }
    }
    hide IndexOf, NothingBelow, ValidName, ValidRelations, RelationsRun, SiblingNames;
    var checked := RelationReport(r, full in index, path, maxCost, []);
    RelationsOnlyReport(r.relationships, |r.relationships|, full, path + ".relationships", ancestors + {r.resource},
                        maxCost, Indexing(checked, if full in index then index else next));
  }

  // ---------------------------------------------------------------- pagination

  function TieBreakers(sorts: seq<SortDefinition>, k: nat): nat
    requires k <= |sorts|
  {
    if k == 0 then 0 else TieBreakers(sorts, k - 1) + if sorts[k - 1].tieBreaker then 1 else 0
  }

  lemma {:induction false} NoTieBreakers(sorts: seq<SortDefinition>, k: nat)
    requires k <= |sorts|
    ensures TieBreakers(sorts, k) == 0 <==> forall i :: 0 <= i < k ==> !sorts[i].tieBreaker
  {
    if k > 0 { NoTieBreakers(sorts, k - 1); }
  }

  lemma {:induction false} CountIsOne(sorts: seq<SortDefinition>, k: nat)
    requires k <= |sorts|
    ensures TieBreakers(sorts, k) == 1 <==> OneTieBreaker(sorts[..k])
  {
    if k > 0 {
      CountIsOne(sorts, k - 1);
      NoTieBreakers(sorts, k - 1);
      var s, t := sorts[..k], sorts[..k - 1];
      assert forall i :: 0 <= i < k - 1 ==> s[i] == t[i];
      if sorts[k - 1].tieBreaker {
        assert s[k - 1].tieBreaker;
        if TieBreakers(sorts, k - 1) == 0 {
          assert forall j :: 0 <= j < |s| && s[j].tieBreaker ==> j == k - 1;
        }
      } else if OneTieBreaker(t) {
        var i :| 0 <= i < |t| && t[i].tieBreaker && forall j :: 0 <= j < |t| && t[j].tieBreaker ==> j == i;
        assert s[i].tieBreaker && forall j :: 0 <= j < |s| && s[j].tieBreaker ==> j == i;
      }
    }
  }

  /** The declaration a name is looked up as: the first one of that name. */
  function Declaration(sorts: seq<SortDefinition>, name: string): Option<SortDefinition> {
    FirstOfIsFirst(SortNames(sorts), |sorts|, name);
    match FirstOf(SortNames(sorts), |sorts|, name)
    case None => None
    case Some(i) => Some(sorts[i])
  }

  function TermReport(terms: seq<SortTerm>, i: nat, sorts: seq<SortDefinition>, t: seq<Violation>): seq<Violation>
    requires i < |terms|
  {
    var term, path := terms[i], Indexed("schema.default_sort", i);
    var declared := Declaration(sorts, term.name);
    var named := Note(t, declared.None? || !ValidDirection(term.direction), CodeInvalidElement, path);
    var ordered :=
      if !ValidNulls(term.nulls) then named + [Violation(CodeInvalidElement, path)]
      else Note(named, declared.Some? && term.nulls != NullsUnset && term.nulls != declared.value.nulls,
                CodeUnsupported, path);
    Note(ordered, term.name in TermNames(terms)[..i], CodeConflict, path)
  }

  function TermsReport(terms: seq<SortTerm>, k: nat, sorts: seq<SortDefinition>, t: seq<Violation>): seq<Violation>
    requires k <= |terms|
  {
    if k == 0 then t else TermReport(terms, k - 1, sorts, TermsReport(terms, k - 1, sorts, t))
  }

  function NamesTieBreaker(terms: seq<SortTerm>, k: nat, sorts: seq<SortDefinition>): bool
    requires k <= |terms|
  {
    k > 0 && (NamesTieBreaker(terms, k - 1, sorts)
              || (Declaration(sorts, terms[k - 1].name).Some?
                  && Declaration(sorts, terms[k - 1].name).value.tieBreaker))
  }

  function PageReport(p: PaginationDefinition, sorts: seq<SortDefinition>, bounds: Bounds,
                      t: seq<Violation>): seq<Violation> {
    if !p.cursor && !p.offset then t
    else
      var sized := Note(t, p.defaultPageSize <= 0 || p.defaultPageSize > bounds.maxPageSize, CodeInvalidElement,
                        "schema.pagination");
      var offset := Note(sized, p.offset && p.maxOffset < 0, CodeInvalidElement, "schema.pagination");
      Note(offset, p.cursor && TieBreakers(sorts, |sorts|) != 1, CodeConflict, "schema.pagination")
  }

  function PaginationReport(p: PaginationDefinition, terms: seq<SortTerm>, sorts: seq<SortDefinition>, bounds: Bounds,
                            t: seq<Violation>): seq<Violation>
  {
    var limited := Note(t, |terms| > bounds.maxSorts, CodeInvalidElement, "schema.default_sort");
    var sorted := TermsReport(terms, |terms|, sorts, PageReport(p, sorts, bounds, limited));
    Note(sorted, p.cursor && |terms| >= bounds.maxSorts && !NamesTieBreaker(terms, |terms|, sorts), CodeConflict,
         "schema.default_sort")
  }

  lemma DeclarationIsOnly(sorts: seq<SortDefinition>, name: string)
    requires Distinct(SortNames(sorts))
    ensures forall i :: 0 <= i < |sorts| && sorts[i].name == name ==> Declaration(sorts, name) == Some(sorts[i])
    ensures Declaration(sorts, name).Some? ==>
      Declaration(sorts, name).value in sorts && Declaration(sorts, name).value.name == name
  {
    var names := SortNames(sorts);
    FirstOfIsFirst(names, |sorts|, name);
    hide FirstOf;
    assert names[..|sorts|] == names;
    forall i | 0 <= i < |sorts| && sorts[i].name == name ensures Declaration(sorts, name) == Some(sorts[i]) {
      assert names[i] == name && name in names;
    }
  }

  lemma {:induction false} TermsClean(terms: seq<SortTerm>, k: nat, sorts: seq<SortDefinition>, t: seq<Violation>)
    requires k <= |terms| && Distinct(SortNames(sorts))
    ensures TermsReport(terms, k, sorts, t) == [] <==>
      t == [] && (forall i :: 0 <= i < k ==> TermDeclared(terms[i], sorts)) && Distinct(TermNames(terms)[..k])
    ensures NamesTieBreaker(terms, k, sorts) <==> exists i :: 0 <= i < k && IsTieBreaker(terms[i].name, sorts)
  {
    if k > 0 {
      TermsClean(terms, k - 1, sorts, t);
      DistinctNext(TermNames(terms), k - 1);
      TermClean(terms, k - 1, sorts, TermsReport(terms, k - 1, sorts, t));
      assert TermNames(terms)[k - 1] == terms[k - 1].name;
      hide Declaration, Distinct, TermReport, TermDeclared, TermNames, IsTieBreaker;
    }
  }

  lemma TermClean(terms: seq<SortTerm>, i: nat, sorts: seq<SortDefinition>, t: seq<Violation>)
    requires i < |terms| && Distinct(SortNames(sorts))
    ensures TermReport(terms, i, sorts, t) == [] <==>
      t == [] && TermDeclared(terms[i], sorts) && terms[i].name !in TermNames(terms)[..i]
    ensures var declared := Declaration(sorts, terms[i].name);
      declared.Some? && declared.value.tieBreaker <==> IsTieBreaker(terms[i].name, sorts)
  {
    DeclarationIsOnly(sorts, terms[i].name);
    hide Declaration, Distinct;
  }

  lemma PaginationClean(p: PaginationDefinition, terms: seq<SortTerm>, sorts: seq<SortDefinition>, bounds: Bounds,
                        t: seq<Violation>)
    requires Distinct(SortNames(sorts))
    ensures PaginationReport(p, terms, sorts, bounds, t) == [] <==>
      t == [] && PaginationDeclared(p, terms, sorts, bounds)
  {
    var limited := Note(t, |terms| > bounds.maxSorts, CodeInvalidElement, "schema.default_sort");
    TermsClean(terms, |terms|, sorts, PageReport(p, sorts, bounds, limited));
    CountIsOne(sorts, |sorts|);
    assert sorts[..|sorts|] == sorts && TermNames(terms)[..|terms|] == TermNames(terms);
    hide TermsReport, NamesTieBreaker, TieBreakers, OneTieBreaker, TermDeclared, IsTieBreaker, Distinct;
  }

  // ---------------------------------------------------------------- the whole configuration

  function EffectiveLogic(allowed: seq<Logic>): seq<Logic> { if allowed == [] then [LogicAnd] else allowed }

  function HeadReport(c: SchemaConfig): seq<Violation> {
    var values, logic := BoundValues(c.bounds), EffectiveLogic(c.allowedLogic);
    var bounded := BoundsReport(values, |values|, []);
    var named := Note(bounded, !ValidName(c.resource), CodeInvalidElement, "schema.resource");
    var revised := Note(named, c.revision == "", CodeInvalidElement, "schema.revision");
    LogicReport(logic, |logic|, revised)
  }

  function DefinitionsReport(c: SchemaConfig, maxCost: Int64, t: seq<Violation>): seq<Violation> {
    var fields := FieldsReport(c.fields, |c.fields|, maxCost, t);
    SortsReport(c.sorts, |c.sorts|, maxCost, FiltersReport(c.filters, |c.filters|, maxCost, fields))
  }

  /** After the relationships: the report so far, and their index. */
  function ConfigRun(c: SchemaConfig): Indexing {
    var maxCost := Normalized(c.bounds).maxCost;
    RelationsRun(c.relationships, |c.relationships|, "", "schema.relationships", {c.resource}, maxCost,
                 Indexing(DefinitionsReport(c, maxCost, HeadReport(c)), map[]))
  }

  /** Everything NewSchema reports, in order. */
  function ConfigReport(c: SchemaConfig): seq<Violation> {
    PaginationReport(c.pagination, c.defaultSort, c.sorts, Normalized(c.bounds), ConfigRun(c).report)
  }

  lemma HeadClean(c: SchemaConfig)
    ensures HeadReport(c) == [] <==>
      && (forall i :: 0 <= i < |BoundValues(c.bounds)| ==> BoundValues(c.bounds)[i] >= 0)
      && ValidName(c.resource) && c.revision != "" && LogicDeclared(c.allowedLogic)
  {
    var values, logic := BoundValues(c.bounds), EffectiveLogic(c.allowedLogic);
    BoundsClean(values, |values|, []);
    forall t { LogicClean(logic, |logic|, t); }
    assert logic[..|logic|] == logic;
    assert LogicDeclared([LogicAnd]) && LogicDeclared([]);
    hide BoundsReport, BoundValues, LogicReport, ValidName, LogicDeclared;
  }

  lemma DefinitionsClean(c: SchemaConfig, maxCost: Int64, t: seq<Violation>)
    ensures DefinitionsReport(c, maxCost, t) == [] <==>
      && t == []
      && (forall f <- c.fields :: FieldDeclared(f, maxCost)) && Distinct(FieldNames(c.fields))
      && (forall f <- c.filters :: FilterDeclared(f, maxCost)) && Distinct(FilterNames(c.filters))
      && (forall s <- c.sorts :: SortDeclared(s, maxCost)) && Distinct(SortNames(c.sorts))
  {
    var fields := FieldsReport(c.fields, |c.fields|, maxCost, t);
    var filters := FiltersReport(c.filters, |c.filters|, maxCost, fields);
    FieldsClean(c.fields, |c.fields|, maxCost, t);
    FiltersClean(c.filters, |c.filters|, maxCost, fields);
    SortsClean(c.sorts, |c.sorts|, maxCost, filters);
    assert FieldNames(c.fields)[..|c.fields|] == FieldNames(c.fields);
    assert FilterNames(c.filters)[..|c.filters|] == FilterNames(c.filters);
    assert SortNames(c.sorts)[..|c.sorts|] == SortNames(c.sorts);
    hide FieldsReport, FiltersReport, SortsReport, FieldDeclared, FilterDeclared, SortDeclared, Distinct;
  }

  lemma RootsClean(c: SchemaConfig)
    ensures ConfigRun(c).report == [] <==>
      && DefinitionsReport(c, Normalized(c.bounds).maxCost, HeadReport(c)) == []
      && ValidRelations(c.relationships, |c.relationships|, {c.resource}, Normalized(c.bounds).maxCost)
    ensures ConfigRun(c).report == [] ==> ConfigRun(c).index == IndexOf(c.relationships, |c.relationships|, "")
  {
    var maxCost := Normalized(c.bounds).maxCost;
    var before := DefinitionsReport(c, maxCost, HeadReport(c));
    RelationsOnlyReport(c.relationships, |c.relationships|, "", "schema.relationships", {c.resource}, maxCost,
                        Indexing(before, map[]));
    RelationsClean(c.relationships, |c.relationships|, "", "schema.relationships", {c.resource}, maxCost,
                   Indexing([], map[]));
    hide Normalized, HeadReport, DefinitionsReport, RelationsRun, ValidRelations, IndexOf;
    assert map[] + IndexOf(c.relationships, |c.relationships|, "") == IndexOf(c.relationships, |c.relationships|, "");
  }

  /** Nothing is reported exactly for a well-formed configuration, and the relationship index is then
      the one its declarations determine. */
  lemma ReportedExactly(c: SchemaConfig)
    ensures ConfigReport(c) == [] <==> ValidConfig(c)
    ensures ConfigReport(c) == [] ==> ConfigRun(c).index == IndexOf(c.relationships, |c.relationships|, "")
  {
    var bounds := Normalized(c.bounds);
    HeadClean(c);
    DefinitionsClean(c, bounds.maxCost, HeadReport(c));
    RootsClean(c);
    PaginationOnlyReports(c);
    hide Normalized, HeadReport, DefinitionsReport, ConfigRun, PaginationReport, PaginationDeclared, FieldDeclared,
         FilterDeclared, SortDeclared, Distinct, ValidRelations, LogicDeclared, ValidName, IndexOf, BoundValues;
    if ConfigRun(c).report == [] {
      PaginationClean(c.pagination, c.defaultSort, c.sorts, bounds, []);
    }
  }

  lemma PaginationOnlyReports(c: SchemaConfig)
    ensures ConfigReport(c) == [] ==> ConfigRun(c).report == []
  {
    var before := ConfigRun(c).report;
    var limited := Note(before, |c.defaultSort| > Normalized(c.bounds).maxSorts, CodeInvalidElement,
                        "schema.default_sort");
    TermsOnlyReport(c.defaultSort, |c.defaultSort|, c.sorts,
                    PageReport(c.pagination, c.sorts, Normalized(c.bounds), limited));
    hide ConfigRun, Normalized, TermsReport, NamesTieBreaker, TieBreakers;
  }

  lemma {:induction false} TermsOnlyReport(terms: seq<SortTerm>, k: nat, sorts: seq<SortDefinition>, t: seq<Violation>)
    requires k <= |terms|
    ensures TermsReport(terms, k, sorts, t) == [] ==> t == []
  {
    if k > 0 {
      TermsOnlyReport(terms, k - 1, sorts, t);
      hide Declaration;
    }
  }
}
