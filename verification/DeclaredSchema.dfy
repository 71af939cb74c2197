/** NewSchema accepts exactly the configurations the reference admits, and what a schema's filters may ask. */
module DeclaredSchema {
  import opened Types
  import opened Relationships
  import opened Schemas
  import opened Declarations
  import opened DeclarationProofs

  lemma OperatorsSuit(op: Operator, d: FilterDefinition)
    requires d.kind in VALUE_TYPES
    ensures OperatorSupportsType(op, d.kind, d.nullable) <==> Suits(op, d)
  {
  }

  lemma TypesAgree(kind: ValueType)
    ensures ValidType(kind) <==> kind in VALUE_TYPES
  {
  }

  lemma CostsAgree(c: SchemaConfig, name: string, kind: ValueType, cost: Int64)
    ensures ValidName(name) && ValidType(kind) && CostDeclared(cost, Normalized(c.bounds).maxCost) <==>
      Declared(c, name, kind, cost)
  {
    NamesAreNames(name);
    hide ValidName, Name;
  }

  lemma BoundsAgree(b: Bounds)
    ensures (forall i :: 0 <= i < |BoundValues(b)| ==> BoundValues(b)[i] >= 0) <==> BoundsFit(b)
  {
    var v := BoundValues(b);
    if forall i :: 0 <= i < |v| ==> v[i] >= 0 {
      assert v[0] >= 0 && v[1] >= 0 && v[2] >= 0 && v[3] >= 0 && v[4] >= 0 && v[5] >= 0 && v[6] >= 0 && v[7] >= 0
        && v[8] >= 0 && v[9] >= 0 && v[10] >= 0 && v[11] >= 0 && v[12] >= 0 && v[13] >= 0 && v[14] >= 0;
    }
  }

  lemma NamesApart(names: seq<string>, k: nat)
    requires k == |names|
    ensures Distinct(names) <==> forall i, j :: 0 <= i < j < k ==> names[i] != names[j]
  {
  }

  lemma FieldsFitExactly(c: SchemaConfig)
    ensures (forall d <- c.fields :: FieldDeclared(d, Normalized(c.bounds).maxCost)) && Distinct(FieldNames(c.fields))
      <==> && (forall d <- c.fields :: Declared(c, d.name, d.kind, d.cost))
           && (forall i, j :: 0 <= i < j < |c.fields| ==> c.fields[i].name != c.fields[j].name)
  {
    forall d | d in c.fields
      ensures FieldDeclared(d, Normalized(c.bounds).maxCost) <==> Declared(c, d.name, d.kind, d.cost)
    {
      CostsAgree(c, d.name, d.kind, d.cost);
    }
    var names := FieldNames(c.fields);
    forall i | 0 <= i < |names| ensures names[i] == c.fields[i].name {}
    NamesApart(names, |c.fields|);
    hide FieldDeclared, Declared, Distinct;
  }

  lemma SortsFitExactly(c: SchemaConfig)
    ensures (forall d <- c.sorts :: SortDeclared(d, Normalized(c.bounds).maxCost)) && Distinct(SortNames(c.sorts))
      <==> && (forall d <- c.sorts ::
                 Declared(c, d.name, d.kind, d.cost) && d.nulls in {NullsUnset, NullsFirst, NullsLast})
           && (forall i, j :: 0 <= i < j < |c.sorts| ==> c.sorts[i].name != c.sorts[j].name)
  {
    forall d | d in c.sorts
      ensures SortDeclared(d, Normalized(c.bounds).maxCost) <==>
        Declared(c, d.name, d.kind, d.cost) && d.nulls in {NullsUnset, NullsFirst, NullsLast}
    {
      CostsAgree(c, d.name, d.kind, d.cost);
    }
    var names := SortNames(c.sorts);
    forall i | 0 <= i < |names| ensures names[i] == c.sorts[i].name {}
    NamesApart(names, |c.sorts|);
    hide SortDeclared, Declared, Distinct;
  }

  ghost predicate FilterFitsDeclared(c: SchemaConfig, d: FilterDefinition) {
    && Declared(c, d.name, d.kind, d.cost) && d.operators != []
    && (forall i, j :: 0 <= i < j < |d.operators| ==> d.operators[i] != d.operators[j])
    && forall op <- d.operators :: Suits(op, d)
  }

  /** A filter is declared well exactly when each of its operators fits its type. */
  lemma FilterFitsExactly(c: SchemaConfig, d: FilterDefinition)
    ensures FilterDeclared(d, Normalized(c.bounds).maxCost) <==> FilterFitsDeclared(c, d)
  {
    CostsAgree(c, d.name, d.kind, d.cost);
    TypesAgree(d.kind);
    if d.kind in VALUE_TYPES {
      forall op | op in d.operators ensures OperatorSupportsType(op, d.kind, d.nullable) <==> Suits(op, d) {
        OperatorsSuit(op, d);
      }
    }
    hide CostDeclared, ValidName, Suits, OperatorSupportsType, Normalized, Limit, Name, ValidType;
  }

  lemma FiltersFitExactly(c: SchemaConfig)
    ensures (forall d <- c.filters :: FilterDeclared(d, Normalized(c.bounds).maxCost))
      && Distinct(FilterNames(c.filters))
      <==> && (forall d <- c.filters :: FilterFitsDeclared(c, d))
           && (forall i, j :: 0 <= i < j < |c.filters| ==> c.filters[i].name != c.filters[j].name)
  {
    forall d | d in c.filters
      ensures FilterDeclared(d, Normalized(c.bounds).maxCost) <==> FilterFitsDeclared(c, d)
    {
      FilterFitsExactly(c, d);
    }
    var names := FilterNames(c.filters);
    forall i | 0 <= i < |names| ensures names[i] == c.filters[i].name {}
    NamesApart(names, |c.filters|);
    hide FilterDeclared, FilterFitsDeclared, Distinct;
  }

  // ---------------------------------------------------------------- relationships

  lemma ChildDeclares(rs: seq<RelationshipDefinition>, r: RelationshipDefinition, names: seq<string>,
                      d: RelationshipDefinition)
    requires r in rs && Declares(r.relationships, names, d)
    ensures Declares(rs, [r.name] + names, d)
  {
    assert ([r.name] + names)[1..] == names;
  }

  /** What is declared below rs is one of rs or declared below one of rs. */
  lemma DeclaredBelow(rs: seq<RelationshipDefinition>, names: seq<string>, d: RelationshipDefinition)
    returns (i: nat)
    requires Declares(rs, names, d)
    ensures i < |rs| && rs[i].name == names[0]
    ensures if |names| == 1 then d == rs[i] else Declares(rs[i].relationships, names[1..], d)
  {
    var r :| r in rs && r.name == names[0] && if |names| == 1 then d == r
                                               else Declares(r.relationships, names[1..], d);
    i :| 0 <= i < |rs| && rs[i] == r;
  }

  lemma TopDeclared(rs: seq<RelationshipDefinition>, i: nat)
    requires i < |rs|
    ensures Declares(rs, [rs[i].name], rs[i])
  {
  }

  ghost predicate HeadFits(r: RelationshipDefinition, roots: set<string>, maxCost: int) {
    Name(r.name) && Name(r.resource) && 0 <= r.cost as int <= maxCost && r.resource !in roots
  }

  lemma TreeFitsBelow(rs: seq<RelationshipDefinition>, i: nat, roots: set<string>, maxCost: int)
    requires TreeFits(rs, roots, maxCost) && i < |rs|
    ensures HeadFits(rs[i], roots, maxCost)
    ensures TreeFits(rs[i].relationships, roots + {rs[i].resource}, maxCost)
  {
    var r := rs[i];
    TopDeclared(rs, i);
    hide Name;
    forall names, d | Declares(r.relationships, names, d)
      ensures HeadFits(d, roots + {r.resource}, maxCost) && SiblingsApart(d.relationships)
    {
      ChildDeclares(rs, r, names, d);
    }
    forall names, d, more, e | Declares(r.relationships, names, d) && Declares(d.relationships, more, e)
      ensures d.resource != e.resource
    {
      ChildDeclares(rs, r, names, d);
    }
  }

  lemma TreeFitsAbove(rs: seq<RelationshipDefinition>, roots: set<string>, maxCost: int)
    requires SiblingsApart(rs)
    requires forall i :: 0 <= i < |rs| ==>
      && HeadFits(rs[i], roots, maxCost)
      && TreeFits(rs[i].relationships, roots + {rs[i].resource}, maxCost)
    ensures TreeFits(rs, roots, maxCost)
  {
    hide Name;
    forall names, d | Declares(rs, names, d)
      ensures HeadFits(d, roots, maxCost) && SiblingsApart(d.relationships)
    {
      var i := DeclaredBelow(rs, names, d);
    }
    forall names, d, more, e | Declares(rs, names, d) && Declares(d.relationships, more, e)
      ensures d.resource != e.resource
    {
      var i := DeclaredBelow(rs, names, d);
    }
  }

  lemma {:induction false} TreeFitsExactly(rs: seq<RelationshipDefinition>, roots: set<string>, maxCost: Int64)
    ensures ValidRelations(rs, |rs|, roots, maxCost) <==> TreeFits(rs, roots, maxCost as int)
    decreases rs
  {
    forall i | 0 <= i < |rs|
      ensures ValidRelation(rs[i], roots, maxCost) <==>
        && HeadFits(rs[i], roots, maxCost as int)
        && TreeFits(rs[i].relationships, roots + {rs[i].resource}, maxCost as int)
    {
      NamesAreNames(rs[i].name);
      NamesAreNames(rs[i].resource);
      TreeFitsExactly(rs[i].relationships, roots + {rs[i].resource}, maxCost);
    }
    hide HeadFits, ValidRelation;
    if TreeFits(rs, roots, maxCost as int) {
      forall i | 0 <= i < |rs| ensures ValidRelation(rs[i], roots, maxCost) {
        TreeFitsBelow(rs, i, roots, maxCost as int);
      }
    }
    if ValidRelations(rs, |rs|, roots, maxCost) {
      TreeFitsAbove(rs, roots, maxCost as int);
    }
  }

  // ---------------------------------------------------------------- pagination

  lemma TermFitsExactly(c: SchemaConfig, t: SortTerm)
    requires forall d <- c.sorts :: ValidNulls(d.nulls)
    ensures TermDeclared(t, c.sorts) <==> DefaultTermFits(c, t)
  {
    if DefaultTermFits(c, t) {
      var d :| d in c.sorts && d.name == t.name && (t.nulls == NullsUnset || t.nulls == d.nulls);
      var i :| 0 <= i < |c.sorts| && c.sorts[i] == d;
      assert c.sorts[i].name == t.name;
    }
  }

  lemma OneTieExactly(sorts: seq<SortDefinition>)
    ensures OneTieBreaker(sorts) <==> exists i :: 0 <= i < |sorts| && TieBreakerIs(sorts, i)
  {
    if OneTieBreaker(sorts) {
      var i :| && 0 <= i < |sorts| && sorts[i].tieBreaker
               && forall j :: 0 <= j < |sorts| && sorts[j].tieBreaker ==> j == i;
      assert TieBreakerIs(sorts, i);
    }
    if i :| 0 <= i < |sorts| && TieBreakerIs(sorts, i) {
      assert sorts[i].tieBreaker;
    }
  }

  lemma BreaksExactly(c: SchemaConfig, t: SortTerm)
    ensures IsTieBreaker(t.name, c.sorts) <==> Breaks(c, t)
  {
    if Breaks(c, t) {
      var d :| d in c.sorts && d.name == t.name && d.tieBreaker;
      var i :| 0 <= i < |c.sorts| && c.sorts[i] == d;
      assert c.sorts[i].name == t.name;
    }
  }

  lemma DefaultTermsFitExactly(c: SchemaConfig)
    requires forall d <- c.sorts :: ValidNulls(d.nulls)
    ensures (forall i :: 0 <= i < |c.defaultSort| ==> TermDeclared(c.defaultSort[i], c.sorts)) <==>
      (forall t <- c.defaultSort :: DefaultTermFits(c, t))
    ensures (exists i :: 0 <= i < |c.defaultSort| && IsTieBreaker(c.defaultSort[i].name, c.sorts)) <==>
      (exists t <- c.defaultSort :: Breaks(c, t))
    ensures Distinct(TermNames(c.defaultSort)) <==>
      forall i, j :: 0 <= i < j < |c.defaultSort| ==> c.defaultSort[i].name != c.defaultSort[j].name
  {
    forall t | t in c.defaultSort
      ensures TermDeclared(t, c.sorts) <==> DefaultTermFits(c, t)
      ensures IsTieBreaker(t.name, c.sorts) <==> Breaks(c, t)
    {
      TermFitsExactly(c, t);
      BreaksExactly(c, t);
    }
    hide TermDeclared, DefaultTermFits, IsTieBreaker, Breaks;
    var names := TermNames(c.defaultSort);
    forall i | 0 <= i < |names| ensures names[i] == c.defaultSort[i].name {}
    NamesApart(names, |c.defaultSort|);
  }

  lemma PaginationFitsExactly(c: SchemaConfig)
    requires forall d <- c.sorts :: ValidNulls(d.nulls)
    ensures PaginationDeclared(c.pagination, c.defaultSort, c.sorts, Normalized(c.bounds)) <==> PaginationFits(c)
  {
    OneTieExactly(c.sorts);
    DefaultTermsFitExactly(c);
    hide TermDeclared, DefaultTermFits, OneTieBreaker, TieBreakerIs, IsTieBreaker, Breaks, Distinct, TermNames;
  }

  /** NewSchema accepts a configuration exactly when the reference admits it. */
  lemma AcceptedExactly(c: SchemaConfig)
    ensures ValidConfig(c) <==> ConfigFits(c)
  {
    BoundsAgree(c.bounds);
    NamesAreNames(c.resource);
    FieldsFitExactly(c);
    FiltersFitExactly(c);
    SortsFitExactly(c);
    TreeFitsExactly(c.relationships, {c.resource}, Normalized(c.bounds).maxCost);
    assert Normalized(c.bounds).maxCost as int == Limit(c.bounds.maxCost as int, 1000);
    if forall d <- c.sorts :: ValidNulls(d.nulls) {
      PaginationFitsExactly(c);
    }
    hide BoundsFit, ValidName, Name, FieldDeclared, FilterDeclared, ValidRelations, TreeFits, Normalized,
      Limit, PaginationDeclared, PaginationFits, BoundValues, Declared, Suits, FieldNames, FilterNames, SortNames;
  }
}
