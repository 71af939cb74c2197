/** What NewSchema reports about each single declaration, well formed or not. */
module SchemaVerdicts {
  import opened Types
  import opened Violations
  import opened Relationships
  import opened Schemas
  import opened SchemaReport
  import opened Declarations
  import opened DeclarationProofs

  ghost predicate Priced(c: SchemaConfig, cost: Int64) { 0 <= cost as int <= Limit(c.bounds.maxCost as int, 1000) }

  ghost function FieldCodes(c: SchemaConfig, i: nat): seq<ErrorCode>
    requires i < |c.fields|
  {
    var d := c.fields[i];
    When(!(Name(d.name) && d.kind in VALUE_TYPES), CodeInvalidElement)
    + When(!Priced(c, d.cost), CodeInvalidElement)
    + When(exists j :: 0 <= j < i && c.fields[j].name == d.name, CodeConflict)
  }

  /** An operator that a filter of this type cannot have. */
  predicate Misfit(op: Operator, kind: ValueType, nullable: bool) {
    || op.OpUnknown?
    || (op in {OpLess, OpLessOrEqual, OpGreater, OpGreaterOrEqual, OpBetween} && kind in {TypeBool, TypeBytes})
    || (op in {OpContains, OpStartsWith, OpEndsWith} && kind != TypeString)
    || (op == OpIsNull && !nullable)
  }

  ghost function OperatorsCodes(d: FilterDefinition, k: nat): seq<ErrorCode>
    requires k <= |d.operators|
  {
    if k == 0 then []
    else
      var op := d.operators[k - 1];
      OperatorsCodes(d, k - 1)
      + (When(exists j :: 0 <= j < k - 1 && d.operators[j] == op, CodeConflict)
         + When(Misfit(op, d.kind, d.nullable), CodeUnsupported))
  }

  ghost function FilterCodes(c: SchemaConfig, i: nat): seq<ErrorCode>
    requires i < |c.filters|
  {
    var d := c.filters[i];
    (When(!(Name(d.name) && d.kind in VALUE_TYPES) || d.operators == [], CodeInvalidElement)
     + When(!Priced(c, d.cost), CodeInvalidElement))
    + OperatorsCodes(d, |d.operators|)
    + When(exists j :: 0 <= j < i && c.filters[j].name == d.name, CodeConflict)
  }

  ghost function SortCodes(c: SchemaConfig, i: nat): seq<ErrorCode>
    requires i < |c.sorts|
  {
    var d := c.sorts[i];
    (When(!(Name(d.name) && d.kind in VALUE_TYPES), CodeInvalidElement)
     + When(d.nulls !in {NullsUnset, NullsFirst, NullsLast}, CodeInvalidElement))
    + (When(!Priced(c, d.cost), CodeInvalidElement)
       + When(exists j :: 0 <= j < i && c.sorts[j].name == d.name, CodeConflict))
  }

  /** The first sort of the name has another null order. */
  ghost predicate OtherNulls(c: SchemaConfig, t: SortTerm) {
    exists i :: && 0 <= i < |c.sorts| && c.sorts[i].name == t.name && c.sorts[i].nulls != t.nulls
                && forall j :: 0 <= j < i ==> c.sorts[j].name != t.name
  }

  ghost function DefaultTermCodes(c: SchemaConfig, i: nat): seq<ErrorCode>
    requires i < |c.defaultSort|
  {
    var t := c.defaultSort[i];
    When((forall d <- c.sorts :: d.name != t.name) || t.direction !in {Ascending, Descending}, CodeInvalidElement)
    + (if t.nulls !in {NullsUnset, NullsFirst, NullsLast} then [CodeInvalidElement]
       else When(t.nulls != NullsUnset && OtherNulls(c, t), CodeUnsupported))
    + When(exists j :: 0 <= j < i && c.defaultSort[j].name == t.name, CodeConflict)
  }

  /** A relationship: its names, its cost, whether its path is taken and whether its resource lies above it. */
  ghost function RelationCodes(c: SchemaConfig, r: RelationshipDefinition, taken: bool,
                               cyclic: bool): seq<ErrorCode> {
    (When(!(Name(r.name) && Name(r.resource)), CodeInvalidElement) + When(!Priced(c, r.cost), CodeInvalidElement))
    + (When(taken, CodeConflict) + When(cyclic, CodeConflict))
  }

  // ---------------------------------------------------------------- the reports say this

  lemma NoteSays(t: seq<Violation>, cause: bool, code: ErrorCode, path: string)
    ensures Note(t, cause, code, path) == t + About(path, When(cause, code))
  {
  }

  lemma SaysMore(t: seq<Violation>, path: string, one: seq<ErrorCode>, two: seq<ErrorCode>)
    ensures t + About(path, one) + About(path, two) == t + About(path, one + two)
  {
  }

  lemma NotesSay(t: seq<Violation>, a: bool, one: ErrorCode, b: bool, two: ErrorCode, path: string)
    ensures Note(Note(t, a, one, path), b, two, path) == t + About(path, When(a, one) + When(b, two))
  {
    NoteSays(t, a, one, path);
    NoteSays(Note(t, a, one, path), b, two, path);
    hide Note, About, When;
    SaysMore(t, path, When(a, one), When(b, two));
  }

  lemma {:induction false} Taken(names: seq<string>, i: nat, name: string)
    requires i <= |names|
    ensures FirstOf(names, i, name).Some? <==> exists j :: 0 <= j < i && names[j] == name
  {
    FirstOfIsFirst(names, i, name);
    hide FirstOf;
    if j :| 0 <= j < i && names[j] == name {
      assert names[..i][j] == name;
    }
  }

  lemma PricedExactly(c: SchemaConfig, cost: Int64)
    ensures cost < 0 || cost > Normalized(c.bounds).maxCost <==> !Priced(c, cost)
  {
  }

  lemma TypesExactly(kind: ValueType)
    ensures ValidType(kind) <==> kind in VALUE_TYPES
  {
  }

  lemma FieldSays(c: SchemaConfig, i: nat, t: seq<Violation>)
    requires i < |c.fields|
    ensures FieldReport(c.fields, i, Normalized(c.bounds).maxCost, t)
         == t + About(Indexed("schema.fields", i), FieldCodes(c, i))
  {
    var d, path := c.fields[i], Indexed("schema.fields", i);
    NamesAreNames(d.name);
    TypesExactly(d.kind);
    PricedExactly(c, d.cost);
    Taken(FieldNames(c.fields), i, d.name);
    var bad, dear := !(Name(d.name) && d.kind in VALUE_TYPES), !Priced(c, d.cost);
    var taken := exists j :: 0 <= j < i && c.fields[j].name == d.name;
    assert taken <==> FirstOf(FieldNames(c.fields), i, d.name).Some? by {
      if j :| 0 <= j < i && c.fields[j].name == d.name {
        assert FieldNames(c.fields)[j] == d.name;
      }
    }
    hide Name, ValidName, Priced, Normalized, FirstOf, VALUE_TYPES, ValidType, About, When, Note, FieldNames;
    NotesSay(t, bad, CodeInvalidElement, dear, CodeInvalidElement, path);
    var two := Note(Note(t, bad, CodeInvalidElement, path), dear, CodeInvalidElement, path);
    NoteSays(two, taken, CodeConflict, path);
    SaysMore(t, path, When(bad, CodeInvalidElement) + When(dear, CodeInvalidElement), When(taken, CodeConflict));
  }

  lemma MisfitsExactly(op: Operator, kind: ValueType, nullable: bool)
    ensures OperatorSupportsType(op, kind, nullable) <==> !Misfit(op, kind, nullable)
  {
  }

  lemma {:induction false} OperatorsSay(d: FilterDefinition, k: nat, path: string, t: seq<Violation>)
    requires k <= |d.operators|
    ensures OperatorsReport(d, k, path, t) == t + About(path, OperatorsCodes(d, k))
  {
    if k > 0 {
      OperatorsSay(d, k - 1, path, t);
      var op, before := d.operators[k - 1], OperatorsReport(d, k - 1, path, t);
      MisfitsExactly(op, d.kind, d.nullable);
      var taken, misfit := exists j :: 0 <= j < k - 1 && d.operators[j] == op, Misfit(op, d.kind, d.nullable);
      assert op in d.operators[..k - 1] <==> taken;
      hide About, When, Misfit, OperatorSupportsType, Note;
      NotesSay(before, taken, CodeConflict, misfit, CodeUnsupported, path);
      SaysMore(t, path, OperatorsCodes(d, k - 1), When(taken, CodeConflict) + When(misfit, CodeUnsupported));
    }
  }

  lemma FilterSays(c: SchemaConfig, i: nat, t: seq<Violation>)
    requires i < |c.filters|
    ensures FilterReport(c.filters, i, Normalized(c.bounds).maxCost, t)
         == t + About(Indexed("schema.filters", i), FilterCodes(c, i))
  {
    var d, path := c.filters[i], Indexed("schema.filters", i);
    NamesAreNames(d.name);
    TypesExactly(d.kind);
    PricedExactly(c, d.cost);
    Taken(FilterNames(c.filters), i, d.name);
    var bad, dear := !(Name(d.name) && d.kind in VALUE_TYPES) || d.operators == [], !Priced(c, d.cost);
    var taken := exists j :: 0 <= j < i && c.filters[j].name == d.name;
    assert taken <==> FirstOf(FilterNames(c.filters), i, d.name).Some? by {
      if j :| 0 <= j < i && c.filters[j].name == d.name {
        assert FilterNames(c.filters)[j] == d.name;
      }
    }
    hide Name, ValidName, Priced, Normalized, FirstOf, VALUE_TYPES, ValidType, About, When, Note, FilterNames,
      OperatorsReport, OperatorsCodes;
    NotesSay(t, bad, CodeInvalidElement, dear, CodeInvalidElement, path);
    var two := Note(Note(t, bad, CodeInvalidElement, path), dear, CodeInvalidElement, path);
    var first := When(bad, CodeInvalidElement) + When(dear, CodeInvalidElement);
    OperatorsSay(d, |d.operators|, path, two);
    SaysMore(t, path, first, OperatorsCodes(d, |d.operators|));
    NoteSays(OperatorsReport(d, |d.operators|, path, two), taken, CodeConflict, path);
    SaysMore(t, path, first + OperatorsCodes(d, |d.operators|), When(taken, CodeConflict));
  }

  lemma SortSays(c: SchemaConfig, i: nat, t: seq<Violation>)
    requires i < |c.sorts|
    ensures SortReport(c.sorts, i, Normalized(c.bounds).maxCost, t)
         == t + About(Indexed("schema.sorts", i), SortCodes(c, i))
  {
    var d, path := c.sorts[i], Indexed("schema.sorts", i);
    NamesAreNames(d.name);
    TypesExactly(d.kind);
    PricedExactly(c, d.cost);
    Taken(SortNames(c.sorts), i, d.name);
    var bad, nulls := !(Name(d.name) && d.kind in VALUE_TYPES), d.nulls !in {NullsUnset, NullsFirst, NullsLast};
    var dear, taken := !Priced(c, d.cost), exists j :: 0 <= j < i && c.sorts[j].name == d.name;
    assert taken <==> FirstOf(SortNames(c.sorts), i, d.name).Some? by {
      if j :| 0 <= j < i && c.sorts[j].name == d.name {
        assert SortNames(c.sorts)[j] == d.name;
      }
    }
    hide Name, ValidName, Priced, Normalized, FirstOf, VALUE_TYPES, ValidType, About, When, Note, SortNames;
    NotesSay(t, bad, CodeInvalidElement, nulls, CodeInvalidElement, path);
    var two := Note(Note(t, bad, CodeInvalidElement, path), nulls, CodeInvalidElement, path);
    NotesSay(two, dear, CodeInvalidElement, taken, CodeConflict, path);
    SaysMore(t, path, When(bad, CodeInvalidElement) + When(nulls, CodeInvalidElement),
             When(dear, CodeInvalidElement) + When(taken, CodeConflict));
  }

  lemma FirstDeclaration(c: SchemaConfig, t: SortTerm)
    ensures Declaration(c.sorts, t.name).None? <==> forall d <- c.sorts :: d.name != t.name
    ensures Declaration(c.sorts, t.name).Some? && t.nulls != Declaration(c.sorts, t.name).value.nulls <==>
      OtherNulls(c, t)
  {
    var names := SortNames(c.sorts);
    FirstOfIsFirst(names, |names|, t.name);
    assert names[..|names|] == names;
    forall d | d in c.sorts && d.name == t.name ensures t.name in names {
      var i :| 0 <= i < |c.sorts| && c.sorts[i] == d;
      assert names[i] == t.name;
    }
    var first := FirstOf(names, |names|, t.name);
    hide FirstOf;
    if first.Some? {
      assert c.sorts[first.value] in c.sorts && names[first.value] == c.sorts[first.value].name;
      forall j | 0 <= j < first.value ensures c.sorts[j].name != t.name {
        assert names[..first.value][j] == c.sorts[j].name;
      }
    }
  }

  lemma DefaultTermSays(c: SchemaConfig, i: nat, t: seq<Violation>)
    requires i < |c.defaultSort|
    ensures TermReport(c.defaultSort, i, c.sorts, t)
         == t + About(Indexed("schema.default_sort", i), DefaultTermCodes(c, i))
  {
    var term, path := c.defaultSort[i], Indexed("schema.default_sort", i);
    FirstDeclaration(c, term);
    var taken := exists j :: 0 <= j < i && c.defaultSort[j].name == term.name;
    assert term.name in TermNames(c.defaultSort)[..i] <==> taken by {
      if j :| 0 <= j < i && c.defaultSort[j].name == term.name {
        assert TermNames(c.defaultSort)[..i][j] == term.name;
      }
    }
    var bad := (forall d <- c.sorts :: d.name != term.name) || term.direction !in {Ascending, Descending};
    var other := term.nulls != NullsUnset && OtherNulls(c, term);
    var unknown := term.nulls !in {NullsUnset, NullsFirst, NullsLast};
    hide Declaration, OtherNulls, TermNames, About, When, Note;
    NoteSays(t, bad, CodeInvalidElement, path);
    var one := Note(t, bad, CodeInvalidElement, path);
    var middle := if unknown then [CodeInvalidElement] else When(other, CodeUnsupported);
    var two := if unknown then one + [Violation(CodeInvalidElement, path)] else Note(one, other, CodeUnsupported, path);
    NoteSays(one, other, CodeUnsupported, path);
    OneSays(one, CodeInvalidElement, path);
    SaysMore(t, path, When(bad, CodeInvalidElement), middle);
    NoteSays(two, taken, CodeConflict, path);
    SaysMore(t, path, When(bad, CodeInvalidElement) + middle, When(taken, CodeConflict));
  }

  lemma OneSays(t: seq<Violation>, code: ErrorCode, path: string)
    ensures t + [Violation(code, path)] == t + About(path, [code])
  {
  }

  /** One relationship; what lies below it is reported next, unless it closes a cycle. */
  lemma RelationSays(c: SchemaConfig, r: RelationshipDefinition, path: string, prefix: string, ancestors: set<string>,
                     st: Indexing)
    ensures var full := FullName(prefix, r.name); var taken := full in st.index;
      var said := st.report + About(path, RelationCodes(c, r, taken, r.resource in ancestors));
      var index := if taken then st.index else st.index[full := RelationshipNode(r, Depth(full))];
      RelationStep(r, path, prefix, ancestors, Normalized(c.bounds).maxCost, st)
        == if r.resource in ancestors then Indexing(said, index)
           else RelationsRun(r.relationships, |r.relationships|, full, path + ".relationships",
                             ancestors + {r.resource}, Normalized(c.bounds).maxCost, Indexing(said, index))
  {
    var taken := FullName(prefix, r.name) in st.index;
    NamesAreNames(r.name);
    NamesAreNames(r.resource);
    PricedExactly(c, r.cost);
    var bad, dear, cyclic := !(Name(r.name) && Name(r.resource)), !Priced(c, r.cost), r.resource in ancestors;
    hide Name, ValidName, Priced, Normalized, About, When, Note, RelationsRun;
    NotesSay(st.report, bad, CodeInvalidElement, dear, CodeInvalidElement, path);
    var two := Note(Note(st.report, bad, CodeInvalidElement, path), dear, CodeInvalidElement, path);
    NotesSay(two, taken, CodeConflict, cyclic, CodeConflict, path);
    SaysMore(st.report, path, When(bad, CodeInvalidElement) + When(dear, CodeInvalidElement),
             When(taken, CodeConflict) + When(cyclic, CodeConflict));
    NoteIs(Note(two, taken, CodeConflict, path), cyclic, CodeConflict, path);
  }

  lemma NoteIs(t: seq<Violation>, cause: bool, code: ErrorCode, path: string)
    ensures Note(t, cause, code, path) == if cause then t + [Violation(code, path)] else t
  {
  }
}
