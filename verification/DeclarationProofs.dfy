/** Compile does what the declarations say. */
module DeclarationProofs {
  import opened Text
  import opened Types
  import opened Relationships
  import opened Schemas
  import opened FieldPhase
  import opened IncludePhase
  import opened SortPhase
  import opened Admission
  import opened Declarations

  /** The schema NewSchema builds for a configuration. */
  ghost predicate Built(c: SchemaConfig, s: Schema) { ValidConfig(c) && Snapshot(c, s) }

  lemma BuiltIsValid(c: SchemaConfig, s: Schema)
    requires Built(c, s)
    ensures ValidSchema(s)
  {
    SnapshotIsValid(c, s);
  }

  lemma BuiltBounds(c: SchemaConfig, s: Schema)
    requires Built(c, s)
    ensures s.bounds.maxFields == Limit(c.bounds.maxFields, 64)
      && s.bounds.maxIncludes == Limit(c.bounds.maxIncludes, 16)
    ensures s.bounds.maxIncludeDepth == Limit(c.bounds.maxIncludeDepth, 4)
    ensures s.bounds.maxFilterDepth == Limit(c.bounds.maxFilterDepth, 8)
    ensures s.bounds.maxFilterNodes == Limit(c.bounds.maxFilterNodes, 128)
    ensures s.bounds.maxValues == Limit(c.bounds.maxValues, 256)
    ensures s.bounds.maxMembership == Limit(c.bounds.maxMembership, 100)
    ensures s.bounds.maxStringBytes == Limit(c.bounds.maxStringBytes, 4096)
    ensures s.bounds.maxSorts == Limit(c.bounds.maxSorts, 8) && s.bounds.maxPageSize == Limit(c.bounds.maxPageSize, 100)
    ensures s.bounds.maxCursorBytes == Limit(c.bounds.maxCursorBytes, 4096)
    ensures s.bounds.maxCost as int == Limit(c.bounds.maxCost as int, 1000)
    ensures s.bounds.maxErrors == Limit(c.bounds.maxErrors, 16)
  {
    hide ValidConfig, Indexes, IndexOf;
  }

  lemma NamesAreNames(s: string)
    ensures ValidName(s) <==> Name(s)
  {
    if s != "" {
      forall i | 0 <= i < |s| ensures NameChar(s[i], i == 0) <==> s[i] in if i == 0 then LETTERS else NAME_TAIL {
        CharIsName(s[i]);
      }
    }
  }

  lemma CharIsName(ch: char)
    ensures NameChar(ch, true) <==> ch in LETTERS
    ensures NameChar(ch, false) <==> ch in NAME_TAIL
  {
    LetterIsListed(ch);
    if '0' <= ch <= '9' {
      assert "0123456789_"[ch as int - '0' as int] == ch;
    }
    assert "0123456789_"[10] == '_';
    hide LETTERS;
  }

  lemma LetterIsListed(ch: char)
    ensures 'a' <= ch <= 'z' <==> ch in LETTERS
  {
    if 'a' <= ch <= 'm' {
      assert "abcdefghijklm"[ch as int - 'a' as int] == ch;
    }
    if 'n' <= ch <= 'z' {
      assert "nopqrstuvwxyz"[ch as int - 'n' as int] == ch;
    }
  }

  // ---------------------------------------------------------------- lists of fields

  lemma {:induction false} ListsOnly(a: seq<string>, b: seq<string>, fields: seq<FieldDefinition>,
                                     keep: FieldDefinition -> bool, p: seq<nat>, q: seq<nat>, k: nat)
    requires ListsAt(a, fields, keep, p) && ListsAt(b, fields, keep, q) && k <= |p|
    ensures k <= |q| && p[..k] == q[..k]
  {
    if k > 0 {
      ListsOnly(a, b, fields, keep, p, q, k - 1);
      forall i | 0 <= i < k - 1 ensures p[i] == q[i] {
        assert p[i] == p[..k - 1][i] && q[i] == q[..k - 1][i];
      }
      assert p[k - 1] in q;
      var j :| 0 <= j < |q| && q[j] == p[k - 1];
      assert j >= k - 1;
      assert q[k - 1] in p;
      var i :| 0 <= i < |p| && p[i] == q[k - 1];
      assert i >= k - 1;
      assert q[k - 1] == p[k - 1];
      assert p[..k] == p[..k - 1] + [p[k - 1]] && q[..k] == q[..k - 1] + [q[k - 1]];
    }
  }

  /** A list of the declarations to keep is determined by them. */
  lemma ListsUnique(a: seq<string>, b: seq<string>, fields: seq<FieldDefinition>, keep: FieldDefinition -> bool)
    requires Lists(a, fields, keep) && Lists(b, fields, keep)
    ensures a == b
  {
    var p :| ListsAt(a, fields, keep, p);
    var q :| ListsAt(b, fields, keep, q);
    ListsOnly(a, b, fields, keep, p, q, |p|);
    ListsOnly(b, a, fields, keep, q, p, |q|);
    assert p[..|p|] == p && q[..|q|] == q;
    SameAt(a, b, fields, keep, p);
  }

  lemma SameAt(a: seq<string>, b: seq<string>, fields: seq<FieldDefinition>, keep: FieldDefinition -> bool,
               at: seq<nat>)
    requires ListsAt(a, fields, keep, at) && ListsAt(b, fields, keep, at)
    ensures a == b
  {
    forall i | 0 <= i < |at| ensures a[i] == b[i] {
      assert a[i] == fields[at[i]].name;
    }
  }

  /** ListsAt for the first n declarations. */
  ghost predicate ListsUpTo(names: seq<string>, fields: seq<FieldDefinition>, keep: FieldDefinition -> bool,
                            at: seq<nat>, n: nat)
    requires n <= |fields|
  {
    && |at| == |names|
    && (forall i :: 0 <= i < |at| ==> at[i] < n && keep(fields[at[i]]) && names[i] == fields[at[i]].name)
    && (forall i, j :: 0 <= i < j < |at| ==> at[i] < at[j])
    && (forall k: nat {:trigger k in at} :: k < n && keep(fields[k]) ==> k in at)
  }

  lemma ListsTaken(names: seq<string>, fields: seq<FieldDefinition>, keep: FieldDefinition -> bool, at: seq<nat>,
                   n: nat)
    requires n < |fields| && ListsUpTo(names, fields, keep, at, n) && keep(fields[n])
    ensures ListsUpTo(names + [fields[n].name], fields, keep, at + [n], n + 1)
  {
    assert (at + [n])[|at|] == n;
  }

  lemma {:induction false} DefaultsListed(s: Schema, k: nat) returns (at: seq<nat>)
    requires k <= |s.fields|
    ensures ListsUpTo(DefaultFields(s, k), s.fields, (d: FieldDefinition) => d.selected, at, k)
  {
    if k == 0 {
      at := [];
    } else {
      at := DefaultsListed(s, k - 1);
      assert DefaultFields(s, k - 1) + [] == DefaultFields(s, k - 1);
      if s.fields[k - 1].selected {
        ListsTaken(DefaultFields(s, k - 1), s.fields, (d: FieldDefinition) => d.selected, at, k - 1);
        at := at + [k - 1];
      }
    }
  }

  lemma {:induction false} RequiredListed(s: Schema, response: seq<string>, k: nat) returns (at: seq<nat>)
    requires k <= |s.fields| && Distinct(FieldNames(s.fields))
    ensures ListsUpTo(RequiredFields(s, response, k), s.fields,
                      (d: FieldDefinition) => d.required && d.name !in response, at, k)
  {
    if k == 0 {
      at := [];
    } else {
      at := RequiredListed(s, response, k - 1);
      var before, field := RequiredFields(s, response, k - 1), s.fields[k - 1];
      forall i | 0 <= i < |before| ensures before[i] != field.name {
        assert FieldNames(s.fields)[at[i]] != FieldNames(s.fields)[k - 1];
      }
      if field.required && field.name !in response {
        ListsTaken(before, s.fields, (d: FieldDefinition) => d.required && d.name !in response, at, k - 1);
        at := at + [k - 1];
      }
    }
  }

  lemma EffectiveInEffect(c: SchemaConfig, s: Schema, requested: Option<seq<string>>, fields: seq<string>)
    requires Built(c, s) && FieldsInEffect(c, requested, fields)
    ensures fields == EffectiveFields(s, requested)
  {
    hide ValidConfig, Indexes, IndexOf;
    if requested.None? {
      var at := DefaultsListed(s, |s.fields|);
      assert ListsAt(DefaultFields(s, |s.fields|), c.fields, (d: FieldDefinition) => d.selected, at);
      ListsUnique(fields, DefaultFields(s, |s.fields|), c.fields, (d: FieldDefinition) => d.selected);
    }
  }

  lemma ExecutionListed(c: SchemaConfig, s: Schema, response: seq<string>)
    requires Built(c, s)
    ensures Executes(c, response, ExecutionFields(s, response))
  {
    assert Distinct(FieldNames(s.fields));
    hide ValidConfig, Indexes, IndexOf;
    var at := RequiredListed(s, response, |s.fields|);
    assert ListsAt(RequiredFields(s, response, |s.fields|), c.fields,
                   (d: FieldDefinition) => d.required && d.name !in response, at);
    assert Lists(RequiredFields(s, response, |s.fields|), c.fields,
                 (d: FieldDefinition) => d.required && d.name !in response);
  }

  // ---------------------------------------------------------------- constraints and fields

  lemma ConstraintsAgree(c: SchemaConfig, s: Schema, cs: seq<Constraint>)
    requires Built(c, s)
    ensures ConstraintsOk(s, cs) <==> ConstraintsFit(c, cs)
  {
    BuiltBounds(c, s);
    hide Built, Limit, ByteLength;
    forall x | x in cs ensures ValidName(x.name) <==> Name(x.name) {
      NamesAreNames(x.name);
    }
    assert Distinct(ConstraintNames(cs)) <==> forall i, j :: 0 <= i < j < |cs| ==> cs[i].name != cs[j].name by {
      if Distinct(ConstraintNames(cs)) {
        forall i, j | 0 <= i < j < |cs| ensures cs[i].name != cs[j].name {
          assert ConstraintNames(cs)[i] != ConstraintNames(cs)[j];
        }
      }
    }
    hide ValidName, Name, ConstraintNames, Distinct;
  }

  lemma FieldAgrees(c: SchemaConfig, s: Schema, options: CompileOptions, name: string)
    requires Built(c, s)
    ensures name in s.fieldIndex && !FieldDeprecated(s, name) && Permits(options, CapabilityField, name)
      <==> FieldOffered(c, options, name)
  {
    BuiltIsValid(c, s);
    FieldLookup(s, name);
    hide ValidConfig, ValidSchema, Indexes, IndexOf;
    if name in s.fieldIndex {
      assert s.fields[s.fieldIndex[name]] in c.fields;
    }
  }

  lemma FieldsAgree(c: SchemaConfig, s: Schema, options: CompileOptions, fields: seq<string>)
    requires Built(c, s)
    ensures FieldsOk(s, options, fields) <==> FieldsFit(c, options, fields)
  {
    BuiltBounds(c, s);
    forall f | f in fields
      ensures f in s.fieldIndex && !FieldDeprecated(s, f) && Permits(options, CapabilityField, f)
        <==> FieldOffered(c, options, f)
    {
      FieldAgrees(c, s, options, f);
    }
    hide Built, Limit, FieldOffered, FieldDeprecated, Permits;
  }

  // ---------------------------------------------------------------- sorts

  lemma TermAgrees(c: SchemaConfig, s: Schema, options: CompileOptions, t: SortTerm)
    requires Built(c, s)
    ensures SortOk(s, options, t) <==> TermFits(c, options, t)
  {
    BuiltIsValid(c, s);
    DeclaredSort(s, t.name);
    hide ValidConfig, ValidSchema, Indexes, IndexOf;
    if t.name in s.sortIndex {
      assert s.sorts[s.sortIndex[t.name]] in c.sorts;
    }
  }

  lemma TermsAgree(c: SchemaConfig, s: Schema, options: CompileOptions, terms: seq<SortTerm>)
    requires Built(c, s)
    ensures SortsOk(s, options, terms) <==> TermsFit(c, options, terms)
  {
    BuiltBounds(c, s);
    forall t | t in terms ensures SortOk(s, options, t) <==> TermFits(c, options, t) {
      TermAgrees(c, s, options, t);
    }
    assert Distinct(TermNames(terms)) <==> forall i, j :: 0 <= i < j < |terms| ==> terms[i].name != terms[j].name by {
      if Distinct(TermNames(terms)) {
        forall i, j | 0 <= i < j < |terms| ensures terms[i].name != terms[j].name {
          assert TermNames(terms)[i] != TermNames(terms)[j];
        }
      }
    }
    hide Built, Limit, SortOk, TermFits, TermNames, Distinct;
  }

  lemma FilledIsCompleted(c: SchemaConfig, s: Schema, options: CompileOptions, t: SortTerm, done: SortTerm)
    requires Built(c, s) && TermFits(c, options, t) && Filled(c, t, done)
    ensures done == Completed(s, t)
  {
    BuiltIsValid(c, s);
    DeclaredSort(s, t.name);
    hide ValidConfig, ValidSchema, Indexes, IndexOf;
    var d :| d in c.sorts && d.name == t.name && (t.nulls == NullsUnset || t.nulls == d.nulls);
    var i :| 0 <= i < |s.sorts| && s.sorts[i] == d;
    assert s.sorts[i].name == t.name;
  }

  lemma NamesStay(s: Schema, terms: seq<SortTerm>)
    ensures TermNames(CompletedAll(s, terms)) == TermNames(terms)
    ensures forall n :: n in TermNames(terms) <==> n in NamesOfTerms(terms)
  {
    forall n ensures n in TermNames(terms) <==> n in NamesOfTerms(terms) {
      if n in TermNames(terms) {
        var i :| 0 <= i < |terms| && TermNames(terms)[i] == n;
        assert terms[i] in terms;
      }
      if n in NamesOfTerms(terms) {
        var t :| t in terms && t.name == n;
        var i :| 0 <= i < |terms| && terms[i] == t;
        assert TermNames(terms)[i] == n;
      }
    }
  }

  /** On a schema with cursor pages the first tie-breaker is the only one. */
  lemma OnlyTieBreaker(c: SchemaConfig, s: Schema) returns (i: nat)
    requires Built(c, s) && c.pagination.cursor
    ensures FirstTieBreaker(s.sorts, 0) == Some(i) && i < |c.sorts| && s.sorts == c.sorts && c.sorts[i].tieBreaker
    ensures forall d :: d in c.sorts && d.tieBreaker <==> d == c.sorts[i]
  {
    FirstTieBreakerIsOne(s.sorts, 0);
    hide Indexes, IndexOf, FirstTieBreaker;
    i := FirstTieBreaker(s.sorts, 0).value;
    assert OneTieBreaker(c.sorts);
    forall d | d in c.sorts && d.tieBreaker ensures d == c.sorts[i] {
      var j :| 0 <= j < |c.sorts| && c.sorts[j] == d;
    }
  }

  lemma TieAgrees(c: SchemaConfig, s: Schema, options: CompileOptions, terms: seq<SortTerm>)
    requires Built(c, s) && c.pagination.cursor
    ensures TieOk(s, options, CompletedAll(s, terms)) <==> TieFits(c, options, terms)
  {
    BuiltBounds(c, s);
    var i := OnlyTieBreaker(c, s);
    NamesStay(s, terms);
    hide Built, Limit, FirstTieBreaker, TermNames, NamesOfTerms, CompletedAll;
    assert c.sorts[i] in c.sorts;
  }

  lemma OrderAgrees(c: SchemaConfig, s: Schema, options: CompileOptions, request: Request, final: seq<SortTerm>)
    requires Built(c, s) && (request.page.mode == PageCursor ==> c.pagination.cursor)
    requires TermsFit(c, options, TermsInEffect(c, request.sorts))
    requires Ordered(c, request.page.mode == PageCursor, TermsInEffect(c, request.sorts), final)
    ensures final == FinalSorts(s, request)
  {
    var terms := TermsInEffect(c, request.sorts);
    var done := CompletedAll(s, terms);
    forall i | 0 <= i < |terms| ensures final[i] == done[i] {
      assert terms[i] in terms;
      FilledIsCompleted(c, s, options, terms[i], final[i]);
    }
    assert final[..|terms|] == done;
    assert final == done + final[|terms|..];
    assert EffectiveSorts(s, request.sorts) == terms;
    NamesStay(s, terms);
    if request.page.mode == PageCursor {
      var i := OnlyTieBreaker(c, s);
      assert c.sorts[i] in c.sorts;
      hide Built, FirstTieBreaker, TermNames, NamesOfTerms, CompletedAll, TermsFit, Filled;
      if c.sorts[i].name in NamesOfTerms(terms) {
        assert final[|terms|..] == [];
      }
    } else {
      assert final[|terms|..] == [];
    }
  }

  // ---------------------------------------------------------------- pages and cursors

  lemma NoTokenLength()
    ensures ByteLength("") == 0
  {
  }

  lemma PageAgrees(c: SchemaConfig, s: Schema, p: PageRequest)
    requires Built(c, s)
    ensures PageOk(s, NormalizedPage(s, p)) <==> PageFits(c, p)
    ensures PageFits(c, p) ==>
      NormalizedPage(s, p).(after := "", before := "") == PageOf(c, p) && s.pagination == c.pagination
  {
    BuiltBounds(c, s);
    NoTokenLength();
    assert PaginationDeclared(c.pagination, c.defaultSort, c.sorts, s.bounds);
    assert p.after + "" == p.after && "" + p.before == p.before;
    BuiltIsValid(c, s);
    assert s.bounds.maxCursorBytes > 0 && s.bounds.maxPageSize > 0 by {
      assert BoundValues(s.bounds)[11] > 0 && BoundValues(s.bounds)[10] > 0;
    }
    hide Limit, ByteLength, ValidConfig, ValidSchema, Indexes, IndexOf;
  }

  lemma StateAgrees(c: SchemaConfig, s: Schema, page: PageRequest, final: seq<SortTerm>, state: CursorState)
    requires Built(c, s) && forall t <- final :: t.name in s.sortIndex
    ensures StateOk(s, page, final, state) <==>
      StateFits(c, if page.before != "" then Backward else Forward, final, state)
  {
    BuiltBounds(c, s);
    BuiltIsValid(c, s);
    hide ValidConfig, ValidSchema, Indexes, IndexOf, Limit, ByteLength;
    if |state.positions| == |final| {
      forall i | 0 <= i < |final|
        ensures PositionOk(s, final[i], state.positions[i]) <==>
          && ByteLength(state.positions[i].text) <= Limit(c.bounds.maxStringBytes, 4096)
          && (state.positions[i].kind == TypeNull
              || exists d <- c.sorts :: d.name == final[i].name && d.kind == state.positions[i].kind)
      {
        assert final[i] in final;
        DeclaredSort(s, final[i].name);
        assert s.sorts[s.sortIndex[final[i].name]] in c.sorts;
      }
      hide PositionOk;
    }
  }

  lemma CursorAgrees(c: SchemaConfig, s: Schema, options: CompileOptions, p: PageRequest, final: seq<SortTerm>,
                     cursor: Option<CursorState>)
    requires Built(c, s) && PageFits(c, p) && forall t <- final :: t.name in s.sortIndex
    requires cursor == if HasOneToken(NormalizedPage(s, p)) && options.decoder.Some?
                       then options.decoder.value(TokenOf(NormalizedPage(s, p)), s.revision, final) else None
    ensures CursorOk(s, options, NormalizedPage(s, p), final) <==> CursorIs(c, options, p, final, cursor)
    ensures forall other | CursorIs(c, options, p, final, other) :: other == cursor
  {
    var page := NormalizedPage(s, p);
    assert s.revision == c.revision;
    if cursor.Some? {
      StateAgrees(c, s, page, final, cursor.value);
    }
    hide Built, StateOk, StateFits, ByteLength, Limit;
    if HasOneToken(page) {
      assert TokenOf(page) == if p.after != "" then p.after else p.before;
    }
  }

  // ---------------------------------------------------------------- includes

  function NamesAlong(chain: seq<RelationshipDefinition>): (names: seq<string>)
    ensures |names| == |chain|
  {
    seq(|chain|, i requires 0 <= i < |chain| => chain[i].name)
  }

  lemma {:induction false} DeclaredChain(rs: seq<RelationshipDefinition>, names: seq<string>, d: RelationshipDefinition)
    returns (chain: seq<RelationshipDefinition>)
    requires Declares(rs, names, d)
    ensures IsChain(rs, chain) && NamesAlong(chain) == names && chain[|chain| - 1] == d
    decreases |names|
  {
    var r :| r in rs && r.name == names[0] && if |names| == 1 then d == r
                                               else Declares(r.relationships, names[1..], d);
    if |names| == 1 {
      chain := [r];
    } else {
      var below := DeclaredChain(r.relationships, names[1..], d);
      chain := [r] + below;
      assert chain[1..] == below && names == [names[0]] + names[1..];
    }
  }

  lemma {:induction false} ChainDeclares(rs: seq<RelationshipDefinition>, chain: seq<RelationshipDefinition>)
    requires IsChain(rs, chain)
    ensures Declares(rs, NamesAlong(chain), chain[|chain| - 1])
    decreases |chain|
  {
    if |chain| > 1 {
      ChainDeclares(chain[0].relationships, chain[1..]);
      assert NamesAlong(chain)[1..] == NamesAlong(chain[1..]);
    }
  }

  lemma {:induction false} ChainSpells(prefix: string, chain: seq<RelationshipDefinition>, j: nat)
    requires 0 < j <= |chain| && forall i :: 0 <= i < |chain| ==> chain[i].name != ""
    ensures ChainNames(prefix, chain)[j - 1] == FullName(prefix, Path(NamesAlong(chain)[..j]))
    decreases |chain|
  {
    var names := NamesAlong(chain)[..j];
    assert names[0] == chain[0].name;
    if j > 1 {
      var full := FullName(prefix, chain[0].name);
      ChainSpells(full, chain[1..], j - 1);
      assert names[1..] == NamesAlong(chain[1..])[..j - 1];
      assert Path(names) == chain[0].name + "." + Path(names[1..]);
      JoinsFull(prefix, chain[0].name, Path(names[1..]));
    }
  }

  lemma JoinsFull(prefix: string, name: string, rest: string)
    requires name != ""
    ensures FullName(FullName(prefix, name), rest) == FullName(prefix, name + "." + rest)
  {
    assert (prefix + "." + name) + "." + rest == prefix + "." + (name + "." + rest);
  }

  /** A declared path is indexed under its own definition, and its prefixes are its beginnings. */
  lemma PathIndexed(c: SchemaConfig, s: Schema, names: seq<string>, d: RelationshipDefinition)
    requires Built(c, s) && Declares(c.relationships, names, d)
    ensures Path(names) in s.relationIndex && s.relationIndex[Path(names)].definition == d
    ensures s.relationIndex[Path(names)].depth == |names| == |Prefixes(Path(names))|
    ensures forall j :: 0 < j <= |names| ==> Prefixes(Path(names))[j - 1] == Path(names[..j])
  {
    var chain := DeclaredChain(c.relationships, names, d);
    ChainResources(c.relationships, chain, {c.resource}, s.bounds.maxCost);
    forall j | 0 < j <= |names| ensures ChainNames("", chain)[j - 1] == Path(names[..j]) {
      ChainSpells("", chain, j);
    }
    assert names[..|names|] == names;
    ChainIsIndexed(c.relationships, "", chain, {c.resource}, s.bounds.maxCost);
    PrefixesAreChainNames("", chain);
    var again := KeyHasChain(c.relationships, |c.relationships|, "", Path(names));
    DepthCountsPrefixes(Path(names), |Path(names)|);
  }

  lemma KeyDeclared(c: SchemaConfig, s: Schema, key: string) returns (names: seq<string>, d: RelationshipDefinition)
    requires Built(c, s) && key in s.relationIndex
    ensures Declares(c.relationships, names, d) && Path(names) == key
  {
    var chain := KeyHasChain(c.relationships, |c.relationships|, "", key);
    ChainResources(c.relationships, chain, {c.resource}, s.bounds.maxCost);
    ChainDeclares(c.relationships, chain);
    ChainSpells("", chain, |chain|);
    names, d := NamesAlong(chain), chain[|chain| - 1];
    assert names[..|chain|] == names;
  }

  lemma IncludeAgrees(c: SchemaConfig, s: Schema, options: CompileOptions, path: string)
    requires Built(c, s)
    ensures IncludeOk(s, options, path) <==> IncludeOffered(c, options, path)
  {
    BuiltBounds(c, s);
    hide Prefixes, Limit, Path;
    if IncludeOk(s, options, path) {
      var names, d := KeyDeclared(c, s, path);
      PathIndexed(c, s, names, d);
      hide Built;
      forall j | 0 < j <= |names| ensures Allowed(options, CapabilityRelationship, Path(names[..j])) {
        assert Permits(options, CapabilityRelationship, Prefixes(path)[j - 1]);
      }
    }
    if IncludeOffered(c, options, path) {
      var names, d :| Declares(c.relationships, names, d) && path == Path(names)
        && |names| <= Limit(c.bounds.maxIncludeDepth, 4)
        && forall j :: 0 < j <= |names| ==> Allowed(options, CapabilityRelationship, Path(names[..j]));
      PathIndexed(c, s, names, d);
      hide Built;
      forall i | 0 <= i < |Prefixes(path)| ensures Permits(options, CapabilityRelationship, Prefixes(path)[i]) {
        assert Prefixes(path)[(i + 1) - 1] == Path(names[..i + 1]);
      }
    }
  }

  lemma IncludesAgree(c: SchemaConfig, s: Schema, options: CompileOptions, includes: seq<string>)
    requires Built(c, s)
    ensures IncludesOk(s, options, includes) <==> IncludesFit(c, options, includes)
  {
    BuiltBounds(c, s);
    forall p | p in includes ensures IncludeOk(s, options, p) <==> IncludeOffered(c, options, p) {
      IncludeAgrees(c, s, options, p);
    }
    hide Built, Limit, IncludeOk, IncludeOffered;
  }

  /** The edges Compile charges for are the beginnings of the included paths. */
  lemma EdgesAgree(c: SchemaConfig, s: Schema, includes: seq<string>, edges: seq<string>)
    requires Built(c, s) && Distinct(edges) && forall p <- includes :: p in s.relationIndex
    ensures EdgesCover(edges, includes) <==> AreEdges(c, includes, edges)
  {
    hide Prefixes, Path, Distinct, NoRepeats;
    forall e ensures IsEdge(c, includes, e) <==> exists i :: 0 <= i < |includes| && e in Prefixes(includes[i]) {
      EdgeAgrees(c, s, includes, e);
    }
    assert Distinct(edges) == NoRepeats(edges) by { DistinctIsNoRepeats(edges); }
    hide Built, IsEdge;
    if EdgesCover(edges, includes) {
      forall e | IsEdge(c, includes, e) ensures e in edges {
        var i :| 0 <= i < |includes| && e in Prefixes(includes[i]);
        assert includes[i] in includes;
      }
    }
    if AreEdges(c, includes, edges) {
      forall p, q | p in includes && q in Prefixes(p) ensures q in edges {
        var i :| 0 <= i < |includes| && includes[i] == p;
        assert IsEdge(c, includes, q);
      }
      forall e | e in edges ensures exists i :: 0 <= i < |includes| && e in Prefixes(includes[i]) {
        assert IsEdge(c, includes, e);
      }
    }
  }

  lemma DistinctIsNoRepeats(names: seq<string>)
    ensures Distinct(names) == NoRepeats(names)
  {
  }

  lemma EdgeAgrees(c: SchemaConfig, s: Schema, includes: seq<string>, e: string)
    requires Built(c, s) && forall p <- includes :: p in s.relationIndex
    ensures IsEdge(c, includes, e) <==> exists i :: 0 <= i < |includes| && e in Prefixes(includes[i])
  {
    hide Prefixes, Path;
    if IsEdge(c, includes, e) {
      var names, d, j :| EdgeAt(c, includes, e, names, d, j);
      PathIndexed(c, s, names, d);
      var i :| 0 <= i < |includes| && includes[i] == Path(names);
      assert Prefixes(includes[i])[j - 1] == e;
    }
    if i :| 0 <= i < |includes| && e in Prefixes(includes[i]) {
      var names, d := KeyDeclared(c, s, includes[i]);
      PathIndexed(c, s, names, d);
      var k :| 0 <= k < |Prefixes(includes[i])| && Prefixes(includes[i])[k] == e;
      assert Prefixes(Path(names))[(k + 1) - 1] == Path(names[..k + 1]);
      assert EdgeAt(c, includes, e, names, d, k + 1);
    }
  }
}
