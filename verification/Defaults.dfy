/** What a request means where it says nothing: it compiles exactly as the request that spells the default out,
    with the same violations, the same calls and the same plan. */
module Defaults {
  import opened Text
  import opened Types
  import opened Schemas
  import opened FieldPhase
  import opened IncludePhase
  import opened SortPhase
  import opened Compile
  import opened Declarations
  import opened DeclarationProofs

  /** No sorts: the declared default order. */
  lemma AbsentSorts(s: Schema, request: Request, options: CompileOptions)
    ensures CompileRun(s, request.(sorts := None), options)
         == CompileRun(s, request.(sorts := Some(s.defaultSort)), options)
  {
    hide FieldsRun, ConstraintsRun, IncludesRun, SortRun, CursorRun, ExecutionFields, TotalCost, PageRun;
  }

  lemma DefaultsOnly(s: Schema, fields: seq<string>)
    requires Lists(fields, s.fields, (d: FieldDefinition) => d.selected)
    ensures fields == DefaultFields(s, |s.fields|)
  {
    var at := DefaultsListed(s, |s.fields|);
    assert ListsAt(DefaultFields(s, |s.fields|), s.fields, (d: FieldDefinition) => d.selected, at);
    ListsUnique(fields, DefaultFields(s, |s.fields|), s.fields, (d: FieldDefinition) => d.selected);
  }

  /** No fields: the default ones, in declaration order. */
  lemma AbsentFields(s: Schema, request: Request, options: CompileOptions, fields: seq<string>)
    requires Lists(fields, s.fields, (d: FieldDefinition) => d.selected)
    ensures CompileRun(s, request.(fields := None), options) == CompileRun(s, request.(fields := Some(fields)), options)
  {
    DefaultsOnly(s, fields);
    hide Lists, DefaultFields, FieldRun, ConstraintsRun, IncludesRun, SortRun, CursorRun, ExecutionFields, TotalCost,
      PageRun;
  }

  /** No includes: none. */
  lemma AbsentIncludes(s: Schema, request: Request, options: CompileOptions)
    requires s.bounds.maxIncludes >= 0
    ensures CompileRun(s, request.(includes := None), options) == CompileRun(s, request.(includes := Some([])), options)
  {
    hide FieldsRun, ConstraintsRun, SortRun, CursorRun, ExecutionFields, TotalCost, PageRun;
  }

  /** No mode: no page. Size zero on a cursor or offset page: the default size. */
  lemma AbsentPage(s: Schema, request: Request, options: CompileOptions)
    ensures request.page.mode == PageUnset ==>
      CompileRun(s, request, options) == CompileRun(s, request.(page := request.page.(mode := PageNone)), options)
    ensures request.page.mode in {PageCursor, PageOffset} && request.page.size == 0 ==>
      CompileRun(s, request, options)
        == CompileRun(s, request.(page := request.page.(size := s.pagination.defaultPageSize)), options)
  {
    hide FieldsRun, ConstraintsRun, IncludesRun, SortsRun, CursorRun, ExecutionFields, TotalCost, TieRun,
      PageBoundsTrail, PageModeTrail;
  }
}
