/** Mandatory constraints and response fields (compileConstraints, compileFields). */
module FieldPhase {
  import opened Text
  import opened Types
  import opened PlanHeap
  import opened Violations
  import opened Relationships
  import opened Schemas
  import opened Compilation

  // ---------------------------------------------------------------- constraints

  function ConstraintNames(cs: seq<Constraint>): (names: seq<string>)
    ensures |names| == |cs|
  {
    seq(|cs|, i requires 0 <= i < |cs| => cs[i].name)
  }

  function ConstraintStep(schema: Schema, cs: seq<Constraint>, k: nat, t: Trail): Trail
    requires k < |cs|
  {
    var path := Indexed("constraints", k);
    t.ReportIf(!ValidName(cs[k].name) || !ValidType(cs[k].value.kind), CodeInvalidElement, path)
     .ReportIf(cs[k].name in ConstraintNames(cs)[..k], CodeConflict, path)
     .ReportIf(ByteLength(cs[k].value.text) > schema.bounds.maxStringBytes, CodeLimitExceeded, path)
  }

  function ConstraintTrail(schema: Schema, cs: seq<Constraint>, k: nat, t: Trail): Trail
    requires k <= |cs|
  {
    if k == 0 then t else ConstraintStep(schema, cs, k - 1, ConstraintTrail(schema, cs, k - 1, t))
  }

  function ConstraintsRun(schema: Schema, constraints: seq<Constraint>, t: Trail): Trail {
    var kept := Truncated(constraints, schema.bounds.maxValues);
    ConstraintTrail(schema, kept, |kept|,
                    t.ReportIf(|constraints| > schema.bounds.maxValues, CodeLimitExceeded, "constraints"))
  }

  method CheckConstraints(schema: Schema, kept: seq<Constraint>, collector: Collector, ghost authority: Authority)
    requires collector.Valid()
    modifies collector
    ensures collector.Valid()
    ensures TrailOf(collector, authority) == ConstraintTrail(schema, kept, |kept|, old(TrailOf(collector, authority)))
  {
    var seen: set<string> := {};
    var names := ConstraintNames(kept);
    for i := 0 to |kept|
      invariant collector.Valid() && seen == set n <- names[..i]
      invariant TrailOf(collector, authority) == ConstraintTrail(schema, kept, i, old(TrailOf(collector, authority)))
    {
      assert names[..i + 1] == names[..i] + [names[i]];
      CheckConstraint(schema, kept, i, seen, collector, authority);
      seen := seen + {kept[i].name};
    }
  }

  method CheckConstraint(schema: Schema, kept: seq<Constraint>, i: nat, seen: set<string>, collector: Collector,
                         ghost authority: Authority)
    requires collector.Valid() && i < |kept| && seen == set n <- ConstraintNames(kept)[..i]
    modifies collector
    ensures collector.Valid()
    ensures TrailOf(collector, authority) == ConstraintStep(schema, kept, i, old(TrailOf(collector, authority)))
  {
    var constraint, path := kept[i], Indexed("constraints", i);
    if !ValidName(constraint.name) || !ValidType(constraint.value.kind) {
      collector.Add(CodeInvalidElement, path);
    }
    if constraint.name in seen {
      collector.Add(CodeConflict, path);
    }
    if ByteLength(constraint.value.text) > schema.bounds.maxStringBytes {
      collector.Add(CodeLimitExceeded, path);
    }
  }

  method CompileConstraints(schema: Schema, constraints: array<Constraint>, plan: Plan, collector: Collector,
                            ghost authority: Authority)
    requires collector.Valid() && schema.bounds.maxValues >= 0
    modifies plan`constraints, collector
    ensures collector.Valid()
    ensures TrailOf(collector, authority) == ConstraintsRun(schema, constraints[..], old(TrailOf(collector, authority)))
    ensures fresh(plan.constraints) && plan.constraints[..] == Truncated(constraints[..], schema.bounds.maxValues)
  {
    hide ConstraintTrail;
    var kept := constraints.Length;
    if constraints.Length > schema.bounds.maxValues {
      collector.Add(CodeLimitExceeded, "constraints");
      kept := schema.bounds.maxValues;
    }
    assert constraints[..constraints.Length] == constraints[..];
    plan.constraints := CopyPrefix(constraints, kept);
    CheckConstraints(schema, constraints[..kept], collector, authority);
  }

  ghost predicate ConstraintsOk(schema: Schema, cs: seq<Constraint>) {
    && |cs| <= schema.bounds.maxValues
    && Distinct(ConstraintNames(cs))
    && forall c <- cs ::
      ValidName(c.name) && ValidType(c.value.kind) && ByteLength(c.value.text) <= schema.bounds.maxStringBytes
  }

  lemma {:induction false} ConstraintTrailClean(schema: Schema, cs: seq<Constraint>, k: nat, t: Trail)
    requires k <= |cs|
    ensures ConstraintTrail(schema, cs, k, t).violations == [] <==>
      && t.violations == []
      && Distinct(ConstraintNames(cs)[..k])
      && forall i :: 0 <= i < k ==> ValidName(cs[i].name) && ValidType(cs[i].value.kind)
                                    && ByteLength(cs[i].value.text) <= schema.bounds.maxStringBytes
    ensures ConstraintTrail(schema, cs, k, t).calls == t.calls
  {
    if k > 0 {
      ConstraintTrailClean(schema, cs, k - 1, t);
      DistinctNext(ConstraintNames(cs), k - 1);
    }
  }

  /** The constraint phase reports nothing exactly for an admissible server list, and asks nobody. */
  lemma ConstraintsAccepted(schema: Schema, constraints: seq<Constraint>, t: Trail)
    requires schema.bounds.maxValues >= 0
    ensures ConstraintsRun(schema, constraints, t).violations == [] <==>
      t.violations == [] && ConstraintsOk(schema, constraints)
    ensures ConstraintsRun(schema, constraints, t).calls == t.calls
  {
    var kept := Truncated(constraints, schema.bounds.maxValues);
    ConstraintTrailClean(schema, kept, |kept|,
                         t.ReportIf(|constraints| > schema.bounds.maxValues, CodeLimitExceeded, "constraints"));
    assert ConstraintNames(kept)[..|kept|] == ConstraintNames(kept);
  }

  // ---------------------------------------------------------------- fields

  datatype FieldState = FieldState(trail: Trail, response: seq<string>)

  function DefaultFields(schema: Schema, k: nat): seq<string>
    requires k <= |schema.fields|
  {
    if k == 0 then []
    else DefaultFields(schema, k - 1) + if schema.fields[k - 1].selected then [schema.fields[k - 1].name] else []
  }

  function EffectiveFields(schema: Schema, requested: Option<seq<string>>): seq<string> {
    match requested
    case Some(fields) => fields
    case None => DefaultFields(schema, |schema.fields|)
  }

  predicate FieldDeprecated(schema: Schema, name: string) {
    name in schema.fieldIndex && schema.fieldIndex[name] < |schema.fields| &&
    schema.fields[schema.fieldIndex[name]].deprecated
  }

  function FieldStep(schema: Schema, options: CompileOptions, fields: seq<string>, k: nat, st: FieldState): FieldState
    requires k < |fields|
  {
    var path, name := Indexed("fields", k), fields[k];
    if name !in schema.fieldIndex then st.(trail := st.trail.Report(CodeInvalidElement, path))
    else if name in fields[..k] then st.(trail := st.trail.Report(CodeConflict, path))
    else if FieldDeprecated(schema, name) then st.(trail := st.trail.Report(CodeUnsupported, path))
    else
      var asked := st.trail.Ask(options, CapabilityField, name);
      if !Permits(options, CapabilityField, name) then st.(trail := asked.Report(CodeAuthorization, path))
      else FieldState(asked, st.response + [name])
  }

  function FieldRun(schema: Schema, options: CompileOptions, fields: seq<string>, k: nat, t: Trail): FieldState
    requires k <= |fields|
  {
    if k == 0 then FieldState(t, [])
    else FieldStep(schema, options, fields, k - 1, FieldRun(schema, options, fields, k - 1, t))
  }

  /** The required fields among the first k declarations that the response does not already have. */
  function RequiredFields(schema: Schema, response: seq<string>, k: nat): seq<string>
    requires k <= |schema.fields|
  {
    if k == 0 then []
    else
      var before := RequiredFields(schema, response, k - 1);
      var field := schema.fields[k - 1];
      if field.required && field.name !in response && field.name !in before then before + [field.name] else before
  }

  function ExecutionFields(schema: Schema, response: seq<string>): seq<string> {
    RequiredFields(schema, response, |schema.fields|) + response
  }

  function FieldsRun(schema: Schema, options: CompileOptions, requested: Option<seq<string>>, t: Trail): FieldState {
    var fields := EffectiveFields(schema, requested);
    var kept := Truncated(fields, schema.bounds.maxFields);
    FieldRun(schema, options, kept, |kept|,
             t.ReportIf(|fields| > schema.bounds.maxFields, CodeLimitExceeded, "fields"))
  }

  /** A valid schema finds its own fields, with nonnegative costs. */
  lemma FieldLookup(schema: Schema, name: string)
    requires ValidSchema(schema)
    ensures name in schema.fieldIndex ==>
      && schema.fieldIndex[name] < |schema.fields|
      && schema.fields[schema.fieldIndex[name]].name == name
      && 0 <= schema.fields[schema.fieldIndex[name]].cost
    ensures forall i :: 0 <= i < |schema.fields| && schema.fields[i].name == name ==>
              name in schema.fieldIndex && schema.fieldIndex[name] == i
  {
    var names := FieldNames(schema.fields);
    forall i | 0 <= i < |schema.fields| && schema.fields[i].name == name
      ensures name in schema.fieldIndex && schema.fieldIndex[name] == i
    {
      assert names[i] == name;
    }
    if name in schema.fieldIndex {
      assert FieldDeclared(schema.fields[schema.fieldIndex[name]], schema.bounds.maxCost);
    }
  }

  /** The weight of a field, as the cost property sums it. */
  function FieldWeight(schema: Schema): string -> int { name => FieldCost(schema, name) }

  /** A requested list as a value. */
  function Requested<T>(list: Option<array<T>>): Option<seq<T>>
    reads if list.Some? then {list.value} else {}
  {
    if list.Some? then Some(list.value[..]) else None
  }

  /** The requested slice itself, or the default names in a slice of their own. */
  method SelectFields(schema: Schema, requested: Option<array<string>>) returns (fields: array<string>)
    ensures fields[..] == EffectiveFields(schema, Requested(requested))
  {
    if requested.Some? {
      return requested.value;
    }
    fields := new string[0];
    for i := 0 to |schema.fields|
      invariant fields[..] == DefaultFields(schema, i)
    {
      if schema.fields[i].selected {
        fields := Append(fields, schema.fields[i].name);
      }
    }
  }

  method AdmitFields(schema: Schema, fields: seq<string>, authority: Authority, plan: Plan, collector: Collector)
    requires ValidSchema(schema) && collector.Valid() && plan.CostTracks(schema.bounds.maxCost)
    requires plan.responseFields[..] == []
    modifies plan`responseFields, plan`cost, plan`costExceeded, plan`charged, collector, authority`calls
    ensures collector.Valid() && plan.CostTracks(schema.bounds.maxCost)
    ensures plan.responseFields == old(plan.responseFields) || fresh(plan.responseFields)
    ensures FieldState(TrailOf(collector, authority), plan.responseFields[..])
         == FieldRun(schema, authority.options, fields, |fields|, old(TrailOf(collector, authority)))
    ensures plan.charged == old(plan.charged) + Sum(FieldWeight(schema), plan.responseFields[..])
  {
    hide ValidSchema, FieldStep;
    var seen: set<string> := {};
    for i := 0 to |fields|
      invariant collector.Valid() && plan.CostTracks(schema.bounds.maxCost)
      invariant plan.responseFields == old(plan.responseFields) || fresh(plan.responseFields)
      invariant seen == set n | n in fields[..i] && n in schema.fieldIndex
      invariant FieldState(TrailOf(collector, authority), plan.responseFields[..])
             == FieldRun(schema, authority.options, fields, i, old(TrailOf(collector, authority)))
      invariant plan.charged == old(plan.charged) + Sum(FieldWeight(schema), plan.responseFields[..])
    {
      assert fields[..i + 1] == fields[..i] + [fields[i]];
      AdmitField(schema, fields, i, seen, authority, plan, collector);
      if fields[i] in schema.fieldIndex {
        seen := seen + {fields[i]};
      }
    }
  }

  /** The body of the loop; the name joins the duplicate set whenever it is declared. */
  method AdmitField(schema: Schema, fields: seq<string>, i: nat, seen: set<string>, authority: Authority, plan: Plan,
                    collector: Collector)
    requires ValidSchema(schema) && collector.Valid() && plan.CostTracks(schema.bounds.maxCost) && i < |fields|
    requires seen == set n | n in fields[..i] && n in schema.fieldIndex
    modifies plan`responseFields, plan`cost, plan`costExceeded, plan`charged, collector, authority`calls
    ensures collector.Valid() && plan.CostTracks(schema.bounds.maxCost)
    ensures plan.responseFields == old(plan.responseFields) || fresh(plan.responseFields)
    ensures FieldState(TrailOf(collector, authority), plan.responseFields[..])
         == FieldStep(schema, authority.options, fields, i,
                      FieldState(old(TrailOf(collector, authority)), old(plan.responseFields[..])))
    ensures plan.charged - Sum(FieldWeight(schema), plan.responseFields[..])
         == old(plan.charged - Sum(FieldWeight(schema), plan.responseFields[..]))
  {
    var path, name := Indexed("fields", i), fields[i];
    FieldLookup(schema, name);
    hide ValidSchema;
    if name !in schema.fieldIndex {
      collector.Add(CodeInvalidElement, path);
      return;
    }
    if name in seen {
      collector.Add(CodeConflict, path);
      return;
    }
    var definition := schema.fields[schema.fieldIndex[name]];
    if definition.deprecated {
      collector.Add(CodeUnsupported, path);
      return;
    }
    var allowed := authority.Authorized(CapabilityField, name);
    if !allowed {
      collector.Add(CodeAuthorization, path);
      return;
    }
    SumSnoc(FieldWeight(schema), plan.responseFields[..], name);
    plan.responseFields := Append(plan.responseFields, name);
    plan.AddPlanCost(schema.bounds.maxCost, definition.cost, definition.cost as int);
  }

  method AddRequiredFields(schema: Schema, plan: Plan)
    requires ValidSchema(schema) && plan.CostTracks(schema.bounds.maxCost) && plan.executionFields[..] == []
    modifies plan`executionFields, plan`cost, plan`costExceeded, plan`charged
    ensures plan.CostTracks(schema.bounds.maxCost)
    ensures fresh(plan.executionFields)
    ensures plan.executionFields[..] == ExecutionFields(schema, plan.responseFields[..])
    ensures plan.charged == old(plan.charged)
              + Sum(FieldWeight(schema), RequiredFields(schema, plan.responseFields[..], |schema.fields|))
  {
    hide ValidSchema;
    var response := plan.responseFields[..];
    var executionSeen := set n <- response;
    for i := 0 to |schema.fields|
      invariant plan.CostTracks(schema.bounds.maxCost)
      invariant plan.executionFields[..] == RequiredFields(schema, response, i)
      invariant executionSeen == (set n <- response) + set n <- plan.executionFields[..]
      invariant plan.charged == old(plan.charged) + Sum(FieldWeight(schema), plan.executionFields[..])
    {
      var field := schema.fields[i];
      FieldLookup(schema, field.name);
      if field.required {
        if field.name !in executionSeen {
          SumSnoc(FieldWeight(schema), plan.executionFields[..], field.name);
          plan.executionFields := Append(plan.executionFields, field.name);
          plan.AddPlanCost(schema.bounds.maxCost, field.cost, field.cost as int);
          executionSeen := executionSeen + {field.name};
        }
      }
    }
    plan.executionFields := AppendAll(plan.executionFields, plan.responseFields);
  }

  /** Response fields are asked for one by one; the fields the server itself requires are not. Every
      execution field is charged exactly once. */
  method CompileFields(schema: Schema, requested: Option<array<string>>, authority: Authority, plan: Plan,
                       collector: Collector)
    requires ValidSchema(schema) && collector.Valid() && plan.CostTracks(schema.bounds.maxCost)
    requires plan.responseFields[..] == [] && plan.executionFields[..] == []
    modifies plan`responseFields, plan`executionFields, plan`cost, plan`costExceeded, plan`charged, collector,
             authority`calls
    ensures collector.Valid() && plan.CostTracks(schema.bounds.maxCost)
    ensures plan.responseFields == old(plan.responseFields) || fresh(plan.responseFields)
    ensures fresh(plan.executionFields)
    ensures FieldState(TrailOf(collector, authority), plan.responseFields[..])
         == FieldsRun(schema, authority.options, Requested(requested), old(TrailOf(collector, authority)))
    ensures plan.executionFields[..] == ExecutionFields(schema, plan.responseFields[..])
    ensures plan.charged == old(plan.charged) + Sum(FieldWeight(schema), plan.executionFields[..])
  {
    hide FieldRun;
    assert schema.bounds.maxFields > 0 by { assert BoundValues(schema.bounds)[1] > 0; }
    hide ValidSchema;
    var selected := SelectFields(schema, requested);
    var fields := selected[..];
    if |fields| > schema.bounds.maxFields {
      collector.Add(CodeLimitExceeded, "fields");
      fields := fields[..schema.bounds.maxFields];
    }
    AdmitFields(schema, fields, authority, plan, collector);
    AddRequiredFields(schema, plan);
    hide ExecutionFields;
    ExecutionSum(schema, plan.responseFields[..]);
  }

  lemma ExecutionSum(schema: Schema, response: seq<string>)
    ensures Sum(FieldWeight(schema), ExecutionFields(schema, response))
         == Sum(FieldWeight(schema), RequiredFields(schema, response, |schema.fields|))
           + Sum(FieldWeight(schema), response)
  {
    SumConcat(FieldWeight(schema), RequiredFields(schema, response, |schema.fields|), response);
  }

  ghost predicate FieldsOk(schema: Schema, options: CompileOptions, fields: seq<string>) {
    && |fields| <= schema.bounds.maxFields
    && Distinct(fields)
    && forall f <- fields ::
      f in schema.fieldIndex && !FieldDeprecated(schema, f) && Permits(options, CapabilityField, f)
  }

  /** The questions asked about a list of names, in order. */
  function AskAll(options: CompileOptions, kind: CapabilityKind, names: seq<string>, k: nat): seq<Callback>
    requires k <= |names|
  {
    if k == 0 then [] else AskAll(options, kind, names, k - 1) + Asking(options, kind, names[k - 1])
  }

  lemma {:induction false} FieldRunClean(schema: Schema, options: CompileOptions, fields: seq<string>, k: nat, t: Trail)
    requires k <= |fields|
    ensures var st := FieldRun(schema, options, fields, k, t);
      st.trail.violations == [] <==>
        && t.violations == []
        && Distinct(fields[..k])
        && forall i :: 0 <= i < k ==>
             fields[i] in schema.fieldIndex && !FieldDeprecated(schema, fields[i]) && Permits(options, CapabilityField,
                 fields[i])
    ensures var st := FieldRun(schema, options, fields, k, t);
      st.trail.violations == [] ==>
        st.response == fields[..k] && st.trail.calls == t.calls + AskAll(options, CapabilityField, fields, k)
  {
    if k > 0 {
      FieldRunClean(schema, options, fields, k - 1, t);
      DistinctNext(fields, k - 1);
      assert fields[..k] == fields[..k - 1] + [fields[k - 1]];
    }
  }

  /** The field phase reports nothing exactly when the selection is admissible; the response is then
      the selection itself, and each selected field was asked about once. */
  lemma FieldsAccepted(schema: Schema, options: CompileOptions, requested: Option<seq<string>>, t: Trail)
    requires schema.bounds.maxFields >= 0
    ensures var fields := EffectiveFields(schema, requested); var st := FieldsRun(schema, options, requested, t);
      && (st.trail.violations == [] <==> t.violations == [] && FieldsOk(schema, options, fields))
      && (st.trail.violations == [] ==>
            st.response == fields && st.trail.calls == t.calls + AskAll(options, CapabilityField, fields, |fields|))
  {
    var fields := EffectiveFields(schema, requested);
    var kept := Truncated(fields, schema.bounds.maxFields);
    FieldRunClean(schema, options, kept, |kept|,
                  t.ReportIf(|fields| > schema.bounds.maxFields, CodeLimitExceeded, "fields"));
    assert kept[..|kept|] == kept;
  }
}
