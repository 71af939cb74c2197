/** Violation paths: the compiler prints the way to a filter node, the validation adapter parses it. */
module ViolationPath {
  import opened Text
  import opened Types
  import Schemas
  import Compilation
  import FilterSpec
  import opened Declarations

  datatype Segment = Field(name: string) | Index(index: int) | Key(text: string)

  // ---------------------------------------------------------------- strconv.Atoi

  predicate AllDigits(s: string) { forall i :: 0 <= i < |s| ==> IsDigit(s[i]) }

  /** An optional sign, then digits, within the range of int. */
  function Atoi(s: string): Option<int> {
    var negative := s != "" && s[0] == '-';
    var digits := if s != "" && (s[0] == '-' || s[0] == '+') then s[1..] else s;
    if digits == "" || !AllDigits(digits) then None
    else
      var value: int := if negative then -(NumeralValue(digits) as int) else NumeralValue(digits);
      if -MAX_INT - 1 <= value <= MAX_INT then Some(value) else None
  }

  lemma AtoiDecimal(n: nat)
    ensures Atoi(Decimal(n)) == if n <= MAX_INT then Some(n) else None
  {
    DecimalRoundTrip(n);
    assert IsDigit(Decimal(n)[0]);
  }

  // ---------------------------------------------------------------- the parser

  predicate Plain(c: char) { c != '.' && c != '[' }

  predicate Inside(c: char) { c != ']' }

  function Bracketed(item: string): Segment {
    if Atoi(item).Some? then Index(Atoi(item).value) else Key(item)
  }

  /** What one separator ends: a name before it, and the item of a bracket; and the text after it. */
  function Cut(value: string): (r: (seq<Segment>, string))
    requires value != ""
    ensures |r.1| < |value|
  {
    var fieldEnd := Run(value, Plain);
    if fieldEnd == |value| then ([Field(value)], "")
    else
      var field := if fieldEnd > 0 then [Field(value[..fieldEnd])] else [];
      var remainder := value[fieldEnd..][1..];
      if value[fieldEnd..][0] == '.' then (field, remainder)
      else
        var close := Run(remainder, Inside);
        (field + [Bracketed(remainder[..close])], if close < |remainder| then remainder[close + 1..] else "")
  }

  /** What parsing a value appends to a path. It ends on every string. */
  function Appended(value: string): seq<Segment>
    decreases |value|
  {
    if value == "" then [] else Cut(value).0 + Appended(Cut(value).1)
  }

  method ParsePath(value: string) returns (path: seq<Segment>)
    ensures path == Appended(value)
  {
    path := AppendPath([], value);
  }

  method AppendPath(path: seq<Segment>, value: string) returns (result: seq<Segment>)
    ensures result == path + Appended(value)
    decreases |value|
  {
    EmptyAppendsNothing();
    if value == "" {
      assert path + [] == path;
      return path;
    }
    OneCut(path, value);
    hide Appended, Run, Atoi;
    var fieldEnd := Run(value, Plain);
    if fieldEnd == |value| {
      result := path + [Field(value)];
      assert result + [] == result;
      return;
    }
    ghost var field := if fieldEnd > 0 then [Field(value[..fieldEnd])] else [];
    result := path;
    var rest := value[fieldEnd..];
    if fieldEnd > 0 {
      result := result + [Field(value[..fieldEnd])];
    }
    assert result == path + field;
    if rest[0] == '.' {
      assert Cut(value) == (field, rest[1..]);
      hide Cut;
      result := AppendPath(result, rest[1..]);
      return;
    }
    var remainder := rest[1..];
    var close := Run(remainder, Inside);
    var item := remainder[..close];
    assert Cut(value) == (field + [Bracketed(item)], if close < |remainder| then remainder[close + 1..] else "");
    hide Cut;
    ConcatAssociates(path, field, [Bracketed(item)]);
    var index := Atoi(item);
    result := result + [if index.Some? then Index(index.value) else Key(item)];
    if close < |remainder| {
      result := AppendPath(result, remainder[close + 1..]);
    } else {
      assert result + [] == result;
    }
  }

  lemma OneCut(path: seq<Segment>, value: string)
    requires value != ""
    ensures path + Appended(value) == path + Cut(value).0 + Appended(Cut(value).1)
  {
    hide Cut;
    ConcatAssociates(path, Cut(value).0, Appended(Cut(value).1));
  }

  lemma EmptyAppendsNothing()
    ensures Appended("") == []
  {
  }

  // ---------------------------------------------------------------- paths of filter nodes

  /** The path of the node reached by taking these children, as the compiler prints it. */
  function NodePath(steps: seq<nat>): string {
    if steps == [] then "filter" else Indexed(NodePath(steps[..|steps| - 1]) + ".children", steps[|steps| - 1])
  }

  /** The way to a node, as segments. */
  function NodeSegments(steps: seq<nat>): seq<Segment> {
    if steps == [] then [Field("filter")]
    else NodeSegments(steps[..|steps| - 1]) + [Field("children"), StepSegment(steps[|steps| - 1])]
  }

  /** A child index beyond the range of int stays text. */
  function StepSegment(step: nat): Segment {
    if step <= MAX_INT then Index(step) else Key(Decimal(step))
  }

  function StepText(step: nat): string { ".children[" + Decimal(step) + "]" }

  /** The text that follows "filter". */
  function Suffix(steps: seq<nat>): string {
    if steps == [] then "" else StepText(steps[0]) + Suffix(steps[1..])
  }

  function SuffixSegments(steps: seq<nat>): seq<Segment> {
    if steps == [] then [] else [Field("children"), StepSegment(steps[0])] + SuffixSegments(steps[1..])
  }

  lemma {:induction false} SuffixSnoc(steps: seq<nat>, last: nat)
    ensures Suffix(steps + [last]) == Suffix(steps) + StepText(last)
    ensures SuffixSegments(steps + [last]) == SuffixSegments(steps) + [Field("children"), StepSegment(last)]
  {
    hide StepText, StepSegment;
    if steps == [] {
      assert (steps + [last])[1..] == [];
      assert StepText(last) + "" == "" + StepText(last);
    } else {
      assert (steps + [last])[1..] == steps[1..] + [last] && (steps + [last])[0] == steps[0];
      SuffixSnoc(steps[1..], last);
      ConcatAssociates(StepText(steps[0]), Suffix(steps[1..]), StepText(last));
      ConcatAssociates([Field("children"), StepSegment(steps[0])], SuffixSegments(steps[1..]),
                       [Field("children"), StepSegment(last)]);
    }
  }

  lemma {:induction false} PathIsSuffix(steps: seq<nat>)
    ensures NodePath(steps) == "filter" + Suffix(steps)
    ensures NodeSegments(steps) == [Field("filter")] + SuffixSegments(steps)
  {
    if steps != [] {
      var front, last := steps[..|steps| - 1], steps[|steps| - 1];
      assert steps == front + [last];
      PathIsSuffix(front);
      SuffixSnoc(front, last);
      hide Suffix;
      assert NodePath(steps) == NodePath(front) + StepText(last);
      ConcatAssociates("filter", Suffix(front), StepText(last));
    }
  }

  lemma NameCut(name: string, c: char, rest: string)
    requires (forall i :: 0 <= i < |name| ==> Plain(name[i])) && !Plain(c)
    ensures Run(name + [c] + rest, Plain) == |name|
    ensures (name + [c] + rest)[..|name|] == name
    ensures (name + [c] + rest)[|name|..] == [c] + rest
    ensures ([c] + rest)[1..] == rest
  {
    RunStops(name + [c] + rest, Plain, |name|);
  }

  lemma DotCut(name: string, rest: string)
    requires forall i :: 0 <= i < |name| ==> Plain(name[i])
    ensures Cut(name + "." + rest) == (if name == "" then [] else [Field(name)], rest)
  {
    NameCut(name, '.', rest);
    hide Run;
  }

  lemma ItemCut(item: string, rest: string)
    requires ']' !in item
    ensures var remainder := item + "]" + rest;
      Run(remainder, Inside) == |item| && remainder[..|item|] == item && remainder[|item| + 1..] == rest
  {
    RunStops(item + "]" + rest, Inside, |item|);
  }

  lemma BracketCut(name: string, item: string, rest: string)
    requires name != "" && (forall i :: 0 <= i < |name| ==> Plain(name[i])) && ']' !in item
    ensures Cut(name + "[" + (item + "]" + rest)) == ([Field(name), Bracketed(item)], rest)
  {
    NameCut(name, '[', item + "]" + rest);
    ItemCut(item, rest);
    assert [Field(name)] + [Bracketed(item)] == [Field(name), Bracketed(item)];
    hide Run, Atoi, Bracketed;
  }

  lemma {:induction false} IndexCut(name: string, step: nat, rest: string)
    requires name != "" && forall i :: 0 <= i < |name| ==> Plain(name[i])
    ensures Cut(name + "[" + (Decimal(step) + "]" + rest)) == ([Field(name), StepSegment(step)], rest)
  {
    AtoiDecimal(step);
    assert ']' !in Decimal(step);
    hide Decimal, Atoi, Cut;
    BracketCut(name, Decimal(step), rest);
  }

  lemma StepParses(step: nat, rest: string)
    ensures Appended(StepText(step) + rest) == [Field("children"), StepSegment(step)] + Appended(rest)
  {
    var value := StepText(step) + rest;
    var named := "children" + "[" + (Decimal(step) + "]" + rest);
    assert value == "" + "." + named;
    DotCut("", named);
    IndexCut("children", step, rest);
    hide Cut, Decimal;
  }

  lemma {:induction false} SuffixParses(steps: seq<nat>)
    ensures Appended(Suffix(steps)) == SuffixSegments(steps)
  {
    if steps != [] {
      SuffixParses(steps[1..]);
      hide Appended;
      StepParses(steps[0], Suffix(steps[1..]));
    }
  }

  lemma DotAppends(name: string, rest: string)
    requires forall i :: 0 <= i < |name| ==> Plain(name[i])
    ensures Appended(name + "." + rest) == (if name == "" then [] else [Field(name)]) + Appended(rest)
  {
    DotCut(name, rest);
    hide Cut;
  }

  lemma NameAppends(name: string)
    requires name != "" && forall i :: 0 <= i < |name| ==> Plain(name[i])
    ensures Appended(name) == [Field(name)]
  {
    RunStops(name, Plain, |name|);
    assert Appended("") == [];
    hide Run;
  }

  lemma NamedSuffix(name: string, suffix: string)
    requires name != "" && (forall i :: 0 <= i < |name| ==> Plain(name[i])) && (suffix == "" || suffix[0] == '.')
    ensures Appended(name + suffix) == [Field(name)] + Appended(suffix)
  {
    EmptyAppendsNothing();
    hide Appended;
    if suffix == "" {
      NameAppends(name);
      assert name + "" == name;
    } else {
      var rest := suffix[1..];
      assert suffix == "" + "." + rest && name + suffix == name + "." + rest;
      DotAppends("", rest);
      DotAppends(name, rest);
      assert [] + Appended(rest) == Appended(rest);
    }
  }

  /** Parsing the printed path of a node gives exactly the way to the node. */
  lemma {:induction false} PathParses(steps: seq<nat>)
    ensures Appended(NodePath(steps)) == NodeSegments(steps)
  {
    PathIsSuffix(steps);
    SuffixParses(steps);
    SuffixStart(steps);
    hide Suffix, Appended, NodePath;
    NamedSuffix("filter", Suffix(steps));
  }

  lemma SuffixStart(steps: seq<nat>)
    ensures if steps == [] then Suffix(steps) == "" else Suffix(steps) != "" && Suffix(steps)[0] == '.'
  {
  }

  /** The child index a segment stands for, if it is one. */
  function StepOf(segment: Segment): seq<nat> {
    match segment
    case Field(_) => []
    case Index(index) => if index >= 0 then [index] else []
    case Key(text) => if AllDigits(text) then [NumeralValue(text)] else []
  }

  function StepsOf(segments: seq<Segment>): seq<nat> {
    if segments == [] then [] else StepOf(segments[0]) + StepsOf(segments[1..])
  }

  lemma StepReads(step: nat)
    ensures StepOf(StepSegment(step)) == [step]
  {
    DecimalRoundTrip(step);
  }

  lemma {:induction false} SuffixSteps(steps: seq<nat>)
    ensures StepsOf(SuffixSegments(steps)) == steps
  {
    if steps != [] {
      var step, rest := StepSegment(steps[0]), SuffixSegments(steps[1..]);
      StepReads(steps[0]);
      SuffixSteps(steps[1..]);
      hide StepSegment, StepOf;
      var all := [Field("children"), step] + rest;
      assert all[1..] == [step] + rest && ([step] + rest)[1..] == rest;
      assert SuffixSegments(steps) == all;
      FieldIsNoStep("children");
    }
  }

  lemma FieldIsNoStep(name: string)
    ensures StepOf(Field(name)) == []
  {
  }

  /** The round trip: node, printed path, parsed path, node. */
  lemma {:induction false} StepsComeBack(steps: seq<nat>)
    ensures StepsOf(Appended(NodePath(steps))) == steps
  {
    PathParses(steps);
    PathIsSuffix(steps);
    SuffixSteps(steps);
    FieldIsNoStep("filter");
    var segments := [Field("filter")] + SuffixSegments(steps);
    assert segments[1..] == SuffixSegments(steps);
  }

  /** Distinct nodes have distinct paths. */
  lemma PathsAreDistinct(a: seq<nat>, b: seq<nat>)
    ensures NodePath(a) == NodePath(b) <==> a == b
  {
    StepsComeBack(a);
    StepsComeBack(b);
  }

  // ---------------------------------------------------------------- what the filter walk reports

  /** One step further down. */
  lemma {:induction false} NodeOfNext(root: FilterExpr, steps: seq<nat>, node: FilterExpr, i: nat)
    requires NodeOf(root, steps) == Some(node) && i < |node.children|
    ensures NodeOf(root, steps + [i]) == Some(node.children[i])
    decreases |steps|
  {
    if steps == [] {
      assert (steps + [i])[1..] == [];
    } else {
      NodeOfNext(root.children[steps[0]], steps[1..], node, i);
      assert (steps + [i])[1..] == steps[1..] + [i];
    }
  }

  /** The violation is reported at a node of the tree. */
  ghost predicate ReportedAt(root: FilterExpr, v: Violation) {
    exists steps :: NodeOf(root, steps).Some? && v.path == NodePath(steps)
  }

  ghost predicate AllReportedAt(root: FilterExpr, vs: seq<Violation>) {
    forall v <- vs :: ReportedAt(root, v)
  }

  lemma ReportHere(root: FilterExpr, steps: seq<nat>, t: Compilation.Trail, code: ErrorCode)
    requires NodeOf(root, steps).Some? && AllReportedAt(root, t.violations)
    ensures AllReportedAt(root, t.Report(code, NodePath(steps)).violations)
  {
    assert ReportedAt(root, Violation(code, NodePath(steps)));
  }

  lemma {:induction false} ValuesReport(root: FilterExpr, steps: seq<nat>, schema: Schemas.Schema,
                                        d: Schemas.FilterDefinition, values: seq<Value>, k: nat, t: Compilation.Trail)
    requires NodeOf(root, steps).Some? && AllReportedAt(root, t.violations) && k <= |values|
    ensures AllReportedAt(root, FilterSpec.ValueRun(schema, d, values, k, NodePath(steps), t).violations)
  {
    if k > 0 {
      ValuesReport(root, steps, schema, d, values, k - 1, t);
      var path := NodePath(steps);
      hide AllReportedAt, NodePath, NodeOf;
      forall u: Compilation.Trail, code | AllReportedAt(root, u.violations)
        ensures AllReportedAt(root, u.Report(code, path).violations) {
        ReportHere(root, steps, u, code);
      }
    }
  }

  lemma LeafReports(root: FilterExpr, steps: seq<nat>, schema: Schemas.Schema, options: CompileOptions,
                    node: FilterExpr, st: FilterSpec.WalkState)
    requires NodeOf(root, steps) == Some(node) && node.leaf.Some? && AllReportedAt(root, st.trail.violations)
    ensures AllReportedAt(root, FilterSpec.WalkLeaf(schema, options, node, NodePath(steps), st).st.trail.violations)
  {
    var path := NodePath(steps);
    hide AllReportedAt, NodePath, NodeOf, Permits;
    forall u: Compilation.Trail, code | AllReportedAt(root, u.violations)
      ensures AllReportedAt(root, u.Report(code, path).violations) {
      ReportHere(root, steps, u, code);
    }
    forall d, values, u: Compilation.Trail | AllReportedAt(root, u.violations)
      ensures AllReportedAt(root, FilterSpec.ValueRun(schema, d, values, |values|, path, u).violations)
    {
      ValuesReport(root, steps, schema, d, values, |values|, u);
    }
  }

  /** Every violation of the filter walk carries the printed path of a node of the request's tree. */
  lemma {:induction false} WalkReports(root: FilterExpr, steps: seq<nat>, schema: Schemas.Schema,
                                       options: CompileOptions, node: FilterExpr, depth: int, st: FilterSpec.WalkState)
    requires NodeOf(root, steps) == Some(node) && AllReportedAt(root, st.trail.violations)
    ensures AllReportedAt(root,
                          FilterSpec.WalkNode(schema, options, node, NodePath(steps), depth, st).st.trail.violations)
    decreases node, |node.children| + 1
  {
    var path := NodePath(steps);
    hide AllReportedAt, NodePath;
    var visited := st.(nodes := st.nodes + 1);
    forall u: Compilation.Trail, code | AllReportedAt(root, u.violations)
      ensures AllReportedAt(root, u.Report(code, path).violations) {
      ReportHere(root, steps, u, code);
    }
    if node.leaf.Some? {
      LeafReports(root, steps, schema, options, node, visited);
      hide FilterSpec.WalkLeaf;
    } else {
      var t := visited.trail
               .ReportIf(node.logic !in schema.allowedLogic, CodeUnsupported, path)
               .ReportIf(node.logic == LogicNot && |node.children| != 1, CodeConflict, path);
      ChildrenReport(root, steps, schema, options, node, 0, depth, visited.(trail := t), []);
    }
  }

  lemma {:induction false} ChildrenReport(root: FilterExpr, steps: seq<nat>, schema: Schemas.Schema,
                                          options: CompileOptions, node: FilterExpr, i: nat, depth: int,
                                            st: FilterSpec.WalkState, compiled: seq<FilterExpr>)
    requires NodeOf(root, steps) == Some(node) && AllReportedAt(root, st.trail.violations) && i <= |node.children|
    ensures AllReportedAt(root,
        FilterSpec.WalkChildren(schema, options, node, i, NodePath(steps), depth, st, compiled).st.trail.violations)
    decreases node, |node.children| - i
  {
    if i < |node.children| {
      if st.nodes >= schema.bounds.maxFilterNodes {
        ReportHere(root, steps, st.trail, CodeLimitExceeded);
      } else {
        assert (steps + [i])[..|steps|] == steps;
        NodeOfNext(root, steps, node, i);
        assert NodePath(steps + [i]) == Indexed(NodePath(steps) + ".children", i);
        hide AllReportedAt, NodePath, FilterSpec.WalkNode;
        WalkReports(root, steps + [i], schema, options, node.children[i], depth + 1, st);
        var child := FilterSpec.WalkNode(schema, options, node.children[i], NodePath(steps + [i]), depth + 1, st);
        ChildrenReport(root, steps, schema, options, node, i + 1, depth, child.st,
                       if child.filter.Some? then compiled + [child.filter.value] else compiled);
      }
    }
  }

  /** Each violation of a filter parses back to the steps of the one node it is about. */
  lemma FilterViolationsParse(schema: Schemas.Schema, options: CompileOptions, root: FilterExpr, calls: seq<Callback>,
                              v: Violation)
    requires v in FilterSpec.FilterRun(schema, options, Some(root), Compilation.Trail([], calls)).0.violations
    ensures exists steps ::
      && NodeOf(root, steps).Some?
      && Appended(v.path) == NodeSegments(steps)
      && forall other :: NodePath(other) == v.path ==> other == steps
  {
    WalkReports(root, [], schema, options, root, 1, FilterSpec.WalkState(Compilation.Trail([], calls), 0, 0, {}));
    assert NodePath([]) == "filter";
    assert ReportedAt(root, v);
    var steps :| NodeOf(root, steps).Some? && v.path == NodePath(steps);
    PathParses(steps);
    forall other | NodePath(other) == v.path ensures other == steps {
      PathsAreDistinct(other, steps);
    }
  }

  // ---------------------------------------------------------------- the report

  datatype ReportCode = QueryCode(code: ErrorCode) | QueryError

  datatype Entry = Entry(path: seq<Segment>, code: ReportCode)

  /** The error handed over: none, the compiler's violations, or anything else. */
  datatype Failure = NoFailure | QueryFailure(items: seq<Violation>) | OtherFailure

  /** One entry per violation, in order, under its parsed path; any other error is one entry at the root. */
  method Report(err: Failure) returns (report: seq<Entry>)
    ensures err.NoFailure? ==> report == []
    ensures err.OtherFailure? ==> report == [Entry([], QueryError)]
    ensures err.QueryFailure? ==>
      && |report| == |err.items|
      && forall i :: 0 <= i < |report| ==> report[i] == Entry(Appended(err.items[i].path), QueryCode(err.items[i].code))
  {
    report := [];
    if err.NoFailure? {
      return;
    }
    if !err.QueryFailure? {
      return [Entry([], QueryError)];
    }
    for index := 0 to |err.items|
      invariant |report| == index
      invariant forall i ::
        0 <= i < index ==> report[i] == Entry(Appended(err.items[i].path), QueryCode(err.items[i].code))
    {
      hide Appended;
      var path := ParsePath(err.items[index].path);
      report := report + [Entry(path, QueryCode(err.items[index].code))];
    }
  }
}
