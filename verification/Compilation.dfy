/** What one Compile call threads through its phases: the violations and application calls so far,
    and the plan under construction with its bounded cost. */
module Compilation {
  import opened Types
  import opened PlanHeap
  import opened Violations
  import opened Schemas

  /** Everything reported and every application call made, in order. */
  datatype Trail = Trail(violations: seq<Violation>, calls: seq<Callback>) {
    function Report(code: ErrorCode, path: string): Trail {
      Trail(violations + [Violation(code, path)], calls)
    }

    function ReportIf(condition: bool, code: ErrorCode, path: string): Trail {
      if condition then Report(code, path) else this
    }

    function Ask(options: CompileOptions, kind: CapabilityKind, name: string): Trail {
      Trail(violations, calls + Asking(options, kind, name))
    }
  }

  ghost function TrailOf(collector: Collector, authority: Authority): Trail
    reads collector, authority
  {
    Trail(collector.all, authority.calls)
  }

  function Truncated<T>(s: seq<T>, limit: int): (r: seq<T>)
    ensures |r| <= |s|
  {
    if 0 <= limit < |s| then s[..limit] else s
  }

  // ---------------------------------------------------------------- cost

  function FieldCost(schema: Schema, name: string): int {
    if name in schema.fieldIndex && schema.fieldIndex[name] < |schema.fields|
    then schema.fields[schema.fieldIndex[name]].cost as int else 0
  }

  function EdgeCost(schema: Schema, edge: string): int {
    if edge in schema.relationIndex then schema.relationIndex[edge].definition.cost as int else 0
  }

  function SortCost(schema: Schema, name: string): int {
    if name in schema.sortIndex && schema.sortIndex[name] < |schema.sorts|
    then schema.sorts[schema.sortIndex[name]].cost as int else 0
  }

  function LeafCost(schema: Schema, name: string): int {
    if name in schema.filterIndex && schema.filterIndex[name] < |schema.filters|
    then schema.filters[schema.filterIndex[name]].cost as int else 0
  }

  /** The sum of a weight over the first k names. */
  function Total(weight: string -> int, names: seq<string>, k: nat): int
    requires k <= |names|
  {
    if k == 0 then 0 else Total(weight, names, k - 1) + weight(names[k - 1])
  }

  function Sum(weight: string -> int, names: seq<string>): int { Total(weight, names, |names|) }

  lemma {:induction false} TotalOfPrefix(weight: string -> int, a: seq<string>, b: seq<string>, k: nat)
    requires k <= |a| && k <= |b| && a[..k] == b[..k]
    ensures Total(weight, a, k) == Total(weight, b, k)
  {
    if k > 0 {
      assert a[..k - 1] == a[..k][..k - 1] && b[..k - 1] == b[..k][..k - 1];
      TotalOfPrefix(weight, a, b, k - 1);
      assert a[k - 1] == a[..k][k - 1] && b[k - 1] == b[..k][k - 1];
    }
  }

  lemma SumSnoc(weight: string -> int, names: seq<string>, name: string)
    ensures Sum(weight, names + [name]) == Sum(weight, names) + weight(name)
  {
    TotalOfPrefix(weight, names + [name], names, |names|);
  }

  lemma {:induction false} SumConcat(weight: string -> int, a: seq<string>, b: seq<string>)
    ensures Sum(weight, a + b) == Sum(weight, a) + Sum(weight, b)
    decreases |b|
  {
    if b == [] {
      assert a + b == a;
    } else {
      var front, last := b[..|b| - 1], b[|b| - 1];
      assert front + [last] == b && a + b == (a + front) + [last];
      SumConcat(weight, a, front);
      SumSnoc(weight, a + front, last);
      SumSnoc(weight, front, last);
    }
  }

  // ---------------------------------------------------------------- the plan under construction

  class Plan {
    const resource: string
    const revision: string
    var responseFields: array<string>
    var executionFields: array<string>
    var includes: array<string>
    var filter: FilterCell?
    var constraints: array<Constraint>
    var sorts: array<SortTerm>
    var page: PageRequest
    var cursor: CursorCell?
    var cost: Int64
    var costExceeded: bool
    /** The unbounded sum of everything charged so far. */
    ghost var charged: int

    constructor (resource: string, revision: string, page: PageRequest)
      ensures this.resource == resource && this.revision == revision && this.page == page
      ensures responseFields[..] == [] && executionFields[..] == [] && includes[..] == []
      ensures constraints[..] == [] && sorts[..] == [] && filter == null && cursor == null
      ensures fresh(Footprint())
      ensures cost == 1 && !costExceeded && charged == 1
    {
      this.resource, this.revision, this.page := resource, revision, page;
      responseFields, executionFields, includes := new string[0], new string[0], new string[0];
      constraints, sorts, filter, cursor := new Constraint[0], new SortTerm[0], null, null;
      cost, costExceeded, charged := 1, false, 1;
    }

    /** Every object the plan is made of. */
    ghost function Footprint(): set<object>
      reads this, filter, cursor
    {
      {this} + {responseFields} + {executionFields} + {includes} + {constraints} + {sorts}
      + (if filter == null then {} else filter.Repr) + CursorObjects(cursor)
    }

    ghost predicate Valid()
      reads this, filter, cursor, Footprint()
    {
      filter != null ==> filter.Valid() && this !in filter.Repr
    }

    /** The bounded accumulator agrees with the unbounded sum until that sum passes the limit. */
    ghost predicate CostTracks(maxCost: Int64)
      reads `cost, `costExceeded, `charged
    {
      && 1 <= cost <= maxCost
      && (costExceeded <==> charged > maxCost as int)
      && (!costExceeded ==> charged == cost as int)
    }

    /** exact is what the amount stands for: itself, or a sum that saturated at the largest int. */
    method AddPlanCost(maxCost: Int64, amount: Int64, ghost exact: int)
      requires CostTracks(maxCost) && amount >= 0
      requires exact == amount as int || (amount as int == MAX_INT && exact > MAX_INT)
      modifies `cost, `costExceeded, `charged
      ensures CostTracks(maxCost) && charged == old(charged) + exact
    {
      charged := charged + exact;
      if costExceeded || amount > maxCost - cost {
        costExceeded := true;
        return;
      }
      cost := cost + amount;
    }

    /** The plan as a value: what its accessors report. */
    ghost function View(): PlanData
      reads this, responseFields, executionFields, includes, constraints, sorts, filter, cursor, CursorObjects(cursor)
    {
      PlanData(resource, revision, responseFields[..], executionFields[..], includes[..], TreeOf(filter),
               constraints[..], sorts[..], page, StateOf(cursor), cost as int)
    }

    // -------------------------------------------------------------- accessors

    method ResponseFields() returns (copy: array<string>)
      ensures fresh(copy) && copy[..] == View().responseFields
    {
      copy := CopyArray(responseFields);
    }

    method ExecutionFields() returns (copy: array<string>)
      ensures fresh(copy) && copy[..] == View().executionFields
    {
      copy := CopyArray(executionFields);
    }

    method Includes() returns (copy: array<string>)
      ensures fresh(copy) && copy[..] == View().includes
    {
      copy := CopyArray(includes);
    }

    method Filter() returns (copy: FilterCell?)
      requires Valid()
      ensures TreeOf(copy) == View().filter
      ensures copy != null ==> copy.Valid() && fresh(copy.Repr) && Closed(copy.Repr)
    {
      copy := CloneFilter(filter);
    }

    method MandatoryConstraints() returns (copy: array<Constraint>)
      ensures fresh(copy) && copy[..] == View().constraints
    {
      copy := CopyArray(constraints);
    }

    method Sorts() returns (copy: array<SortTerm>)
      ensures fresh(copy) && copy[..] == View().sorts
    {
      copy := CopyArray(sorts);
    }

    method Cursor() returns (copy: CursorCell?)
      ensures StateOf(copy) == View().cursor
      ensures fresh(CursorObjects(copy)) && Closed(CursorObjects(copy))
    {
      copy := CloneCursor(cursor);
    }
  }
}
