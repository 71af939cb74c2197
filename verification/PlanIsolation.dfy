/** A caller that holds a plan cannot change it. The caller owns its request, whatever the application
    shared with it, and every copy an accessor handed out; it may follow and overwrite any reference in
    them, in any order, between accessor calls. */
module PlanIsolation {
  import opened Text
  import opened Types
  import opened Violations
  import opened PlanHeap
  import opened Schemas
  import opened Compilation
  import opened Compile

  datatype Accessor =
    | ReadResponseFields | ReadExecutionFields | ReadIncludes | ReadConstraints | ReadSorts | ReadFilter | ReadCursor

  /** Objects are named by their position among those of their kind the caller has come by. */
  datatype Reference =
    | TestOf(node: nat) | ChildrenOf(node: nat) | ChildAt(list: nat,
                                                          at: nat) | ValuesOf(cell: nat) | PositionsOf(cursor: nat)

  datatype Write =
    | WriteName(names: nat, at: nat, text: string)
    | WriteConstraint(constraints: nat, at: nat, constraint: Constraint)
    | WriteTerm(terms: nat, at: nat, term: SortTerm)
    | WriteValue(values: nat, at: nat, value: Value)
    | WriteChild(list: nat, at: nat, child: Option<nat>)
    | WriteNode(node: nat, newTest: Option<nat>, logic: Logic, newChildren: nat, count: nat)
    | WriteTest(cell: nat, name: string, operator: Operator, newValues: nat)
    | WriteCursor(cursor: nat, direction: CursorDirection, newPositions: nat, policy: string)

  /** One thing a caller can do: call an accessor, follow a reference, or overwrite an object. */
  datatype Action = Read(accessor: Accessor) | Follow(reference: Reference) | Overwrite(write: Write)

  /** What an accessor call showed the caller. */
  datatype Report =
    | SawNames(names: seq<string>)
    | SawConstraints(constraints: seq<Constraint>)
    | SawSorts(sorts: seq<SortTerm>)
    | SawFilter(filter: Option<FilterExpr>)
    | SawCursor(cursor: Option<CursorState>)

  function Expected(accessor: Accessor, plan: PlanData): Report {
    match accessor
    case ReadResponseFields => SawNames(plan.responseFields)
    case ReadExecutionFields => SawNames(plan.executionFields)
    case ReadIncludes => SawNames(plan.includes)
    case ReadConstraints => SawConstraints(plan.constraints)
    case ReadSorts => SawSorts(plan.sorts)
    case ReadFilter => SawFilter(plan.filter)
    case ReadCursor => SawCursor(plan.cursor)
  }

  /** What a plan with this content shows over a run of actions. */
  function AllExpected(actions: seq<Action>, k: nat, plan: PlanData): seq<Report>
    requires k <= |actions|
  {
    if k == 0 then []
    else AllExpected(actions, k - 1, plan) + if actions[k - 1].Read? then [Expected(actions[k - 1].accessor, plan)]
      else []
  }

  function Given<T>(list: Option<array<T>>): seq<array<T>> { if list.Some? then [list.value] else [] }

  /** The objects a caller has come by. Region holds everything it could ever reach from them. */
  class Caller {
    var nameLists: seq<array<string>>
    var constraintLists: seq<array<Constraint>>
    var termLists: seq<array<SortTerm>>
    var valueLists: seq<array<Value>>
    var nodeLists: seq<array<FilterCell?>>
    var nodes: seq<FilterCell>
    var tests: seq<PredicateCell>
    var cursors: seq<CursorCell>
    ghost var Region: set<object>

    ghost predicate Valid()
      reads this, Region
    {
      this !in Region && Closed(Region) && Reachable()
    }

    ghost predicate Reachable()
      reads this
    {
      && (forall o <- nameLists :: o in Region) && (forall o <- constraintLists :: o in Region)
      && (forall o <- termLists :: o in Region) && (forall o <- valueLists :: o in Region)
      && (forall o <- nodeLists :: o in Region) && (forall o <- nodes :: o in Region)
      && (forall o <- tests :: o in Region) && (forall o <- cursors :: o in Region)
    }

    /** The caller holds none of the plan. */
    ghost predicate Outside(plan: Plan)
      reads this, plan, plan.filter, plan.cursor
    {
      plan.Footprint() !! Region && this !in plan.Footprint()
    }

    /** It starts out with a request and constraints among objects that hold together. */
    constructor (request: RequestCells, constraints: array<Constraint>, nodes: seq<FilterCell>, states: seq<CursorCell>,
                 ghost region: set<object>)
      requires Closed(region) && Slices(request) + {constraints} <= region
      requires (forall n <- nodes :: n in region) && forall c <- states :: c in region
      ensures Valid() && Region == region
    {
      this.nameLists := Given(request.fields) + Given(request.includes);
      this.termLists, this.constraintLists, this.nodes := Given(request.sorts), [constraints], nodes;
      valueLists, nodeLists, tests, cursors := [], [], [], states;
      Region := region;
    }

    // -------------------------------------------------------------- accessors

    ghost method Gain(own: set<object>)
      requires Valid() && Closed(own) && this !in own
      modifies this`Region
      ensures Valid() && Region == old(Region) + own
    {
      ClosedUnion(Region, own);
      hide Closed;
      Region := Region + own;
    }

    method SeeNames(names: array<string>)
      requires Valid()
      modifies this
      ensures Valid() && Region == old(Region) + {names}
    {
      Gain({names});
      hide Closed;
      nameLists := nameLists + [names];
    }

    method SeeLists(accessor: Accessor, plan: Plan) returns (ghost report: Report)
      requires Valid() && Outside(plan) && !accessor.ReadFilter? && !accessor.ReadCursor?
      modifies this
      ensures Valid() && old(Region) <= Region && fresh(Region - old(Region))
      ensures report == Expected(accessor, plan.View())
    {
      match accessor {
        case ReadResponseFields =>
          var names := plan.ResponseFields();
          report := SawNames(names[..]);
          SeeNames(names);
        case ReadExecutionFields =>
          var names := plan.ExecutionFields();
          report := SawNames(names[..]);
          SeeNames(names);
        case ReadIncludes =>
          var names := plan.Includes();
          report := SawNames(names[..]);
          SeeNames(names);
        case ReadConstraints =>
          report := SeeConstraints(plan);
        case ReadSorts =>
          report := SeeSorts(plan);
      }
    }

    method SeeConstraints(plan: Plan) returns (ghost report: Report)
      requires Valid() && Outside(plan)
      modifies this
      ensures Valid() && old(Region) <= Region && fresh(Region - old(Region))
      ensures report == SawConstraints(plan.View().constraints)
    {
      var copy := plan.MandatoryConstraints();
      report := SawConstraints(copy[..]);
      Gain({copy});
      hide Closed;
      constraintLists := constraintLists + [copy];
    }

    method SeeSorts(plan: Plan) returns (ghost report: Report)
      requires Valid() && Outside(plan)
      modifies this
      ensures Valid() && old(Region) <= Region && fresh(Region - old(Region))
      ensures report == SawSorts(plan.View().sorts)
    {
      var copy := plan.Sorts();
      report := SawSorts(copy[..]);
      Gain({copy});
      hide Closed;
      termLists := termLists + [copy];
    }

    method SeeFilter(plan: Plan) returns (ghost report: Report)
      requires Valid() && plan.Valid() && Outside(plan)
      modifies this
      ensures Valid() && old(Region) <= Region && fresh(Region - old(Region))
      ensures report == SawFilter(plan.View().filter)
    {
      var copy := plan.Filter();
      report := SawFilter(TreeOf(copy));
      if copy != null {
        Gain(copy.Repr);
        hide Closed;
        nodes := nodes + [copy];
      }
    }

    method SeeCursor(plan: Plan) returns (ghost report: Report)
      requires Valid() && Outside(plan)
      modifies this
      ensures Valid() && old(Region) <= Region && fresh(Region - old(Region))
      ensures report == SawCursor(plan.View().cursor)
    {
      hide Closed;
      var copy := plan.Cursor();
      report := SawCursor(StateOf(copy));
      if copy != null {
        KeepCursor(copy);
      }
    }

    method KeepCursor(copy: CursorCell)
      requires Valid() && Closed(CursorObjects(copy))
      modifies this
      ensures Valid() && Region == old(Region) + CursorObjects(copy)
    {
      Gain(CursorObjects(copy));
      hide Closed;
      cursors := cursors + [copy];
    }

    method See(accessor: Accessor, plan: Plan) returns (ghost report: Report)
      requires Valid() && plan.Valid() && Outside(plan)
      modifies this
      ensures Valid() && old(Region) <= Region && fresh(Region - old(Region))
      ensures report == Expected(accessor, plan.View())
    {
      match accessor {
        case ReadFilter => report := SeeFilter(plan);
        case ReadCursor => report := SeeCursor(plan);
        case _ => report := SeeLists(accessor, plan);
      }
    }

    // -------------------------------------------------------------- following references

    method Go(reference: Reference)
      requires Valid()
      modifies this
      ensures Valid() && Region == old(Region)
    {
      match reference {
        case TestOf(node) =>
          if node < |nodes| && nodes[node].test != null {
            tests := tests + [nodes[node].test];
          }
        case ChildrenOf(node) =>
          if node < |nodes| {
            nodeLists := nodeLists + [nodes[node].children];
          }
        case ChildAt(list, at) =>
          if list < |nodeLists| && at < nodeLists[list].Length && nodeLists[list][at] != null {
            nodes := nodes + [nodeLists[list][at]];
          }
        case ValuesOf(cell) =>
          if cell < |tests| {
            valueLists := valueLists + [tests[cell].values];
          }
        case PositionsOf(cursor) =>
          if cursor < |cursors| {
            valueLists := valueLists + [cursors[cursor].positions];
          }
      }
    }

    // -------------------------------------------------------------- overwriting

    method WriteList(write: Write)
      requires Valid()
      modifies Region
      ensures Valid()
    {
      match write {
        case WriteName(i, at, text) =>
          if i < |nameLists| && at < nameLists[i].Length { nameLists[i][at] := text; }
        case WriteConstraint(i, at, constraint) =>
          if i < |constraintLists| && at < constraintLists[i].Length { constraintLists[i][at] := constraint; }
        case WriteTerm(i, at, term) =>
          if i < |termLists| && at < termLists[i].Length { termLists[i][at] := term; }
        case WriteValue(i, at, value) =>
          if i < |valueLists| && at < valueLists[i].Length { valueLists[i][at] := value; }
        case _ =>
      }
    }

    method WriteNodes(write: Write)
      requires Valid()
      modifies Region
      ensures Valid()
    {
      match write {
        case WriteChild(list, at, child) =>
          if list < |nodeLists| && at < nodeLists[list].Length && (child.Some? ==> child.value < |nodes|) {
            nodeLists[list][at] := if child.Some? then nodes[child.value] else null;
          }
        case WriteNode(node, newTest, logic, newChildren, count) =>
          if node < |nodes| && newChildren < |nodeLists| && (newTest.Some? ==> newTest.value < |tests|) {
            nodes[node].test := if newTest.Some? then tests[newTest.value] else null;
            nodes[node].logic := logic;
            nodes[node].children := nodeLists[newChildren];
            nodes[node].count := count;
          }
        case _ =>
      }
    }

    method WriteCells(write: Write)
      requires Valid()
      modifies Region
      ensures Valid()
    {
      match write {
        case WriteTest(cell, name, operator, newValues) =>
          if cell < |tests| && newValues < |valueLists| {
            tests[cell].name := name;
            tests[cell].operator := operator;
            tests[cell].values := valueLists[newValues];
          }
        case WriteCursor(cursor, direction, newPositions, policy) =>
          if cursor < |cursors| && newPositions < |valueLists| {
            cursors[cursor].direction := direction;
            cursors[cursor].positions := valueLists[newPositions];
            cursors[cursor].policy := policy;
          }
        case _ =>
      }
    }

    /** A write reaches objects of the region only. */
    method Scribble(write: Write)
      requires Valid()
      modifies Region
      ensures Valid()
    {
      hide Valid;
      match write {
        case WriteName(_, _, _) | WriteConstraint(_, _, _) | WriteTerm(_, _, _) | WriteValue(_, _, _) =>
          WriteList(write);
        case WriteChild(_, _, _) | WriteNode(_, _, _, _, _) => WriteNodes(write);
        case WriteTest(_, _, _, _) | WriteCursor(_, _, _, _) => WriteCells(write);
      }
    }
  }

  /** Whatever happens to objects outside its footprint, a plan stays valid and reports the same. */
  twostate lemma OutsideWritesDoNotShow(plan: Plan)
    requires old(plan.Valid()) && unchanged(old(plan.Footprint()))
    ensures plan.Valid() && plan.View() == old(plan.View()) && plan.Footprint() == old(plan.Footprint())
  {
  }

  method Act(caller: Caller, plan: Plan, action: Action) returns (ghost reports: seq<Report>)
    requires caller.Valid() && plan.Valid() && caller.Outside(plan)
    modifies caller, caller.Region
    ensures caller.Valid() && old(caller.Region) <= caller.Region && fresh(caller.Region - old(caller.Region))
    ensures plan.Valid() && plan.Footprint() == old(plan.Footprint()) && plan.View() == old(plan.View())
      && caller.Outside(plan)
    ensures reports == if action.Read? then [Expected(action.accessor, plan.View())] else []
  {
    hide Closed, Plan.View, Plan.Valid;
    match action {
      case Read(accessor) =>
        ghost var report := caller.See(accessor, plan);
        reports := [report];
      case Follow(reference) =>
        caller.Go(reference);
        reports := [];
      case Overwrite(write) =>
        caller.Scribble(write);
        reports := [];
    }
    OutsideWritesDoNotShow(plan);
  }

  /** Any interleaving of accessor calls, followed references and writes: every accessor call, however
      late, shows what the plan was, and no write ever reaches the plan. */
  method Session(caller: Caller, plan: Plan, actions: seq<Action>) returns (ghost reports: seq<Report>)
    requires caller.Valid() && plan.Valid() && caller.Outside(plan)
    modifies caller, caller.Region
    ensures plan.Valid() && plan.View() == old(plan.View())
    ensures caller.Valid() && caller.Outside(plan)
    ensures reports == AllExpected(actions, |actions|, old(plan.View()))
  {
    reports := [];
    for i := 0 to |actions|
      invariant caller.Valid() && caller.Outside(plan) && fresh(caller.Region - old(caller.Region))
      invariant plan.Valid() && plan.View() == old(plan.View())
      invariant reports == AllExpected(actions, i, old(plan.View()))
    {
      ghost var seen := Act(caller, plan, actions[i]);
      reports := reports + seen;
    }
  }

  /** A caller that starts out with these objects, none of them the plan's. */
  method Begin(plan: Plan, request: RequestCells, constraints: array<Constraint>, ghost region: set<object>,
               nodes: seq<FilterCell>, states: seq<CursorCell>, actions: seq<Action>)
    returns (ghost reports: seq<Report>)
    requires plan.Valid() && Closed(region) && plan.Footprint() !! region
    requires Slices(request) + {constraints} <= region
    requires (forall n <- nodes :: n in region) && forall c <- states :: c in region
    modifies region
    ensures plan.View() == old(plan.View()) && reports == AllExpected(actions, |actions|, plan.View())
  {
    hide Closed, AllExpected, Plan.View, Plan.Valid;
    var caller := new Caller(request, constraints, nodes, states, region);
    OutsideWritesDoNotShow(plan);
    reports := Session(caller, plan, actions);
  }

  datatype Reach = Reach(authority: Authority, region: set<object>)

  /** What the caller can reach once the application has run. */
  twostate lemma RegionAfter(reach: Reach)
    requires old(Closed(reach.region)) && old(reach.authority.Held) <= reach.region && unchanged(reach.region)
    requires Gained(reach.authority, {})
    ensures Closed(reach.region + reach.authority.Held)
  {
  }

  /** From compilation on. The request, the constraints, filter nodes and cursor states the caller or its
      decoder already held, and every copy handed out later, may be followed and overwritten in any order
      between accessor calls: each call shows the plan of the run. */
  method CompileThenSession(schema: Schema, request: RequestCells, constraints: array<Constraint>, authority: Authority,
                            ghost region: set<object>, nodes: seq<FilterCell>, states: seq<CursorCell>,
                              actions: seq<Action>)
    returns (plan: Plan?, ghost reports: seq<Report>)
    requires ValidSchema(schema) && authority.calls == [] && constraints[..] == authority.options.constraints
    requires request.filter != null ==> request.filter.Valid() && authority !in request.filter.Repr
    requires Closed(region) && Slices(request) + {constraints} <= region && authority.Held <= region
      && authority !in region
    requires request.filter != null ==> request.filter.Repr <= region
    requires (forall n <- nodes :: n in region) && forall c <- states :: c in region
    modifies authority, region
    ensures var run := CompileRun(schema, old(RequestOf(request)), authority.options);
      && (plan != null <==> run.trail.violations == [])
      && (plan != null ==> plan.View() == run.plan && reports == AllExpected(actions, |actions|, run.plan))
  {
    hide CompileRun, ValidSchema, RequestOf, Plan.Footprint, Plan.View, Plan.Valid, Closed;
    var err;
    plan, err := CompileRequest(Some(schema), request, constraints, authority);
    reports := [];
    if plan != null {
      RegionAfter(Reach(authority, region));
      reports := Begin(plan, request, constraints, region + authority.Held, nodes, states, actions);
    }
  }
}
