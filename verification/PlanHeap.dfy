/** Slices, pointers and structures on the heap: what requests, plans and decoder answers are made of. */
module PlanHeap {
  import opened Text
  import opened Types

  // ---------------------------------------------------------------- slices

  /** append([]T(nil), source[:n]...). */
  method CopyPrefix<T>(source: array<T>, n: nat) returns (copy: array<T>)
    requires n <= source.Length
    ensures fresh(copy) && copy[..] == source[..n]
  {
    copy := new T[n](i requires 0 <= i < source.Length reads source => source[i]);
    assert copy[..] == source[..n];
  }

  method CopyArray<T>(source: array<T>) returns (copy: array<T>)
    ensures fresh(copy) && copy[..] == source[..]
  {
    copy := CopyPrefix(source, source.Length);
    assert source[..source.Length] == source[..];
  }

  /** append of one element: a slice with room for no more is reallocated. */
  method Append<T>(source: array<T>, x: T) returns (grown: array<T>)
    ensures fresh(grown) && grown[..] == source[..] + [x]
  {
    var n := source.Length;
    grown := new T[n + 1](i requires 0 <= i <= n reads source => if i < n then source[i] else x);
    assert grown[..] == source[..] + [x];
  }

  /** append of a whole slice. */
  method AppendAll<T>(source: array<T>, more: array<T>) returns (grown: array<T>)
    ensures fresh(grown) && grown[..] == source[..] + more[..]
  {
    var n := source.Length;
    grown := new T[n + more.Length](i requires 0 <= i < n + more.Length reads source, more =>
                                      if i < n then source[i] else more[i - n]);
    assert grown[..] == source[..] + more[..];
  }

  // ---------------------------------------------------------------- filter trees

  class PredicateCell {
    var name: string
    var operator: Operator
    var values: array<Value>

    constructor (name: string, operator: Operator, values: array<Value>)
      ensures this.name == name && this.operator == operator && this.values == values
    {
      this.name := name;
      this.operator := operator;
      this.values := values;
    }

    function View(): Predicate
      reads this, values
    {
      Predicate(name, operator, values[..])
    }
  }

  /** One node; its children are the first count entries of an array. Tree is the filter below the node
      as a value, Repr every object it is made of. */
  class FilterCell {
    var test: PredicateCell?
    var logic: Logic
    var children: array<FilterCell?>
    var count: nat
    ghost var Tree: FilterExpr
    ghost var Repr: set<object>

    ghost predicate Valid()
      reads this, Repr
      decreases Repr
    {
      && this in Repr && children in Repr && count <= children.Length
      && Tree.logic == logic && |Tree.children| == count
      && (test == null ==> Tree.leaf == None)
      && (test != null ==> test in Repr && test.values in Repr && Tree.leaf == Some(test.View()))
      && forall i :: 0 <= i < count ==>
           && children[i] != null && children[i] in Repr && children[i].Repr <= Repr && this !in children[i].Repr
           && children[i].Valid() && children[i].Tree == Tree.children[i]
    }

    constructor (test: PredicateCell?, logic: Logic, children: array<FilterCell?>, count: nat,
                 ghost tree: FilterExpr, ghost below: set<object>)
      ensures this.test == test && this.logic == logic && this.children == children && this.count == count
      ensures Tree == tree && Repr == {this} + below
    {
      this.test := test;
      this.logic := logic;
      this.children := children;
      this.count := count;
      this.Tree := tree;
      this.Repr := {this} + below;
    }
  }

  ghost function TreeOf(cell: FilterCell?): Option<FilterExpr>
    reads cell
  {
    if cell == null then None else Some(cell.Tree)
  }

  /** The first entries of an array are whole trees, one for each of these values; everything below the
      array is in one closed set, the array itself is not, and the rest of the array is unused. */
  ghost predicate Grown(children: array<FilterCell?>, trees: seq<FilterExpr>, below: set<object>)
    reads children, below
  {
    && |trees| <= children.Length && children !in below && Closed(below)
    && (forall i :: 0 <= i < |trees| ==>
          && children[i] != null && children[i] in below && children[i].Repr <= below
          && children[i].Valid() && children[i].Tree == trees[i])
    && forall i :: |trees| <= i < children.Length ==> children[i] == null
  }

  /** One more child, made of new objects. */
  method Grow(children: array<FilterCell?>, count: nat, child: FilterCell, ghost trees: seq<FilterExpr>,
              ghost below: set<object>)
    returns (ghost more: set<object>)
    requires Grown(children, trees, below) && count == |trees| < children.Length
    requires child.Valid() && Closed(child.Repr) && children !in child.Repr
    modifies children
    ensures more == below + child.Repr && Grown(children, trees + [child.Tree], more)
  {
    children[count] := child;
    ClosedUnion(below, child.Repr);
    hide Closed;
    more := below + child.Repr;
  }

  method ClonePredicate(p: PredicateCell?) returns (copy: PredicateCell?, ghost own: set<object>)
    ensures copy == null <==> p == null
    ensures fresh(own) && Closed(own)
    ensures p != null ==> copy in own && copy.values in own && copy.View() == p.View()
  {
    if p == null {
      return null, {};
    }
    var values := CopyArray(p.values);
    copy := new PredicateCell(p.name, p.operator, values);
    own := {copy, values};
  }

  /** cloneFilter: an equal tree made of new objects only. */
  method CloneFilter(filter: FilterCell?) returns (copy: FilterCell?)
    requires filter != null ==> filter.Valid()
    ensures TreeOf(copy) == TreeOf(filter)
    ensures copy != null ==> copy.Valid() && fresh(copy.Repr) && Closed(copy.Repr)
    decreases if filter == null then {} else filter.Repr, 1
  {
    if filter == null {
      return null;
    }
    var test, own := ClonePredicate(filter.test);
    var children, below := CloneChildren(filter);
    copy := new FilterCell(test, filter.logic, children, filter.count, filter.Tree, own + below + {children});
    ClosedNode(copy, own, below);
  }

  method CloneChildren(filter: FilterCell) returns (children: array<FilterCell?>, ghost below: set<object>)
    requires filter.Valid()
    ensures fresh(children) && fresh(below) && Grown(children, filter.Tree.children, below)
    decreases filter.Repr, 0
  {
    children := new FilterCell?[filter.count](i => null);
    below := {};
    for i := 0 to filter.count
      invariant fresh(below) && Grown(children, filter.Tree.children[..i], below)
    {
      hide Grown, Closed;
      var child := CloneFilter(filter.children[i]);
      below := Grow(children, i, child, filter.Tree.children[..i], below);
      assert filter.Tree.children[..i + 1] == filter.Tree.children[..i] + [child.Tree];
    }
    assert filter.Tree.children[..filter.count] == filter.Tree.children;
  }

  // ---------------------------------------------------------------- cursor states

  class CursorCell {
    var direction: CursorDirection
    var positions: array<Value>
    var policy: string

    constructor (direction: CursorDirection, positions: array<Value>, policy: string)
      ensures this.direction == direction && this.positions == positions && this.policy == policy
    {
      this.direction := direction;
      this.positions := positions;
      this.policy := policy;
    }

    function View(): CursorState
      reads this, positions
    {
      CursorState(direction, positions[..], policy)
    }
  }

  function StateOf(cell: CursorCell?): Option<CursorState>
    reads cell, if cell == null then {} else {cell.positions}
  {
    if cell == null then None else Some(cell.View())
  }

  ghost function CursorObjects(cell: CursorCell?): set<object>
    reads cell
  {
    if cell == null then {} else var state: CursorCell := cell; {state, state.positions}
  }

  /** A copy with positions of its own. */
  method CloneCursor(cursor: CursorCell?) returns (copy: CursorCell?)
    ensures StateOf(copy) == StateOf(cursor)
    ensures fresh(CursorObjects(copy)) && Closed(CursorObjects(copy))
  {
    if cursor == null {
      return null;
    }
    var positions := CopyArray(cursor.positions);
    copy := new CursorCell(cursor.direction, positions, cursor.policy);
  }

  // ---------------------------------------------------------------- regions

  /** Following any reference from an object of the region stays in the region. */
  ghost predicate Closed(region: set<object>)
    reads region
  {
    && (forall c: FilterCell | c in region :: c.children in region && (c.test != null ==> c.test in region))
    && (forall a: array<FilterCell?>, i | a in region && 0 <= i < a.Length && a[i] != null :: a[i] in region)
    && (forall p: PredicateCell | p in region :: p.values in region)
    && (forall c: CursorCell | c in region :: c.positions in region)
  }

  lemma ClosedUnion(a: set<object>, b: set<object>)
    requires Closed(a) && Closed(b)
    ensures Closed(a + b)
  {
  }

  /** A node on top of closed regions. */
  lemma ClosedNode(node: FilterCell, own: set<object>, below: set<object>)
    requires Closed(own) && Closed(below) && node.Repr == {node} + (own + below + {node.children})
    requires node.test != null ==> node.test in own
    requires forall i :: 0 <= i < node.children.Length && node.children[i] != null ==> node.children[i] in below
    ensures Closed(node.Repr)
  {
  }
}
