/** Relationship declarations on the heap: the tree a caller declares, and the copies the index keeps. */
module RelationHeap {
  import opened Text
  import opened Types
  import opened Relationships

  /** A declaration; its relationships are the first count entries of an array. Tree is the declaration
      as a value, Repr every object it is made of. */
  class RelationCell {
    var name: string
    var resource: string
    var cost: Int64
    var children: array<RelationCell?>
    var count: nat
    ghost var Tree: RelationshipDefinition
    ghost var Repr: set<object>

    ghost predicate Valid()
      reads this, Repr
      decreases Repr
    {
      && this in Repr && children in Repr && count <= children.Length
      && Tree.name == name && Tree.resource == resource && Tree.cost == cost && |Tree.relationships| == count
      && forall i :: 0 <= i < count ==>
           && children[i] != null && children[i] in Repr && children[i].Repr <= Repr && this !in children[i].Repr
           && children[i].Valid() && children[i].Tree == Tree.relationships[i]
    }

    constructor (name: string, resource: string, cost: Int64, children: array<RelationCell?>, count: nat,
                 ghost tree: RelationshipDefinition, ghost below: set<object>)
      ensures this.name == name && this.resource == resource && this.cost == cost
      ensures this.children == children && this.count == count
      ensures Tree == tree && Repr == {this} + below
    {
      this.name := name;
      this.resource := resource;
      this.cost := cost;
      this.children := children;
      this.count := count;
      this.Tree := tree;
      this.Repr := {this} + below;
    }
  }

  /** The first entries of an array are whole trees, one for each of these values, within a set of objects. */
  ghost predicate Holds(children: array<RelationCell?>, trees: seq<RelationshipDefinition>, own: set<object>)
    reads children, own
  {
    && |trees| <= children.Length
    && forall i :: 0 <= i < |trees| ==>
         && children[i] != null && children[i] in own && children[i].Repr <= own
         && children[i].Valid() && children[i].Tree == trees[i]
  }

  /** And the array itself is not among them. */
  ghost predicate Planted(children: array<RelationCell?>, trees: seq<RelationshipDefinition>, below: set<object>)
    reads children, below
  {
    children !in below && Holds(children, trees, below)
  }

  /** cloneRelationship: an equal tree made of new objects only. */
  method CloneRelation(relation: RelationCell) returns (copy: RelationCell)
    requires relation.Valid()
    ensures copy.Valid() && copy.Tree == relation.Tree && fresh(copy.Repr)
    decreases relation.Repr, 1
  {
    var children, below := CloneRelations(relation);
    copy := new RelationCell(relation.name, relation.resource, relation.cost, children, relation.count,
                             relation.Tree, below + {children});
  }

  method CloneRelations(relation: RelationCell) returns (children: array<RelationCell?>, ghost below: set<object>)
    requires relation.Valid()
    ensures fresh(children) && fresh(below) && Planted(children, relation.Tree.relationships, below)
    decreases relation.Repr, 0
  {
    children := new RelationCell?[relation.count](i => null);
    below := {};
    for i := 0 to relation.count
      invariant fresh(below) && Planted(children, relation.Tree.relationships[..i], below)
    {
      hide Planted;
      var child := CloneRelation(relation.children[i]);
      below := Plant(children, i, child, relation.Tree.relationships[..i], below);
      assert relation.Tree.relationships[..i + 1] == relation.Tree.relationships[..i] + [child.Tree];
    }
    assert relation.Tree.relationships[..relation.count] == relation.Tree.relationships;
  }

  /** One more child, made of new objects. */
  method Plant(children: array<RelationCell?>, count: nat, child: RelationCell,
               ghost trees: seq<RelationshipDefinition>, ghost below: set<object>)
    returns (ghost more: set<object>)
    requires Planted(children, trees, below) && count == |trees| < children.Length
    requires child.Valid() && children !in child.Repr
    modifies children
    ensures more == below + child.Repr && Planted(children, trees + [child.Tree], more)
  {
    children[count] := child;
    more := below + child.Repr;
  }

  // ---------------------------------------------------------------- the index

  datatype NodeCell = NodeCell(definition: RelationCell, depth: nat)

  type IndexCells = map<string, NodeCell>

  /** The index as a value. */
  ghost function IndexView(index: IndexCells): RelationIndex
    reads set key <- index :: index[key].definition
  {
    map key <- index :: RelationshipNode(index[key].definition.Tree, index[key].depth)
  }

  /** Every definition in the index is a whole tree of objects from this set. */
  ghost predicate Owns(own: set<object>, index: IndexCells)
    reads own
  {
    forall key <- index ::
      index[key].definition in own && index[key].definition.Repr <= own && index[key].definition.Valid()
  }

  datatype Kept = Kept(own: set<object>, index: IndexCells)

  /** Whatever happens to objects that are not its own, the index stays as it was. */
  twostate lemma IndexStays(k: Kept)
    requires old(Owns(k.own, k.index)) && unchanged(k.own)
    ensures Owns(k.own, k.index) && IndexView(k.index) == old(IndexView(k.index))
  {
  }

  lemma HoldsAt(rs: array<RelationCell?>, trees: seq<RelationshipDefinition>, own: set<object>, i: nat)
    requires Holds(rs, trees, own) && i < |trees|
    ensures i < rs.Length && rs[i] != null && rs[i].Valid() && rs[i].Tree == trees[i] && rs[i].Repr <= own
  {
  }

  /** Snapshots one edge. */
  method WithClone(index: IndexCells, ghost own: set<object>, key: string, relation: RelationCell, depth: nat)
    returns (next: IndexCells, ghost more: set<object>)
    requires Owns(own, index) && relation.Valid()
    ensures Owns(more, next) && own <= more && fresh(more - own)
    ensures IndexView(next) == old(IndexView(index))[key := RelationshipNode(relation.Tree, depth)]
  {
    var copy := CloneRelation(relation);
    OwnsNext(own, index, key, NodeCell(copy, depth));
    IndexViewNext(index, key, NodeCell(copy, depth));
    hide Owns, IndexView;
    next, more := index[key := NodeCell(copy, depth)], own + copy.Repr;
  }

  lemma OwnsNext(own: set<object>, index: IndexCells, key: string, node: NodeCell)
    requires Owns(own, index) && node.definition.Valid()
    ensures Owns(own + node.definition.Repr, index[key := node])
  {
  }

  lemma IndexViewNext(index: IndexCells, key: string, node: NodeCell)
    ensures IndexView(index[key := node])
         == IndexView(index)[key := RelationshipNode(node.definition.Tree, node.depth)]
  {
  }

  // ---------------------------------------------------------------- a caller that rewrites its declarations

  /** Following any reference from an object of the region stays in the region. */
  ghost predicate Closed(region: set<object>)
    reads region
  {
    && (forall c: RelationCell | c in region :: c.children in region)
    && (forall a: array<RelationCell?>, i | a in region && 0 <= i < a.Length && a[i] != null :: a[i] in region)
  }

  /** Objects are named by their position among those of their kind the caller has come by. */
  datatype Step =
    | FollowChildren(cell: nat)
    | FollowChild(list: nat, at: nat)
    | WriteChild(list: nat, at: nat, child: Option<nat>)
    | WriteRelation(cell: nat, name: string, resource: string, cost: Int64, newChildren: nat, count: nat)

  /** The declarations a caller holds, and those it has come by. */
  class Declarer {
    var cells: seq<RelationCell>
    var lists: seq<array<RelationCell?>>
    ghost var Region: set<object>

    ghost predicate Valid()
      reads this, Region
    {
      this !in Region && Closed(Region) && (forall c <- cells :: c in Region) && (forall a <- lists :: a in Region)
    }

    constructor (declared: array<RelationCell?>, ghost region: set<object>)
      requires Closed(region) && declared in region
      ensures Valid() && Region == region && fresh(this)
    {
      cells, lists, Region := [], [declared], region;
    }

    method Take(step: Step)
      requires Valid()
      modifies this`cells, this`lists, Region
      ensures Valid()
    {
      match step {
        case FollowChildren(cell) =>
          if cell < |cells| {
            lists := lists + [cells[cell].children];
          }
        case FollowChild(list, at) =>
          if list < |lists| && at < lists[list].Length && lists[list][at] != null {
            cells := cells + [lists[list][at]];
          }
        case WriteChild(list, at, child) =>
          if list < |lists| && at < lists[list].Length && (child.Some? ==> child.value < |cells|) {
            lists[list][at] := if child.Some? then cells[child.value] else null;
          }
        case WriteRelation(cell, name, resource, cost, newChildren, count) =>
          if cell < |cells| && newChildren < |lists| {
            cells[cell].name := name;
            cells[cell].resource := resource;
            cells[cell].cost := cost;
            cells[cell].children := lists[newChildren];
            cells[cell].count := count;
          }
      }
    }
  }

  /** Whatever a caller does afterwards to the declarations it passed, in any order, an index that shares
      nothing with them stays as it was. */
  method RewriteDeclarations(declared: array<RelationCell?>, steps: seq<Step>, ghost region: set<object>,
                             ghost own: set<object>, ghost index: IndexCells)
    requires Closed(region) && declared in region && Owns(own, index) && own !! region
    modifies region
    ensures Owns(own, index) && IndexView(index) == old(IndexView(index))
  {
    hide Owns, IndexView;
    var declarer := new Declarer(declared, region);
    for i := 0 to |steps|
      invariant declarer.Valid() && declarer.Region == region && unchanged(own)
    {
      hide Closed;
      declarer.Take(steps[i]);
    }
    IndexStays(Kept(own, index));
  }
}
