/** The walk over a filter does what the declarations say of every node a path of child indexes leads to. */
module DeclaredFilters {
  import opened Text
  import opened Types
  import opened Schemas
  import opened FilterSpec
  import opened Declarations
  import opened DeclarationProofs

  // ---------------------------------------------------------------- filters

  lemma FilterLookup(s: Schema, name: string)
    requires ValidSchema(s)
    ensures name in s.filterIndex ==>
      s.filterIndex[name] < |s.filters| && s.filters[s.filterIndex[name]].name == name
    ensures forall i :: 0 <= i < |s.filters| && s.filters[i].name == name ==>
      name in s.filterIndex && s.filterIndex[name] == i
  {
    var names := FilterNames(s.filters);
    forall i | 0 <= i < |s.filters| && s.filters[i].name == name
      ensures name in s.filterIndex && s.filterIndex[name] == i
    {
      assert names[i] == name;
    }
  }

  lemma OperandsAgree(c: SchemaConfig, s: Schema, d: FilterDefinition, p: Predicate)
    requires Built(c, s)
    ensures ArityOk(s, p) && Distinct(p.values) && (forall v <- p.values :: ValueOk(s, d, v)) <==>
      OperandsFit(c, d, p)
  {
    BuiltBounds(c, s);
    hide Built, Limit, ByteLength;
    forall v | v in p.values
      ensures ValueOk(s, d, v) <==>
        && v.kind == d.kind && ByteLength(v.text) <= Limit(c.bounds.maxStringBytes, 4096)
        && (v == Value(TypeString, "") ==> d.allowEmpty)
    {
    }
    hide ValueOk;
  }

  lemma LeafAgrees(c: SchemaConfig, s: Schema, options: CompileOptions, p: Predicate)
    requires Built(c, s)
    ensures LeafOk(s, options, p) <==> LeafFits(c, options, p)
  {
    BuiltIsValid(c, s);
    FilterLookup(s, p.name);
    assert s.filters == c.filters;
    forall d: FilterDefinition
      ensures ArityOk(s, p) && Distinct(p.values) && (forall v <- p.values :: ValueOk(s, d, v)) <==>
        OperandsFit(c, d, p)
    {
      OperandsAgree(c, s, d, p);
    }
    hide Built, ValidSchema, ArityOk, Distinct, ValueOk, OperandsFit;
    if p.name in s.filterIndex {
      assert s.filters[s.filterIndex[p.name]] in c.filters;
    }
  }

  /** Every node below this one, itself included, is in its place. */
  ghost predicate NodesFit(c: SchemaConfig, options: CompileOptions, node: FilterExpr, depth: int) {
    forall steps :: IsNode(node, steps) ==>
      depth + |steps| <= Limit(c.bounds.maxFilterDepth, 8) && NodeFits(c, options, NodeOf(node, steps).value)
  }

  lemma NodeStep(node: FilterExpr, i: nat, steps: seq<nat>)
    requires i < |node.children|
    ensures NodeOf(node, [i] + steps) == NodeOf(node.children[i], steps)
  {
    assert ([i] + steps)[1..] == steps;
  }

  /** All nodes are in their place exactly when the root is and all nodes below each child are. */
  lemma NodesFitStep(c: SchemaConfig, options: CompileOptions, node: FilterExpr, depth: int)
    ensures NodesFit(c, options, node, depth) <==>
      && depth <= Limit(c.bounds.maxFilterDepth, 8) && NodeFits(c, options, node)
      && forall i :: 0 <= i < |node.children| ==> NodesFit(c, options, node.children[i], depth + 1)
  {
    hide NodeFits, Limit;
    if NodesFit(c, options, node, depth) {
      assert IsNode(node, []) && NodeOf(node, []) == Some(node);
      forall i, steps | 0 <= i < |node.children| && IsNode(node.children[i], steps)
        ensures depth + 1 + |steps| <= Limit(c.bounds.maxFilterDepth, 8)
        ensures NodeFits(c, options, NodeOf(node.children[i], steps).value)
      {
        NodeStep(node, i, steps);
        assert |[i] + steps| == 1 + |steps|;
      }
    }
    if && depth <= Limit(c.bounds.maxFilterDepth, 8) && NodeFits(c, options, node)
       && forall i :: 0 <= i < |node.children| ==> NodesFit(c, options, node.children[i], depth + 1) {
      forall steps | IsNode(node, steps)
        ensures depth + |steps| <= Limit(c.bounds.maxFilterDepth, 8)
        ensures NodeFits(c, options, NodeOf(node, steps).value)
      {
        if steps != [] {
          assert NodeOf(node.children[steps[0]], steps[1..]) == NodeOf(node, steps);
          assert NodesFit(c, options, node.children[steps[0]], depth + 1);
        }
      }
    }
  }

  lemma LogicAgrees(c: SchemaConfig, s: Schema, logic: Logic)
    requires Built(c, s)
    ensures logic in s.allowedLogic <==> logic in c.allowedLogic || (c.allowedLogic == [] && logic == LogicAnd)
  {
  }

  lemma {:induction false} NodesAgree(c: SchemaConfig, s: Schema, options: CompileOptions, node: FilterExpr, depth: int)
    requires Built(c, s)
    ensures FilterOk(s, options, node, depth) <==> NodesFit(c, options, node, depth)
    decreases node
  {
    BuiltBounds(c, s);
    NodesFitStep(c, options, node, depth);
    LogicAgrees(c, s, node.logic);
    hide NodesFit;
    forall i | 0 <= i < |node.children|
      ensures FilterOk(s, options, node.children[i], depth + 1) <==> NodesFit(c, options, node.children[i], depth + 1)
    {
      NodesAgree(c, s, options, node.children[i], depth + 1);
    }
    if node.leaf.Some? {
      LeafAgrees(c, s, options, node.leaf.value);
    }
    hide Built, Limit, LeafOk, LeafFits;
  }

  // ---------------------------------------------------------------- listing the nodes of a tree

  ghost predicate InOrder(paths: seq<seq<nat>>) {
    forall i, j :: 0 <= i < j < |paths| ==> Earlier(paths[i], paths[j])
  }

  lemma {:induction false} EarlierOneWay(a: seq<nat>, b: seq<nat>)
    ensures !(Earlier(a, b) && Earlier(b, a)) && !Earlier(a, a)
    decreases |a|
  {
    if a != [] && b != [] {
      EarlierOneWay(a[1..], b[1..]);
    } else if a != [] {
      EarlierOneWay(a[1..], a[1..]);
    }
  }

  /** An ordered listing is determined by what it lists. */
  lemma {:induction false} SameListing(p: seq<seq<nat>>, q: seq<seq<nat>>, k: nat)
    requires InOrder(p) && InOrder(q) && (forall x :: x in p <==> x in q) && k <= |p|
    ensures k <= |q| && p[..k] == q[..k]
  {
    if k > 0 {
      SameListing(p, q, k - 1);
      forall i | 0 <= i < k - 1 ensures p[i] == q[i] {
        assert p[i] == p[..k - 1][i] && q[i] == q[..k - 1][i];
      }
      assert p[k - 1] in p && p[k - 1] in q;
      var j :| 0 <= j < |q| && q[j] == p[k - 1];
      if j < k - 1 {
        EarlierOneWay(p[j], p[k - 1]);
      }
      assert q[k - 1] in q && q[k - 1] in p;
      var i :| 0 <= i < |p| && p[i] == q[k - 1];
      if i < k - 1 {
        EarlierOneWay(q[i], q[k - 1]);
      }
      EarlierOneWay(p[k - 1], q[k - 1]);
      assert j == k - 1;
      assert p[..k] == p[..k - 1] + [p[k - 1]] && q[..k] == q[..k - 1] + [q[k - 1]];
    }
  }

  lemma ListingUnique(p: seq<seq<nat>>, q: seq<seq<nat>>)
    requires InOrder(p) && InOrder(q) && forall x :: x in p <==> x in q
    ensures p == q
  {
    SameListing(p, q, |p|);
    SameListing(q, p, |q|);
    assert p[..|p|] == p && q[..|q|] == q;
  }

  function Under(i: nat, paths: seq<seq<nat>>): (r: seq<seq<nat>>)
    ensures |r| == |paths|
  {
    seq(|paths|, k requires 0 <= k < |paths| => [i] + paths[k])
  }

  /** The nodes, or only the predicates. */
  predicate Kept(node: FilterExpr, leaves: bool, steps: seq<nat>) {
    if leaves then IsLeaf(node, steps) else IsNode(node, steps)
  }

  function Paths(node: FilterExpr, leaves: bool): seq<seq<nat>>
    decreases node, |node.children| + 1
  {
    (if leaves && node.leaf.None? then [] else [[]]) + PathsFrom(node, leaves, 0)
  }

  function PathsFrom(node: FilterExpr, leaves: bool, i: nat): seq<seq<nat>>
    requires i <= |node.children|
    decreases node, |node.children| - i
  {
    if i == |node.children| then []
    else Under(i, Paths(node.children[i], leaves)) + PathsFrom(node, leaves, i + 1)
  }

  lemma {:induction false} PathsList(node: FilterExpr, leaves: bool)
    ensures InOrder(Paths(node, leaves)) && forall steps :: steps in Paths(node, leaves) <==> Kept(node, leaves, steps)
    decreases node, |node.children| + 1
  {
    PathsFromList(node, leaves, 0);
    var below := PathsFrom(node, leaves, 0);
    forall steps ensures steps in Paths(node, leaves) <==> Kept(node, leaves, steps) {
      if steps != [] && Kept(node, leaves, steps) {
        assert KeptFrom(node, leaves, 0, steps);
      }
    }
    hide PathsFrom;
    forall x | x in below ensures Earlier([], x) {
      assert KeptFrom(node, leaves, 0, x);
    }
  }

  predicate KeptFrom(node: FilterExpr, leaves: bool, i: nat, steps: seq<nat>)
  {
    steps != [] && i <= steps[0] < |node.children| && Kept(node.children[steps[0]], leaves, steps[1..])
  }

  lemma {:induction false} PathsFromList(node: FilterExpr, leaves: bool, i: nat)
    requires i <= |node.children|
    ensures InOrder(PathsFrom(node, leaves, i))
    ensures forall steps :: steps in PathsFrom(node, leaves, i) <==> KeptFrom(node, leaves, i, steps)
    decreases node, |node.children| - i
  {
    if i < |node.children| {
      var child := Paths(node.children[i], leaves);
      PathsList(node.children[i], leaves);
      PathsFromList(node, leaves, i + 1);
      UnderList(i, child);
      hide Kept;
      var rest := PathsFrom(node, leaves, i + 1);
      forall a, b | a in Under(i, child) && b in rest ensures Earlier(a, b) {
        assert KeptFrom(node, leaves, i + 1, b);
      }
      OrderConcat(Under(i, child), rest);
      forall steps ensures steps in PathsFrom(node, leaves, i) <==> KeptFrom(node, leaves, i, steps) {
        assert KeptFrom(node, leaves, i, steps) <==>
          KeptFrom(node, leaves, i + 1, steps)
          || (steps != [] && steps[0] == i && Kept(node.children[i], leaves, steps[1..]));
      }
    }
  }

  lemma UnderList(i: nat, paths: seq<seq<nat>>)
    requires InOrder(paths)
    ensures InOrder(Under(i, paths))
    ensures forall steps :: steps in Under(i, paths) <==> steps != [] && steps[0] == i && steps[1..] in paths
  {
    forall a, b | 0 <= a < b < |paths| ensures Earlier(Under(i, paths)[a], Under(i, paths)[b]) {
      assert ([i] + paths[a])[1..] == paths[a] && ([i] + paths[b])[1..] == paths[b];
    }
    forall steps ensures steps in Under(i, paths) <==> steps != [] && steps[0] == i && steps[1..] in paths {
      if steps in Under(i, paths) {
        var k :| 0 <= k < |paths| && Under(i, paths)[k] == steps;
        assert steps[1..] == paths[k];
      }
      if steps != [] && steps[0] == i && steps[1..] in paths {
        var k :| 0 <= k < |paths| && paths[k] == steps[1..];
        assert Under(i, paths)[k] == steps;
      }
    }
  }

  lemma OrderConcat(p: seq<seq<nat>>, q: seq<seq<nat>>)
    requires InOrder(p) && InOrder(q) && forall a, b :: a in p && b in q ==> Earlier(a, b)
    ensures InOrder(p + q)
  {
    hide Earlier;
    forall i, j | 0 <= i < j < |p + q| ensures Earlier((p + q)[i], (p + q)[j]) {
      if i < |p| <= j {
        assert p[i] in p && q[j - |p|] in q;
      }
    }
  }

  /** A predicate has no children, anywhere in the tree. */
  ghost predicate Tidy(node: FilterExpr) {
    forall steps :: IsLeaf(node, steps) ==> NodeOf(node, steps).value.children == []
  }

  lemma TidyChild(node: FilterExpr, i: nat)
    requires Tidy(node) && i < |node.children|
    ensures Tidy(node.children[i]) && node.leaf.None?
  {
    if node.leaf.Some? {
      assert IsLeaf(node, []);
    }
    forall steps | IsLeaf(node.children[i], steps) ensures NodeOf(node.children[i], steps).value.children == [] {
      NodeStep(node, i, steps);
      assert IsLeaf(node, [i] + steps);
    }
  }

  /** The size of a tree is the number of its nodes, and its predicates are those at its leaves, in order. */
  lemma {:induction false} PathsCount(node: FilterExpr)
    requires Tidy(node)
    ensures |Paths(node, false)| == Size(node)
    ensures LeavesAt(node, Paths(node, true), Leaves(node))
    decreases node, |node.children| + 1
  {
    if node.leaf.Some? {
      assert IsLeaf(node, []);
      assert node.children == [];
    } else {
      PathsCountFrom(node, 0);
    }
  }

  ghost predicate LeavesAt(node: FilterExpr, paths: seq<seq<nat>>, leaves: seq<Predicate>) {
    && |paths| == |leaves|
    && forall k :: 0 <= k < |paths| ==> IsLeaf(node, paths[k]) && PredicateAt(node, paths[k]) == leaves[k]
  }

  lemma {:induction false} PathsCountFrom(node: FilterExpr, i: nat)
    requires Tidy(node) && i <= |node.children|
    ensures |PathsFrom(node, false, i)| == SizeFrom(node, i)
    ensures LeavesAt(node, PathsFrom(node, true, i), LeavesFrom(node, i))
    decreases node, |node.children| - i
  {
    if i < |node.children| {
      TidyChild(node, i);
      PathsCount(node.children[i]);
      PathsCountFrom(node, i + 1);
      hide Tidy, IsLeaf, PredicateAt, NodeOf;
      var child := Paths(node.children[i], true);
      forall k | 0 <= k < |child|
        ensures IsLeaf(node, Under(i, child)[k])
        ensures PredicateAt(node, Under(i, child)[k]) == Leaves(node.children[i])[k]
      {
        LeafStep(node, i, child[k]);
      }
    }
  }

  lemma LeafStep(node: FilterExpr, i: nat, steps: seq<nat>)
    requires i < |node.children| && IsLeaf(node.children[i], steps)
    ensures IsLeaf(node, [i] + steps) && PredicateAt(node, [i] + steps) == PredicateAt(node.children[i], steps)
  {
    NodeStep(node, i, steps);
  }

  lemma Listings(root: FilterExpr)
    ensures AllNodes(root, Paths(root, false)) && AllLeaves(root, Paths(root, true))
  {
    PathsList(root, false);
    PathsList(root, true);
    hide Paths, IsNode, IsLeaf, Earlier;
  }

  lemma NodesListed(root: FilterExpr, paths: seq<seq<nat>>)
    requires Tidy(root) && AllNodes(root, paths)
    ensures |paths| == Size(root)
  {
    Listings(root);
    PathsCount(root);
    hide Paths, IsNode, IsLeaf, Earlier;
    ListingUnique(paths, Paths(root, false));
  }

  /** Leaves lists the predicates of a tree depth first, left to right. */
  lemma LeavesListed(root: FilterExpr, paths: seq<seq<nat>>)
    requires Tidy(root) && AllLeaves(root, paths)
    ensures LeavesAt(root, paths, Leaves(root))
  {
    Listings(root);
    PathsCount(root);
    hide Paths, IsNode, IsLeaf, Earlier, LeavesAt;
    ListingUnique(paths, Paths(root, true));
  }

  lemma {:induction false} OperandsCounted(leaves: seq<Predicate>, counts: seq<int>)
    requires |counts| == |leaves| && forall i :: 0 <= i < |leaves| ==> counts[i] == |leaves[i].values|
    ensures Plus(counts) == ValueCount(leaves)
  {
    if leaves != [] {
      OperandsCounted(leaves[1..], counts[1..]);
    }
  }

  function Counts(leaves: seq<Predicate>): (counts: seq<int>)
    ensures |counts| == |leaves|
  {
    seq(|leaves|, i requires 0 <= i < |leaves| => |leaves[i].values|)
  }

  lemma CountsCount(root: FilterExpr, counts: seq<int>)
    requires Tidy(root) && OperandCounts(root, counts)
    ensures Plus(counts) == ValueCount(Leaves(root))
  {
    hide Tidy, IsNode, Earlier, Leaves;
    var paths :| AllLeaves(root, paths) && |counts| == |paths|
      && forall i :: 0 <= i < |paths| ==> counts[i] == |PredicateAt(root, paths[i]).values|;
    LeavesListed(root, paths);
    hide AllLeaves, PredicateAt, IsLeaf;
    OperandsCounted(Leaves(root), counts);
  }

  lemma OperandTotal(root: FilterExpr, limit: int)
    requires Tidy(root)
    ensures ValueCount(Leaves(root)) <= limit <==> exists counts | OperandCounts(root, counts) :: Plus(counts) <= limit
  {
    Listings(root);
    hide Tidy, IsNode, IsLeaf, Earlier, Leaves, Paths, PredicateAt, AllNodes, AllLeaves;
    LeavesListed(root, Paths(root, true));
    var counts := Counts(Leaves(root));
    assert OperandCounts(root, counts);
    CountsCount(root, counts);
    hide OperandCounts;
    if other :| OperandCounts(root, other) && Plus(other) <= limit {
      CountsCount(root, other);
    }
  }

  lemma LeavesApart(root: FilterExpr)
    requires Tidy(root)
    ensures LeavesDistinct(Leaves(root)) <==> PredicatesApart(root)
  {
    var paths, leaves := Paths(root, true), Leaves(root);
    Listings(root);
    LeavesListed(root, paths);
    hide Tidy, AllNodes, IsLeaf, PredicateAt, Leaves, Paths;
    if LeavesDistinct(leaves) {
      forall a, b | IsLeaf(root, a) && IsLeaf(root, b) && a != b
        ensures PredicateAt(root, a).name != PredicateAt(root, b).name
          || PredicateAt(root, a).operator != PredicateAt(root, b).operator
      {
        assert a in paths && b in paths;
        var i :| 0 <= i < |paths| && paths[i] == a;
        var j :| 0 <= j < |paths| && paths[j] == b;
      }
    } else {
      var i, j :| 0 <= i < j < |leaves|
        && leaves[i].name == leaves[j].name && leaves[i].operator == leaves[j].operator;
      EarlierOneWay(paths[i], paths[j]);
      assert paths[i] in paths && paths[j] in paths;
      assert paths[i] != paths[j];
    }
  }

  lemma FittingIsTidy(c: SchemaConfig, options: CompileOptions, root: FilterExpr, depth: int)
    requires NodesFit(c, options, root, depth)
    ensures Tidy(root)
  {
    hide LeafFits;
    forall steps | IsLeaf(root, steps) ensures NodeOf(root, steps).value.children == [] {
      assert NodeFits(c, options, NodeOf(root, steps).value);
    }
  }

  lemma NodeTotal(root: FilterExpr, limit: int)
    requires Tidy(root)
    ensures Size(root) <= limit <==> exists paths | AllNodes(root, paths) :: |paths| <= limit
  {
    Listings(root);
    hide Tidy, AllNodes, Paths, Size;
    NodesListed(root, Paths(root, false));
    if paths :| AllNodes(root, paths) && |paths| <= limit {
      NodesListed(root, paths);
    }
  }

  /** The bounds a filter shares between all its nodes. */
  lemma TotalsAgree(c: SchemaConfig, s: Schema, root: FilterExpr)
    requires Built(c, s) && Tidy(root)
    ensures && Size(root) <= s.bounds.maxFilterNodes
            && ValueCount(Leaves(root)) <= s.bounds.maxValues
            && LeavesDistinct(Leaves(root)) <==>
      && (exists paths | AllNodes(root, paths) :: |paths| <= Limit(c.bounds.maxFilterNodes, 128))
      && (exists counts | OperandCounts(root, counts) :: Plus(counts) <= Limit(c.bounds.maxValues, 256))
      && PredicatesApart(root)
  {
    BuiltBounds(c, s);
    NodeTotal(root, Limit(c.bounds.maxFilterNodes, 128));
    OperandTotal(root, Limit(c.bounds.maxValues, 256));
    LeavesApart(root);
    hide *;
  }

  lemma PlacesAgree(c: SchemaConfig, s: Schema, options: CompileOptions, root: FilterExpr)
    requires Built(c, s)
    ensures FilterOk(s, options, root, 1) <==> PlacesFit(c, options, root)
    ensures PlacesFit(c, options, root) ==> Tidy(root)
  {
    NodesAgree(c, s, options, root, 1);
    if NodesFit(c, options, root, 1) {
      FittingIsTidy(c, options, root, 1);
    }
    hide Built, Limit, FilterOk, NodeFits, IsNode, NodeOf, Tidy;
  }

  lemma FilterAgrees(c: SchemaConfig, s: Schema, options: CompileOptions, root: FilterExpr)
    requires Built(c, s)
    ensures TreeOk(s, options, root) <==> FilterFits(c, options, root)
  {
    PlacesAgree(c, s, options, root);
    if Tidy(root) {
      TotalsAgree(c, s, root);
    }
    hide Built, Limit, FilterOk, PlacesFit, Leaves, Size, ValueCount, LeavesDistinct, AllNodes, OperandCounts, Plus,
         PredicatesApart;
  }
}
