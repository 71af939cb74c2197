/** The walk reports nothing exactly on the filters it should accept, and then returns them whole. */
module FilterProofs {
  import opened Text
  import opened Types
  import opened Relationships
  import opened Schemas
  import opened Compilation
  import opened FilterSpec

  lemma {:induction false} ValueRunClean(schema: Schema, definition: FilterDefinition, values: seq<Value>, k: nat,
                                         path: string, t: Trail)
    requires k <= |values|
    ensures ValueRun(schema, definition, values, k, path, t).violations == [] <==>
      t.violations == [] && Distinct(values[..k]) && forall i :: 0 <= i < k ==> ValueOk(schema, definition, values[i])
    ensures ValueRun(schema, definition, values, k, path, t).calls == t.calls
  {
    if k > 0 {
      ValueRunClean(schema, definition, values, k - 1, path, t);
      DistinctNext(values, k - 1);
      RepeatedValue(values, k - 1);
    }
  }

  lemma RepeatedValue(values: seq<Value>, k: nat)
    requires k < |values|
    ensures ValueKey(values[k]) in ValueKeys(values, k) <==> values[k] in values[..k]
  {
    forall i | 0 <= i < k ensures ValueKey(values[i]) == ValueKey(values[k]) <==> values[i] == values[k] {
      ValueKeyInjective(values[i], values[k]);
    }
    if values[k] in values[..k] {
      var i :| 0 <= i < k && values[..k][i] == values[k];
      assert ValueKey(values[i]) in ValueKeys(values, k);
    }
  }

  lemma ValuesRunClean(schema: Schema, definition: FilterDefinition, p: Predicate, path: string, t: Trail)
    ensures ValuesRun(schema, definition, p, path, t).violations == [] <==>
      && t.violations == [] && ArityOk(schema, p) && Distinct(p.values)
      && forall v <- p.values :: ValueOk(schema, definition, v)
    ensures ValuesRun(schema, definition, p, path, t).calls == t.calls
  {
    hide ValueRun, ValueOk;
    ValueRunClean(schema, definition, p.values, |p.values|, path, ArityRun(schema, p, path, t));
    assert p.values[..|p.values|] == p.values;
  }

  lemma {:induction false} ValueCountConcat(a: seq<Predicate>, b: seq<Predicate>)
    ensures ValueCount(a + b) == ValueCount(a) + ValueCount(b)
  {
    if a == [] {
      assert a + b == b;
    } else {
      ValueCountConcat(a[1..], b);
      assert (a + b)[1..] == a[1..] + b;
    }
  }

  /** The questions asked about a list of predicates, left to right. */
  function AskLeaves(options: CompileOptions, leaves: seq<Predicate>): seq<Callback> {
    if leaves == [] then []
    else Asking(options, CapabilityFilter, leaves[0].name) + AskLeaves(options, leaves[1..])
  }

  lemma AskLeavesStep(options: CompileOptions, leaves: seq<Predicate>)
    requires leaves != []
    ensures AskLeaves(options, leaves)
         == Asking(options, CapabilityFilter, leaves[0].name) + AskLeaves(options, leaves[1..])
  {
  }

  lemma {:induction false} AskLeavesConcat(options: CompileOptions, a: seq<Predicate>, b: seq<Predicate>)
    ensures AskLeaves(options, a + b) == AskLeaves(options, a) + AskLeaves(options, b)
  {
    if a == [] {
      assert a + b == b;
    } else {
      AskLeavesConcat(options, a[1..], b);
      AskLeavesStep(options, a);
      AskLeavesStep(options, a + b);
      hide Asking, AskLeaves;
      assert (a + b)[1..] == a[1..] + b;
      ConcatAssociates(Asking(options, CapabilityFilter, a[0].name), AskLeaves(options, a[1..]), AskLeaves(options, b));
    }
  }

  // ---------------------------------------------------------------- the counters never pass their limits

  ghost predicate Within(schema: Schema, st: WalkState) {
    st.nodes <= schema.bounds.maxFilterNodes && st.values <= schema.bounds.maxValues
  }

  /** Accepted or not, the walk visits at most MaxFilterNodes nodes and admits at most MaxValues values. */
  lemma {:induction false} WalkBounded(schema: Schema, options: CompileOptions, node: FilterExpr, path: string,
                                       depth: int, st: WalkState)
    requires Within(schema, st) && st.nodes < schema.bounds.maxFilterNodes
    ensures Within(schema, WalkNode(schema, options, node, path, depth, st).st)
    decreases node, |node.children| + 1
  {
    hide WalkLeaf;
    var visited := st.(nodes := st.nodes + 1);
    if node.leaf.Some? {
      WalkLeafBounded(schema, options, node, path, visited);
    } else if node.children != [] {
      var t := visited.trail
               .ReportIf(node.logic !in schema.allowedLogic, CodeUnsupported, path)
               .ReportIf(node.logic == LogicNot && |node.children| != 1, CodeConflict, path);
      WalkChildrenBounded(schema, options, node, 0, path, depth, visited.(trail := t), []);
    }
  }

  lemma WalkLeafBounded(schema: Schema, options: CompileOptions, node: FilterExpr, path: string, st: WalkState)
    requires Within(schema, st) && node.leaf.Some?
    ensures Within(schema, WalkLeaf(schema, options, node, path, st).st)
    ensures WalkLeaf(schema, options, node, path, st).st.nodes == st.nodes
  {
    hide ValuesRun, Permits, FilterKey;
  }

  lemma {:induction false} WalkChildrenBounded(schema: Schema, options: CompileOptions, node: FilterExpr, i: nat,
                                               path: string, depth: int, st: WalkState, compiled: seq<FilterExpr>)
    requires i <= |node.children| && Within(schema, st)
    ensures Within(schema, WalkChildren(schema, options, node, i, path, depth, st, compiled).st)
    decreases node, |node.children| - i
  {
    if i < |node.children| && st.nodes < schema.bounds.maxFilterNodes {
      var childPath := Indexed(path + ".children", i);
      WalkBounded(schema, options, node.children[i], childPath, depth + 1, st);
      var child := WalkNode(schema, options, node.children[i], childPath, depth + 1, st);
      WalkChildrenBounded(schema, options, node, i + 1, path, depth, child.st,
                          if child.filter.Some? then compiled + [child.filter.value] else compiled);
    }
  }

  // ---------------------------------------------------------------- acceptance

  /** What a clean walk over these leaves needs of the state. */
  ghost predicate Fits(schema: Schema, st: WalkState, size: nat, leaves: seq<Predicate>) {
    && st.trail.violations == []
    && st.nodes + size <= schema.bounds.maxFilterNodes
    && st.values + ValueCount(leaves) <= schema.bounds.maxValues
    && FreshKeys(st.seen, KeyTexts(leaves))
  }

  ghost predicate FreshKeys(seen: set<string>, keys: seq<string>) {
    Distinct(keys) && forall k <- keys :: k !in seen
  }

  /** What a clean walk leaves behind. */
  ghost predicate Advanced(options: CompileOptions, st: WalkState, after: WalkState, size: nat,
                           leaves: seq<Predicate>) {
    && after.nodes == st.nodes + size
    && after.values == st.values + ValueCount(leaves)
    && after.seen == st.seen + (set k <- KeyTexts(leaves))
    && after.trail.calls == st.trail.calls + AskLeaves(options, leaves)
  }

  lemma FreshKeysConcat(seen: set<string>, a: seq<string>, b: seq<string>)
    ensures FreshKeys(seen, a + b) <==> FreshKeys(seen, a) && FreshKeys(seen + (set k <- a), b)
  {
    DistinctConcat(a, b);
    hide Distinct;
  }

  /** Walking a then b fits exactly when a fits and b fits what a leaves behind. */
  lemma FitsConcat(schema: Schema, options: CompileOptions, st: WalkState, middle: WalkState,
                   n: nat, a: seq<Predicate>, m: nat, b: seq<Predicate>)
    requires Fits(schema, st, n, a) && Advanced(options, st, middle, n, a) && middle.trail.violations == []
    ensures Fits(schema, st, n + m, a + b) <==> Fits(schema, middle, m, b)
  {
    hide FreshKeys, KeyTexts;
    ValueCountConcat(a, b);
    KeyTextsConcat(a, b);
    FreshKeysConcat(st.seen, KeyTexts(a), KeyTexts(b));
  }

  lemma AdvancedConcat(options: CompileOptions, st: WalkState, middle: WalkState, after: WalkState,
                       n: nat, a: seq<Predicate>, m: nat, b: seq<Predicate>)
    requires Advanced(options, st, middle, n, a) && Advanced(options, middle, after, m, b)
    ensures Advanced(options, st, after, n + m, a + b)
  {
    hide KeyTexts;
    ValueCountConcat(a, b);
    KeyTextsConcat(a, b);
    AskLeavesConcat(options, a, b);
    assert (set k <- KeyTexts(a) + KeyTexts(b)) == (set k <- KeyTexts(a)) + (set k <- KeyTexts(b));
  }

  lemma KeyTextsConcat(a: seq<Predicate>, b: seq<Predicate>)
    ensures KeyTexts(a + b) == KeyTexts(a) + KeyTexts(b)
  {
  }

  /** The first part of what fits fits. */
  lemma FitsFirst(schema: Schema, st: WalkState, n: nat, a: seq<Predicate>, m: nat, b: seq<Predicate>)
    requires Fits(schema, st, n + m, a + b)
    ensures Fits(schema, st, n, a)
  {
    hide FreshKeys, KeyTexts;
    ValueCountConcat(a, b);
    KeyTextsConcat(a, b);
    FreshKeysConcat(st.seen, KeyTexts(a), KeyTexts(b));
  }

  lemma WalkLeafClean(schema: Schema, options: CompileOptions, node: FilterExpr, path: string, st: WalkState)
    requires node.leaf.Some?
    ensures var r := WalkLeaf(schema, options, node, path, st); var p := node.leaf.value;
      && (r.st.trail.violations == [] <==>
            && LeafOk(schema, options, p) && st.trail.violations == []
            && FilterKey(p.name, p.operator) !in st.seen && st.values + |p.values| <= schema.bounds.maxValues)
      && (r.st.trail.violations == [] ==>
            && r.filter == Some(node) && r.st.nodes == st.nodes && r.st.values == st.values + |p.values|
            && r.st.seen == st.seen + {FilterKey(p.name, p.operator)}
            && r.st.trail.calls == st.trail.calls + Asking(options, CapabilityFilter, p.name))
  {
    var p := node.leaf.value;
    if p.name in schema.filterIndex && schema.filterIndex[p.name] < |schema.filters| {
      var definition := schema.filters[schema.filterIndex[p.name]];
      var t := st.trail.Ask(options, CapabilityFilter, p.name)
                 .ReportIf(p.operator !in definition.operators, CodeUnsupported, path);
      hide ValuesRun, ValueOk, Distinct, ArityOk;
      ValuesRunClean(schema, definition, p, path, t);
    }
  }

  lemma SingleLeaf(schema: Schema, options: CompileOptions, st: WalkState, after: WalkState, p: Predicate)
    requires st.nodes < schema.bounds.maxFilterNodes
    ensures Fits(schema, st, 1, [p]) <==>
      && st.trail.violations == []
      && FilterKey(p.name, p.operator) !in st.seen && st.values + |p.values| <= schema.bounds.maxValues
    ensures (&& after.nodes == st.nodes + 1 && after.values == st.values + |p.values|
             && after.seen == st.seen + {FilterKey(p.name, p.operator)}
             && after.trail.calls == st.trail.calls + Asking(options, CapabilityFilter, p.name))
        ==> Advanced(options, st, after, 1, [p])
  {
    var keys := KeyTexts([p]);
    assert keys == [FilterKey(p.name, p.operator)];
    assert [p][1..] == [];
    assert ValueCount([p]) == |p.values|;
    assert AskLeaves(options, [p]) == Asking(options, CapabilityFilter, p.name);
    assert (set k <- keys) == {FilterKey(p.name, p.operator)};
  }

  lemma FitsStartsClean(schema: Schema, st: WalkState, size: nat, leaves: seq<Predicate>)
    ensures Fits(schema, st, size, leaves) ==> st.trail.violations == []
  {
  }

  lemma {:induction false} WalkNodeClean(schema: Schema, options: CompileOptions, node: FilterExpr, path: string,
                                         depth: int, st: WalkState)
    requires Within(schema, st) && st.nodes < schema.bounds.maxFilterNodes
    ensures var r := WalkNode(schema, options, node, path, depth, st);
      && (r.st.trail.violations == [] <==>
          FilterOk(schema, options, node, depth) && Fits(schema, st, Size(node), Leaves(node)))
      && (r.st.trail.violations == [] ==>
          r.filter == Some(node) && Advanced(options, st, r.st, Size(node), Leaves(node)))
    decreases node, |node.children| + 1
  {
    hide Fits, Advanced, LeafOk, WalkLeaf;
    FitsStartsClean(schema, st, Size(node), Leaves(node));
    var visited := st.(nodes := st.nodes + 1);
    if node.leaf.Some? {
      var after := WalkLeaf(schema, options, node, path, visited).st;
      SingleLeaf(schema, options, st, after, node.leaf.value);
      WalkLeafClean(schema, options, node, path, visited);
    } else if node.children != [] {
      var t := visited.trail
               .ReportIf(node.logic !in schema.allowedLogic, CodeUnsupported, path)
               .ReportIf(node.logic == LogicNot && |node.children| != 1, CodeConflict, path);
      var inner := visited.(trail := t);
      var after := WalkChildren(schema, options, node, 0, path, depth, inner, []).st;
      assert inner.trail.violations == [] <==>
        st.trail.violations == []
          && node.logic in schema.allowedLogic && (node.logic == LogicNot ==> |node.children| == 1);
      assert [] + node.children[0..] == node.children;
      assert FilterExpr(None, node.logic, node.children) == node;
      WalkChildrenClean(schema, options, node, 0, path, depth, inner, []);
      GroupFits(schema, options, st, inner, after, SizeFrom(node, 0), LeavesFrom(node, 0));
    }
  }

  /** Counting the group node itself. */
  lemma GroupFits(schema: Schema, options: CompileOptions, st: WalkState, inner: WalkState, after: WalkState, size: nat,
                  leaves: seq<Predicate>)
    requires inner.nodes == st.nodes + 1 && inner.values == st.values && inner.seen == st.seen
    requires inner.trail.calls == st.trail.calls
    requires inner.trail.violations == [] ==> st.trail.violations == []
    ensures inner.trail.violations == [] ==> (Fits(schema, inner, size, leaves) <==> Fits(schema, st, 1 + size, leaves))
    ensures Fits(schema, inner, size, leaves) ==> inner.trail.violations == []
    ensures Advanced(options, inner, after, size, leaves) ==> Advanced(options, st, after, 1 + size, leaves)
  {
    hide KeyTexts, FreshKeys;
  }

  /** What WalkChildren promises about the children from i on. */
  ghost predicate ChildrenClean(schema: Schema, options: CompileOptions, node: FilterExpr, i: nat, path: string,
                                depth: int, st: WalkState, compiled: seq<FilterExpr>)
    requires i <= |node.children|
  {
    var r := WalkChildren(schema, options, node, i, path, depth, st, compiled);
    && (r.st.trail.violations == [] <==>
          && (forall j :: i <= j < |node.children| ==> FilterOk(schema, options, node.children[j], depth + 1))
          && Fits(schema, st, SizeFrom(node, i), LeavesFrom(node, i)))
    && (r.st.trail.violations == [] ==>
          && r.filter == Some(FilterExpr(None, node.logic, compiled + node.children[i..]))
          && Advanced(options, st, r.st, SizeFrom(node, i), LeavesFrom(node, i)))
  }

  lemma {:induction false} WalkChildrenClean(schema: Schema, options: CompileOptions, node: FilterExpr, i: nat,
                                             path: string, depth: int, st: WalkState, compiled: seq<FilterExpr>)
    requires i <= |node.children| && Within(schema, st)
    ensures ChildrenClean(schema, options, node, i, path, depth, st, compiled)
    decreases node, |node.children| - i, 1
  {
    if i == |node.children| {
      assert compiled + node.children[i..] == compiled;
      assert KeyTexts([]) == [];
    } else if st.nodes >= schema.bounds.maxFilterNodes {
      assert SizeFrom(node, i) >= 1;
      assert !Fits(schema, st, SizeFrom(node, i), LeavesFrom(node, i));
    } else {
      WalkChildClean(schema, options, node, i, path, depth, st, compiled);
    }
  }

  lemma {:induction false} WalkChildClean(schema: Schema, options: CompileOptions, node: FilterExpr, i: nat,
                                          path: string, depth: int, st: WalkState, compiled: seq<FilterExpr>)
    requires i < |node.children| && Within(schema, st) && st.nodes < schema.bounds.maxFilterNodes
    ensures ChildrenClean(schema, options, node, i, path, depth, st, compiled)
    decreases node, |node.children| - i, 0
  {
    hide Fits, Advanced, FilterOk;
    var first, childPath := node.children[i], Indexed(path + ".children", i);
    var child := WalkNode(schema, options, first, childPath, depth + 1, st);
    var next := if child.filter.Some? then compiled + [child.filter.value] else compiled;
    WalkNodeClean(schema, options, first, childPath, depth + 1, st);
    WalkBounded(schema, options, first, childPath, depth + 1, st);
    WalkChildrenClean(schema, options, node, i + 1, path, depth, child.st, next);
    FitsStartsClean(schema, child.st, SizeFrom(node, i + 1), LeavesFrom(node, i + 1));
    var r := WalkChildren(schema, options, node, i + 1, path, depth, child.st, next);
    assert WalkChildren(schema, options, node, i, path, depth, st, compiled) == r;
    if child.st.trail.violations == [] {
      FitsConcat(schema, options, st, child.st, Size(first), Leaves(first), SizeFrom(node, i + 1),
                 LeavesFrom(node, i + 1));
      assert next + node.children[i + 1..] == compiled + node.children[i..];
      if r.st.trail.violations == [] {
        AdvancedConcat(options, st, child.st, r.st, Size(first), Leaves(first), SizeFrom(node, i + 1),
                       LeavesFrom(node, i + 1));
      }
    } else if Fits(schema, st, SizeFrom(node, i), LeavesFrom(node, i)) {
      FitsFirst(schema, st, Size(first), Leaves(first), SizeFrom(node, i + 1), LeavesFrom(node, i + 1));
    }
  }

  /** Distinct joined keys are distinct pairs, for declared names. */
  lemma KeysAreLeaves(leaves: seq<Predicate>)
    requires forall p <- leaves :: ValidName(p.name)
    ensures Distinct(KeyTexts(leaves)) <==> LeavesDistinct(leaves)
  {
    forall i, j | 0 <= i < j < |leaves|
      ensures KeyTexts(leaves)[i] == KeyTexts(leaves)[j]
              <==> leaves[i].name == leaves[j].name && leaves[i].operator == leaves[j].operator
    {
      FilterKeyInjective(leaves[i].name, leaves[i].operator, leaves[j].name, leaves[j].operator);
    }
  }

  lemma {:induction false} LeavesAreOk(schema: Schema, options: CompileOptions, node: FilterExpr, depth: int)
    requires FilterOk(schema, options, node, depth)
    ensures forall p <- Leaves(node) :: LeafOk(schema, options, p)
    decreases node, |node.children| + 1
  {
    if node.leaf.None? {
      LeavesFromAreOk(schema, options, node, 0, depth);
    }
  }

  lemma {:induction false} LeavesFromAreOk(schema: Schema, options: CompileOptions, node: FilterExpr, i: nat,
                                           depth: int)
    requires i <= |node.children|
    requires forall j :: i <= j < |node.children| ==> FilterOk(schema, options, node.children[j], depth + 1)
    ensures forall p <- LeavesFrom(node, i) :: LeafOk(schema, options, p)
    decreases node, |node.children| - i
  {
    if i < |node.children| {
      LeavesAreOk(schema, options, node.children[i], depth + 1);
      LeavesFromAreOk(schema, options, node, i + 1, depth);
    }
  }

  lemma DeclaredFilterName(schema: Schema, name: string)
    requires ValidSchema(schema) && name in schema.filterIndex
    ensures ValidName(name) && schema.filterIndex[name] < |schema.filters|
    ensures var d := schema.filters[schema.filterIndex[name]];
      d.name == name && FilterDeclared(d, schema.bounds.maxCost)
  {
    assert FilterNames(schema.filters)[schema.filterIndex[name]] == name;
    assert schema.filters[schema.filterIndex[name]] in schema.filters;
  }

  /** The filter phase reports nothing exactly when the whole tree is admissible; it then returns the
      tree unchanged, having asked about every predicate once, left to right. */
  lemma FilterAccepted(schema: Schema, options: CompileOptions, filter: Option<FilterExpr>, t: Trail)
    requires ValidSchema(schema)
    ensures var (trail, result) := FilterRun(schema, options, filter, t);
      && (trail.violations == [] <==> t.violations == [] && (filter.Some? ==> TreeOk(schema, options, filter.value)))
      && (trail.violations == [] ==>
            && result == filter
            && trail.calls == t.calls + if filter.Some? then AskLeaves(options, Leaves(filter.value)) else [])
  {
    if filter.Some? {
      var root := filter.value;
      var start := WalkState(t, 0, 0, {});
      assert schema.bounds.maxFilterNodes > 0 && schema.bounds.maxValues > 0 by {
        assert BoundValues(schema.bounds)[5] > 0 && BoundValues(schema.bounds)[6] > 0;
      }
      WalkNodeClean(schema, options, root, "filter", 1, start);
      if FilterOk(schema, options, root, 1) {
        LeavesAreOk(schema, options, root, 1);
        forall p | p in Leaves(root) ensures ValidName(p.name) {
          DeclaredFilterName(schema, p.name);
        }
        KeysAreLeaves(Leaves(root));
      }
    }
  }
}
