/** Declared relationship trees, their dotted paths, and the index NewSchema builds from them. */
module Relationships {
  import opened Types

  datatype RelationshipDefinition = RelationshipDefinition(
    name: string,
    resource: string,
    cost: Int64,
    relationships: seq<RelationshipDefinition>)

  datatype RelationshipNode = RelationshipNode(definition: RelationshipDefinition, depth: nat)

  type RelationIndex = map<string, RelationshipNode>

  // ---------------------------------------------------------------- names and dotted paths

  predicate NameChar(c: char, first: bool) {
    'a' <= c <= 'z' || (!first && ('0' <= c <= '9' || c == '_'))
  }

  predicate ValidName(value: string) {
    value != "" && forall i :: 0 <= i < |value| ==> NameChar(value[i], i == 0)
  }

  function FullName(prefix: string, name: string): string {
    if prefix != "" then prefix + "." + name else name
  }

  function Dots(path: string, k: nat): nat
    requires k <= |path|
  {
    if k == 0 then 0 else Dots(path, k - 1) + if path[k - 1] == '.' then 1 else 0
  }

  function Depth(path: string): nat { 1 + Dots(path, |path|) }

  method RelationshipDepth(path: string) returns (depth: nat)
    ensures depth == Depth(path)
  {
    depth := 1;
    for i := 0 to |path|
      invariant depth == 1 + Dots(path, i)
    {
      if path[i] == '.' {
        depth := depth + 1;
      }
    }
  }

  /** The proper prefixes of path that end before one of its first k characters being a dot. */
  function ProperPrefixes(path: string, k: nat): seq<string>
    requires k <= |path|
  {
    if k == 0 then []
    else ProperPrefixes(path, k - 1) + if path[k - 1] == '.' then [path[..k - 1]] else []
  }

  function Prefixes(path: string): seq<string> { ProperPrefixes(path, |path|) + [path] }

  method RelationshipPrefixes(path: string) returns (result: seq<string>)
    ensures result == Prefixes(path)
  {
    result := [];
    for i := 0 to |path|
      invariant result == ProperPrefixes(path, i)
    {
      if path[i] == '.' {
        result := result + [path[..i]];
      }
    }
    result := result + [path];
  }

  lemma {:induction false} DepthCountsPrefixes(path: string, k: nat)
    requires k <= |path|
    ensures |ProperPrefixes(path, k)| == Dots(path, k)
    ensures |Prefixes(path)| == Depth(path)
  {
    if k > 0 {
      DepthCountsPrefixes(path, k - 1);
    }
    if k < |path| {
      DepthCountsPrefixesUp(path, k);
    }
  }

  lemma {:induction false} DepthCountsPrefixesUp(path: string, k: nat)
    requires k <= |path| && |ProperPrefixes(path, k)| == Dots(path, k)
    ensures |ProperPrefixes(path, |path|)| == Dots(path, |path|)
    decreases |path| - k
  {
    if k < |path| {
      DepthCountsPrefixesUp(path, k + 1);
    }
  }

  lemma {:induction false} ProperPrefixesExtend(path: string, more: string, k: nat)
    requires k <= |path|
    ensures ProperPrefixes(path + more, k) == ProperPrefixes(path, k)
  {
    if k > 0 {
      ProperPrefixesExtend(path, more, k - 1);
      assert (path + more)[k - 1] == path[k - 1];
      assert (path + more)[..k - 1] == path[..k - 1];
    }
  }

  lemma {:induction false} ProperPrefixesDotless(path: string, from: nat, k: nat)
    requires from <= k <= |path| && forall i :: from <= i < k ==> path[i] != '.'
    ensures ProperPrefixes(path, k) == ProperPrefixes(path, from)
  {
    if from < k {
      ProperPrefixesDotless(path, from, k - 1);
    }
  }

  /** Appending one dotless segment appends one prefix. */
  lemma PrefixesOfFullName(prefix: string, name: string)
    requires '.' !in name
    ensures Prefixes(FullName(prefix, name))
         == (if prefix == "" then [] else Prefixes(prefix)) + [FullName(prefix, name)]
  {
    var full := FullName(prefix, name);
    if prefix == "" {
      ProperPrefixesDotless(full, 0, |full|);
    } else {
      assert full == prefix + ("." + name);
      ProperPrefixesExtend(prefix, "." + name, |prefix|);
      assert full[|prefix|] == '.' && full[..|prefix|] == prefix;
      forall i | |prefix| + 1 <= i < |full| ensures full[i] != '.' {
        assert full[i] == name[i - |prefix| - 1];
      }
      ProperPrefixesDotless(full, |prefix| + 1, |full|);
    }
  }

  // ---------------------------------------------------------------- declared trees

  predicate CostDeclared(cost: Int64, maxCost: Int64) { 0 <= cost <= maxCost }

  /** A relationship whose subtree is well formed below resources that must not recur. */
  ghost predicate ValidRelation(r: RelationshipDefinition, ancestors: set<string>, maxCost: Int64)
    decreases r, 1
  {
    && ValidName(r.name) && ValidName(r.resource) && CostDeclared(r.cost, maxCost)
    && r.resource !in ancestors
    && ValidRelations(r.relationships, |r.relationships|, ancestors + {r.resource}, maxCost)
  }

  /** The first k siblings are well formed and differently named. */
  ghost predicate ValidRelations(rs: seq<RelationshipDefinition>, k: nat, ancestors: set<string>, maxCost: Int64)
    requires k <= |rs|
    decreases rs, 0, k
  {
    && (forall i :: 0 <= i < k ==> ValidRelation(rs[i], ancestors, maxCost))
    && (forall i, j :: 0 <= i < j < k ==> rs[i].name != rs[j].name)
  }

  /** The index of the first k siblings and everything below them. */
  function IndexOf(rs: seq<RelationshipDefinition>, k: nat, prefix: string): RelationIndex
    requires k <= |rs|
    decreases rs, 0, k
  {
    if k == 0 then map[]
    else IndexOf(rs, k - 1, prefix) + EntriesOf(rs[k - 1], FullName(prefix, rs[k - 1].name))
  }

  function EntriesOf(r: RelationshipDefinition, full: string): RelationIndex
    decreases r, 1
  {
    map[full := RelationshipNode(r, Depth(full))] + IndexOf(r.relationships, |r.relationships|, full)
  }

  lemma IndexMembers(rs: seq<RelationshipDefinition>, k: nat, prefix: string)
    requires k <= |rs|
    ensures IndexOf(rs, k, prefix) ==
      if k == 0 then map[]
      else IndexOf(rs, k - 1, prefix) + EntriesOf(rs[k - 1], FullName(prefix, rs[k - 1].name))
  {
  }

  /** key is full itself or lies below it. */
  predicate OwnedBy(full: string, key: string) {
    key == full || full + "." <= key
  }

  /** key lies strictly below prefix; everything lies below the root. */
  predicate Below(prefix: string, key: string) {
    prefix == "" || prefix + "." <= key
  }

  lemma NamesHaveNoDots(name: string)
    requires ValidName(name)
    ensures '.' !in name && name != ""
  {
    forall i | 0 <= i < |name| ensures name[i] != '.' {
      assert NameChar(name[i], i == 0);
    }
  }

  /** Two differently named siblings never own the same key. */
  lemma SiblingsOwnApart(prefix: string, a: string, b: string, key: string)
    requires '.' !in a && '.' !in b && a != b
    requires OwnedBy(FullName(prefix, a), key)
    ensures !OwnedBy(FullName(prefix, b), key)
  {
    var fa, fb := FullName(prefix, a), FullName(prefix, b);
    var n := |fa| - |a|;
    assert n == |fb| - |b| && fa[n..] == a && fb[n..] == b;
    assert fa != fb;
    assert |fa| < |fb| ==> fb[|fa|] == b[|fa| - n];
    assert |fb| < |fa| ==> fa[|fb|] == a[|fb| - n];
    OwnerPrefixesKey(fa, key);
    if OwnedBy(fb, key) {
      OwnerPrefixesKey(fb, key);
      assert false;
    }
  }

  lemma OwnerPrefixesKey(full: string, key: string)
    requires OwnedBy(full, key)
    ensures full <= key && (|full| < |key| ==> key[|full|] == '.')
  {
    if key != full {
      assert full == (full + ".")[..|full|] && (full + ".")[|full|] == '.';
    }
  }

  lemma PrefixTransitive(a: string, b: string, c: string)
    requires a + b <= c
    ensures a <= c
  {
    assert a == (a + b)[..|a|] == c[..|a|];
  }

  /** Everything indexed under a nonempty prefix lies strictly below it. */
  lemma {:induction false} IndexLiesBelow(rs: seq<RelationshipDefinition>, k: nat, prefix: string, key: string)
    requires k <= |rs| && prefix != "" && key in IndexOf(rs, k, prefix)
    ensures prefix + "." <= key
    decreases rs, 0, k
  {
    var full := FullName(prefix, rs[k - 1].name);
    if key in EntriesOf(rs[k - 1], full) {
      EntriesOwned(rs[k - 1], full, key);
      OwnerPrefixesKey(full, key);
      assert full == (prefix + ".") + rs[k - 1].name;
      assert full + (key[|full|..]) == key;
      PrefixTransitive(prefix + ".", rs[k - 1].name, key);
    } else {
      IndexLiesBelow(rs, k - 1, prefix, key);
    }
  }

  lemma {:induction false} EntriesOwned(r: RelationshipDefinition, full: string, key: string)
    requires full != "" && key in EntriesOf(r, full)
    ensures OwnedBy(full, key)
    decreases r, 1
  {
    if key != full {
      IndexLiesBelow(r.relationships, |r.relationships|, full, key);
    }
  }

  /** Every key of the index is owned by one of the indexed siblings. */
  lemma {:induction false} IndexKeysOwned(rs: seq<RelationshipDefinition>, k: nat, prefix: string, key: string)
    returns (i: nat)
    requires k <= |rs| && forall i :: 0 <= i < k ==> rs[i].name != ""
    requires key in IndexOf(rs, k, prefix)
    ensures i < k && OwnedBy(FullName(prefix, rs[i].name), key)
  {
    hide IndexOf, EntriesOf, OwnedBy;
    IndexMembers(rs, k, prefix);
    var full := FullName(prefix, rs[k - 1].name);
    if key in EntriesOf(rs[k - 1], full) {
      EntriesOwned(rs[k - 1], full, key);
      i := k - 1;
    } else {
      i := IndexKeysOwned(rs, k - 1, prefix, key);
    }
  }

  // ---------------------------------------------------------------- what the index contains

  /** A walk down the declared tree. */
  ghost predicate IsChain(rs: seq<RelationshipDefinition>, chain: seq<RelationshipDefinition>)
    decreases |chain|
  {
    && chain != [] && chain[0] in rs
    && (|chain| > 1 ==> IsChain(chain[0].relationships, chain[1..]))
  }

  /** The dotted names met on the walk, outermost first. */
  function ChainNames(prefix: string, chain: seq<RelationshipDefinition>): (names: seq<string>)
    ensures |names| == |chain|
    decreases |chain|
  {
    if chain == [] then []
    else [FullName(prefix, chain[0].name)] + ChainNames(FullName(prefix, chain[0].name), chain[1..])
  }

  lemma {:induction false} ChainPrefix(rs: seq<RelationshipDefinition>, chain: seq<RelationshipDefinition>,
                                       prefix: string, n: nat)
    requires IsChain(rs, chain) && 0 < n <= |chain|
    ensures IsChain(rs, chain[..n])
    ensures ChainNames(prefix, chain[..n]) == ChainNames(prefix, chain)[..n]
    decreases |chain|
  {
    if n > 1 {
      ChainPrefix(chain[0].relationships, chain[1..], FullName(prefix, chain[0].name), n - 1);
    }
    assert chain[..n][1..] == chain[1..][..n - 1];
  }

  lemma {:induction false} KeyHasChain(rs: seq<RelationshipDefinition>, k: nat, prefix: string, key: string)
    returns (chain: seq<RelationshipDefinition>)
    requires k <= |rs| && key in IndexOf(rs, k, prefix)
    ensures IsChain(rs, chain) && ChainNames(prefix, chain)[|chain| - 1] == key
    ensures IndexOf(rs, k, prefix)[key].depth == Depth(key)
    decreases rs, 0, k
  {
    var r := rs[k - 1];
    var full := FullName(prefix, r.name);
    if key in EntriesOf(r, full) {
      if key in IndexOf(r.relationships, |r.relationships|, full) {
        var below := KeyHasChain(r.relationships, |r.relationships|, full, key);
        chain := [r] + below;
        assert chain[1..] == below;
      } else {
        chain := [r];
      }
    } else {
      chain := KeyHasChain(rs, k - 1, prefix, key);
    }
  }

  ghost predicate SiblingNames(rs: seq<RelationshipDefinition>, k: nat)
    requires k <= |rs|
  {
    && (forall i :: 0 <= i < k ==> '.' !in rs[i].name && rs[i].name != "")
    && (forall i, j :: 0 <= i < j < k ==> rs[i].name != rs[j].name)
  }

  lemma ValidSiblings(rs: seq<RelationshipDefinition>, k: nat, ancestors: set<string>, maxCost: Int64)
    requires k <= |rs| && ValidRelations(rs, k, ancestors, maxCost)
    ensures SiblingNames(rs, k)
  {
    forall i | 0 <= i < k ensures '.' !in rs[i].name && rs[i].name != "" {
      assert ValidRelation(rs[i], ancestors, maxCost);
      NamesHaveNoDots(rs[i].name);
    }
  }

  /** A key owned by sibling i is looked up in the entries of sibling i, whatever follows it. */
  lemma {:induction false} IndexFindsOwner(rs: seq<RelationshipDefinition>, i: nat, k: nat, prefix: string, key: string)
    requires i < k <= |rs| && SiblingNames(rs, k)
    requires OwnedBy(FullName(prefix, rs[i].name), key) && key in EntriesOf(rs[i], FullName(prefix, rs[i].name))
    ensures key in IndexOf(rs, k, prefix)
    ensures IndexOf(rs, k, prefix)[key] == EntriesOf(rs[i], FullName(prefix, rs[i].name))[key]
  {
    hide IndexOf, EntriesOf, OwnedBy;
    IndexMembers(rs, k, prefix);
    if i + 1 < k {
      IndexFindsOwner(rs, i, k - 1, prefix, key);
      var r := rs[k - 1];
      SiblingsOwnApart(prefix, rs[i].name, r.name, key);
      if key in EntriesOf(r, FullName(prefix, r.name)) {
        EntriesOwned(r, FullName(prefix, r.name), key);
        assert false;
      }
    }
  }

  lemma {:induction false} ChainIsIndexed(rs: seq<RelationshipDefinition>, prefix: string,
                                          chain: seq<RelationshipDefinition>, ancestors: set<string>, maxCost: Int64)
    requires ValidRelations(rs, |rs|, ancestors, maxCost) && IsChain(rs, chain)
    ensures ChainNames(prefix, chain)[|chain| - 1] in IndexOf(rs, |rs|, prefix)
    ensures IndexOf(rs, |rs|, prefix)[ChainNames(prefix, chain)[|chain| - 1]].definition == chain[|chain| - 1]
    decreases |chain|
  {
    var i :| 0 <= i < |rs| && rs[i] == chain[0];
    ValidSiblings(rs, |rs|, ancestors, maxCost);
    EntryHoldsChain(rs[i], prefix, chain, ancestors, maxCost);
    IndexFindsOwner(rs, i, |rs|, prefix, ChainNames(prefix, chain)[|chain| - 1]);
  }

  lemma {:induction false} EntryHoldsChain(r: RelationshipDefinition, prefix: string,
                                           chain: seq<RelationshipDefinition>, ancestors: set<string>, maxCost: Int64)
    requires ValidRelation(r, ancestors, maxCost) && chain != [] && chain[0] == r
    requires |chain| > 1 ==> IsChain(r.relationships, chain[1..])
    ensures var key := ChainNames(prefix, chain)[|chain| - 1]; var full := FullName(prefix, r.name);
            OwnedBy(full, key) && key in EntriesOf(r, full) && EntriesOf(r, full)[key].definition == chain[|chain| - 1]
    decreases |chain|, 0
  {
    var full := FullName(prefix, r.name);
    if |chain| == 1 {
      if full in IndexOf(r.relationships, |r.relationships|, full) {
        IndexLiesBelow(r.relationships, |r.relationships|, full, full);
        assert false;
      }
    } else {
      var key := ChainNames(full, chain[1..])[|chain| - 2];
      assert ChainNames(prefix, chain)[|chain| - 1] == key;
      ChainIsIndexed(r.relationships, full, chain[1..], ancestors + {r.resource}, maxCost);
      IndexLiesBelow(r.relationships, |r.relationships|, full, key);
    }
  }

  /** Along a walk no resource recurs, and none is an ancestor. */
  lemma {:induction false} ChainResources(rs: seq<RelationshipDefinition>, chain: seq<RelationshipDefinition>,
                                          ancestors: set<string>, maxCost: Int64)
    requires ValidRelations(rs, |rs|, ancestors, maxCost) && IsChain(rs, chain)
    ensures forall i :: 0 <= i < |chain| ==>
              && chain[i].resource !in ancestors && CostDeclared(chain[i].cost, maxCost)
              && '.' !in chain[i].name && chain[i].name != ""
    ensures forall i, j :: 0 <= i < j < |chain| ==> chain[i].resource != chain[j].resource
    decreases |chain|
  {
    assert ValidRelation(chain[0], ancestors, maxCost);
    NamesHaveNoDots(chain[0].name);
    if |chain| > 1 {
      var tail := chain[1..];
      ChainResources(chain[0].relationships, tail, ancestors + {chain[0].resource}, maxCost);
      forall i | 0 < i < |chain| ensures chain[i] == tail[i - 1] {}
    }
  }

  lemma {:induction false} PrefixesAreChainNames(prefix: string, chain: seq<RelationshipDefinition>)
    requires chain != [] && forall i :: 0 <= i < |chain| ==> '.' !in chain[i].name && chain[i].name != ""
    ensures Prefixes(ChainNames(prefix, chain)[|chain| - 1])
         == (if prefix == "" then [] else Prefixes(prefix)) + ChainNames(prefix, chain)
    decreases |chain|
  {
    var full := FullName(prefix, chain[0].name);
    PrefixesOfFullName(prefix, chain[0].name);
    if |chain| == 1 {
      assert ChainNames(prefix, chain) == [full];
    } else {
      PrefixesAreChainNames(full, chain[1..]);
    }
  }

  /** The index of a well-formed tree is prefix-closed, its depths count the prefixes of the path,
      and no resource recurs along a path. */
  ghost predicate PrefixClosed(index: RelationIndex, root: set<string>, maxCost: Int64) {
    forall key <- index :: PathDeclared(index, key, root, maxCost)
  }

  ghost predicate PathDeclared(index: RelationIndex, key: string, root: set<string>, maxCost: Int64)
    requires key in index
  {
    index[key].depth == |Prefixes(key)| && EdgesDeclared(index, Prefixes(key), root, maxCost)
  }

  ghost predicate EdgesDeclared(index: RelationIndex, path: seq<string>, root: set<string>, maxCost: Int64) {
    && (forall i :: 0 <= i < |path| ==>
          && path[i] in index
          && CostDeclared(index[path[i]].definition.cost, maxCost)
          && index[path[i]].definition.resource !in root)
    && (forall i, j :: 0 <= i < j < |path| ==>
          index[path[i]].definition.resource != index[path[j]].definition.resource)
  }

  lemma IndexIsPrefixClosed(rs: seq<RelationshipDefinition>, root: set<string>, maxCost: Int64)
    requires ValidRelations(rs, |rs|, root, maxCost)
    ensures PrefixClosed(IndexOf(rs, |rs|, ""), root, maxCost)
  {
    forall key | key in IndexOf(rs, |rs|, "") ensures PathDeclared(IndexOf(rs, |rs|, ""), key, root, maxCost) {
      KeyPathDeclared(rs, key, root, maxCost);
    }
  }

  lemma KeyPathDeclared(rs: seq<RelationshipDefinition>, key: string, root: set<string>, maxCost: Int64)
    requires ValidRelations(rs, |rs|, root, maxCost) && key in IndexOf(rs, |rs|, "")
    ensures PathDeclared(IndexOf(rs, |rs|, ""), key, root, maxCost)
  {
    var chain := KeyHasChain(rs, |rs|, "", key);
    ChainResources(rs, chain, root, maxCost);
    PrefixesAreChainNames("", chain);
    forall i | 0 <= i < |chain|
      ensures ChainNames("", chain)[i] in IndexOf(rs, |rs|, "")
      ensures IndexOf(rs, |rs|, "")[ChainNames("", chain)[i]].definition == chain[i]
    {
      ChainPrefix(rs, chain, "", i + 1);
      ChainIsIndexed(rs, "", chain[..i + 1], root, maxCost);
    }
    PathFromChain(IndexOf(rs, |rs|, ""), ChainNames("", chain), chain, root, maxCost);
    DepthCountsPrefixes(key, |key|);
  }

  lemma PathFromChain(index: RelationIndex, path: seq<string>, chain: seq<RelationshipDefinition>,
                      root: set<string>, maxCost: Int64)
    requires |path| == |chain|
    requires forall i :: 0 <= i < |chain| ==>
               && path[i] in index && index[path[i]].definition == chain[i]
               && chain[i].resource !in root && CostDeclared(chain[i].cost, maxCost)
    requires forall i, j :: 0 <= i < j < |chain| ==> chain[i].resource != chain[j].resource
    ensures EdgesDeclared(index, path, root, maxCost)
  {
  }
}
