/** What the first pass looks for in a document, said of every value in it: how deep it lies, and that no object
    repeats a name. */
module JsonNesting {
  import opened Text
  import opened StrictJson

  function Listed(items: Items): seq<Json> {
    if items.NoItems? then [] else [items.head] + Listed(items.tail)
  }

  function Values(members: Members): seq<Json> {
    if members.NoMembers? then [] else [members.value] + Values(members.rest)
  }

  /** The values right inside v. */
  function Children(v: Json): seq<Json> {
    match v
    case Leaf(_) => []
    case Array(items) => Listed(items)
    case Object(members) => Values(members)
  }

  /** The value these steps inwards lead to. */
  function Inside(v: Json, steps: seq<nat>): Option<Json>
    decreases |steps|
  {
    if steps == [] then Some(v)
    else if steps[0] < |Children(v)| then Inside(Children(v)[steps[0]], steps[1..])
    else None
  }

  /** No value lies inside most or more others. */
  ghost predicate Nests(v: Json, most: int) {
    forall steps :: Inside(v, steps).Some? ==> |steps| < most
  }

  /** A scalar is one token, and the members of an object are told apart by their names. */
  ghost predicate PlainHere(v: Json) {
    match v
    case Leaf(lexeme) => lexeme.Text? || lexeme.Literal?
    case Array(_) => true
    case Object(members) => forall i, j :: 0 <= i < j < |Names(members)| ==> Names(members)[i] != Names(members)[j]
  }

  ghost predicate PlainThroughout(v: Json) {
    forall steps :: Inside(v, steps).Some? ==> PlainHere(Inside(v, steps).value)
  }

  lemma InsideStep(v: Json, i: nat, steps: seq<nat>)
    requires i < |Children(v)|
    ensures Inside(v, [i] + steps) == Inside(Children(v)[i], steps)
  {
    assert ([i] + steps)[1..] == steps;
  }

  lemma NestsStep(v: Json, most: int)
    ensures Nests(v, most) <==> most >= 1 && forall x <- Children(v) :: Nests(x, most - 1)
  {
    hide Children;
    if Nests(v, most) {
      assert Inside(v, []).Some?;
      forall x, steps | x in Children(v) && Inside(x, steps).Some? ensures |steps| < most - 1 {
        var i :| 0 <= i < |Children(v)| && Children(v)[i] == x;
        InsideStep(v, i, steps);
        assert |[i] + steps| == 1 + |steps|;
      }
    }
    if most >= 1 && forall x <- Children(v) :: Nests(x, most - 1) {
      forall steps | Inside(v, steps).Some? ensures |steps| < most {
        if steps != [] {
          assert Children(v)[steps[0]] in Children(v);
          assert Nests(Children(v)[steps[0]], most - 1);
          assert Inside(v, steps) == Inside(Children(v)[steps[0]], steps[1..]);
        }
      }
    }
  }

  lemma PlainStep(v: Json)
    ensures PlainThroughout(v) <==> PlainHere(v) && forall x <- Children(v) :: PlainThroughout(x)
  {
    hide Children, PlainHere;
    if PlainThroughout(v) {
      assert Inside(v, []) == Some(v);
      forall x, steps | x in Children(v) && Inside(x, steps).Some? ensures PlainHere(Inside(x, steps).value) {
        var i :| 0 <= i < |Children(v)| && Children(v)[i] == x;
        InsideStep(v, i, steps);
      }
    }
    if PlainHere(v) && forall x <- Children(v) :: PlainThroughout(x) {
      forall steps | Inside(v, steps).Some? ensures PlainHere(Inside(v, steps).value) {
        if steps != [] {
          assert PlainThroughout(Children(v)[steps[0]]);
          assert Inside(v, steps) == Inside(Children(v)[steps[0]], steps[1..]);
        }
      }
    }
  }

  /** The depth of a document bounds how many values any value in it lies inside. */
  lemma {:induction false} DepthIsNesting(v: Json, most: int)
    ensures Depth(v) <= most <==> Nests(v, most)
  {
    NestsStep(v, most);
    hide Nests;
    match v {
      case Leaf(_) =>
      case Array(items) =>
        assert Children(v) == Listed(items);
        ItemsNesting(items, most - 1);
      case Object(members) =>
        assert Children(v) == Values(members);
        MembersNesting(members, most - 1);
    }
  }

  lemma {:induction false} ItemsNesting(items: Items, most: int)
    ensures ItemsDepth(items) <= most <==> most >= 0 && forall x <- Listed(items) :: Nests(x, most)
  {
    hide Nests;
    if items.Item? {
      DepthIsNesting(items.head, most);
      ItemsNesting(items.tail, most);
      assert Listed(items)[0] == items.head;
      assert forall x :: x in Listed(items) <==> x == items.head || x in Listed(items.tail);
    }
  }

  lemma {:induction false} MembersNesting(members: Members, most: int)
    ensures MembersDepth(members) <= most <==> most >= 0 && forall x <- Values(members) :: Nests(x, most)
  {
    hide Nests;
    if members.Member? {
      DepthIsNesting(members.value, most);
      MembersNesting(members.rest, most);
      assert Values(members)[0] == members.value;
      assert forall x :: x in Values(members) <==> x == members.value || x in Values(members.rest);
    }
  }

  /** A document is strict exactly when each of its values is. */
  lemma {:induction false} StrictIsPlain(v: Json)
    ensures Strict(v) <==> PlainThroughout(v)
  {
    PlainStep(v);
    hide PlainThroughout;
    match v {
      case Leaf(_) =>
      case Array(items) => ItemsPlain(items);
      case Object(members) => MembersPlain(members);
    }
  }

  lemma {:induction false} ItemsPlain(items: Items)
    ensures StrictItems(items) <==> forall x <- Listed(items) :: PlainThroughout(x)
  {
    hide PlainThroughout;
    if items.Item? {
      StrictIsPlain(items.head);
      ItemsPlain(items.tail);
      assert Listed(items)[0] == items.head;
      assert forall x :: x in Listed(items) <==> x == items.head || x in Listed(items.tail);
    }
  }

  lemma {:induction false} MembersPlain(members: Members)
    ensures StrictMembers(members) <==> forall x <- Values(members) :: PlainThroughout(x)
  {
    hide PlainThroughout;
    if members.Member? {
      StrictIsPlain(members.value);
      MembersPlain(members.rest);
      assert Values(members)[0] == members.value;
      assert forall x :: x in Values(members) <==> x == members.value || x in Values(members.rest);
    }
  }

  /** The first pass accepts exactly the nonempty texts within the size bound that are one document in which no
      value lies inside 64 others, no object repeats a name, and every scalar is one token. */
  method FirstPassExactly(input: seq<Lexeme>, size: int, maxBytes: int) returns (ok: bool)
    ensures ok <==>
      size != 0 && size <= maxBytes && exists v :: PlainThroughout(v) && Nests(v, 64) && input == Lexemes(v)
  {
    ok := FirstPass(input, size, maxBytes);
    forall v ensures Strict(v) <==> PlainThroughout(v) ensures Depth(v) <= 64 <==> Nests(v, 64) {
      StrictIsPlain(v);
      DepthIsNesting(v, 64);
    }
    hide Strict, Depth, PlainThroughout, Nests, Lexemes;
  }
}
