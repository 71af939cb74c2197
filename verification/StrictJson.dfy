/** The strict first pass over a JSON document. The library's decoder is a token machine over the
    lexemes of the text; the pass accepts exactly one value without repeated names, nested at most
    64 deep. */
module StrictJson {
  import opened Text
  import opened Types

  const MAX_DEPTH: int := 64

  // ---------------------------------------------------------------- the decoder's token machine

  /** What the scanner finds in the text; Broken is anything it cannot scan. */
  datatype Lexeme =
    | OpenObject | CloseObject | OpenArray | CloseArray | Colon | Comma
    | Text(text: string) | Literal(text: string) | Broken

  datatype Mode =
    | TopValue | ArrayStart | ArrayValue | ArrayComma
    | ObjectStart | ObjectKey | ObjectColon | ObjectValue | ObjectComma

  datatype State = State(rest: seq<Lexeme>, mode: Mode, stack: seq<Mode>)

  /** Failed is a syntax error, AtEnd the end of the text; commas and colons are never returned. */
  datatype Outcome = Failed | AtEnd | Got(token: Lexeme, next: State)

  predicate ValueAllowed(mode: Mode) { mode in {TopValue, ArrayStart, ArrayValue, ObjectValue} }

  function Ended(mode: Mode): Mode {
    match mode
    case ArrayStart | ArrayValue => ArrayComma
    case ObjectValue => ObjectComma
    case _ => mode
  }

  function Next(st: State): (r: Outcome)
    ensures r.Got? ==> |r.next.rest| < |st.rest|
    decreases |st.rest|
  {
    if st.rest == [] then AtEnd
    else
      var c, rest := st.rest[0], st.rest[1..];
      match c
      case OpenArray => if ValueAllowed(st.mode) then Got(c, State(rest, ArrayStart, st.stack + [st.mode])) else Failed
      case OpenObject => if ValueAllowed(st.mode) then Got(c, State(rest, ObjectStart, st.stack + [st.mode]))
        else Failed
      case CloseArray => if st.mode in {ArrayStart, ArrayComma} then Closed(c, rest, st.stack) else Failed
      case CloseObject => if st.mode in {ObjectStart, ObjectComma} then Closed(c, rest, st.stack) else Failed
      case Colon => if st.mode == ObjectColon then Next(State(rest, ObjectValue, st.stack)) else Failed
      case Comma =>
        if st.mode == ArrayComma then Next(State(rest, ArrayValue, st.stack))
        else if st.mode == ObjectComma then Next(State(rest, ObjectKey, st.stack))
        else Failed
      case Text(_) =>
        if st.mode in {ObjectStart, ObjectKey} then Got(c, State(rest, ObjectColon, st.stack))
        else if ValueAllowed(st.mode) then Got(c, State(rest, Ended(st.mode), st.stack))
        else Failed
      case Literal(_) => if ValueAllowed(st.mode) then Got(c, State(rest, Ended(st.mode), st.stack)) else Failed
      case Broken => Failed
  }

  /** Leaving a composite resumes the mode it was opened in; no mode is open that was not pushed. */
  function Closed(c: Lexeme, rest: seq<Lexeme>, stack: seq<Mode>): (r: Outcome)
    ensures r.Got? ==> r.next.rest == rest
  {
    if stack == [] then Failed else Got(c, State(rest, Ended(stack[|stack| - 1]), stack[..|stack| - 1]))
  }

  predicate More(st: State) { st.rest != [] && st.rest[0] != CloseArray && st.rest[0] != CloseObject }

  class Decoder {
    const input: seq<Lexeme>
    var position: nat
    var mode: Mode
    var stack: seq<Mode>

    ghost predicate Valid()
      reads this
    {
      position <= |input|
    }

    ghost function View(): State
      requires Valid()
      reads this
    {
      State(input[position..], mode, stack)
    }

    constructor (input: seq<Lexeme>)
      ensures Valid() && View() == State(input, TopValue, [])
    {
      this.input := input;
      position := 0;
      mode := TopValue;
      stack := [];
    }

    method HasMore() returns (more: bool)
      requires Valid()
      ensures more == More(View())
    {
      more := position < |input| && input[position] != CloseArray && input[position] != CloseObject;
    }

    /** The next token, skipping the commas and colons the mode expects. */
    method Token() returns (token: Option<Lexeme>, end: bool)
      requires Valid()
      modifies this
      ensures Valid()
      ensures end <==> Next(old(View())).AtEnd?
      ensures token.Some? <==> Next(old(View())).Got?
      ensures token.Some? ==> token.value == Next(old(View())).token && View() == Next(old(View())).next
    {
      while position < |input|
        invariant Valid() && Next(View()) == Next(old(View()))
        decreases |input| - position
      {
        var c := input[position];
        match c {
          case Colon =>
            if mode != ObjectColon { return None, false; }
            Advance(ObjectValue);
          case Comma =>
            if mode != ArrayComma && mode != ObjectComma { return None, false; }
            Advance(if mode == ArrayComma then ArrayValue else ObjectKey);
          case OpenArray | OpenObject =>
            if !ValueAllowed(mode) { return None, false; }
            stack := stack + [mode];
            Advance(if c == OpenArray then ArrayStart else ObjectStart);
            return Some(c), false;
          case CloseArray | CloseObject =>
            if mode !in (if c == CloseArray then {ArrayStart, ArrayComma} else {ObjectStart, ObjectComma})
              || stack == [] {
              return None, false;
            }
            var outer := stack[|stack| - 1];
            stack := stack[..|stack| - 1];
            Advance(Ended(outer));
            return Some(c), false;
          case Text(_) =>
            if mode != ObjectStart && mode != ObjectKey && !ValueAllowed(mode) { return None, false; }
            Advance(if mode == ObjectStart || mode == ObjectKey then ObjectColon else Ended(mode));
            return Some(c), false;
          case Literal(_) =>
            if !ValueAllowed(mode) { return None, false; }
            Advance(Ended(mode));
            return Some(c), false;
          case Broken =>
            return None, false;
        }
      }
      return None, true;
    }

    method Advance(next: Mode)
      requires Valid() && position < |input|
      modifies this`position, this`mode
      ensures Valid() && View() == State(old(View()).rest[1..], next, stack) && position == old(position) + 1
    {
      position := position + 1;
      mode := next;
    }
  }

  // ---------------------------------------------------------------- the pass, as a function of the machine

  /** The decoder is where a value may start. */
  predicate AtValue(st: State) {
    && st.mode in {TopValue, ObjectColon, ArrayStart, ArrayComma}
    && (st.mode in {ArrayStart, ArrayComma} ==> More(st))
  }

  function After(mode: Mode): Mode {
    match mode
    case ArrayStart | ArrayComma => ArrayComma
    case ObjectColon => ObjectComma
    case _ => mode
  }

  /** The separator the decoder skips before a value. */
  function Lead(mode: Mode): seq<Lexeme> {
    match mode
    case ObjectColon => [Colon]
    case ArrayComma | ObjectComma => [Comma]
    case _ => []
  }

  /** Skipping the separator. */
  function Led(mode: Mode): Mode {
    match mode
    case ObjectColon => ObjectValue
    case ArrayComma => ArrayValue
    case ObjectComma => ObjectKey
    case _ => mode
  }

  lemma NextSkips(st: State, rest: seq<Lexeme>)
    requires st.rest == Lead(st.mode) + rest
    ensures Lead(st.mode) != [] ==> Next(st) == Next(State(rest, Led(st.mode), st.stack))
    ensures Lead(st.mode) == [] ==> st == State(rest, Led(st.mode), st.stack)
  {
    if Lead(st.mode) != [] {
      assert st.rest[1..] == rest;
    }
  }

  /** A token where a value is allowed. */
  lemma DirectToken(st: State)
    requires ValueAllowed(st.mode) && Next(st).Got? && (st.mode == ArrayStart ==> More(st))
    ensures st.rest == [Next(st).token] + st.rest[1..] && Next(st).next.rest == st.rest[1..]
    ensures match Next(st).token
      case OpenArray => Next(st).next.mode == ArrayStart && Next(st).next.stack == st.stack + [st.mode]
      case OpenObject => Next(st).next.mode == ObjectStart && Next(st).next.stack == st.stack + [st.mode]
      case Text(_) | Literal(_) => Next(st).next.mode == Ended(st.mode) && Next(st).next.stack == st.stack
      case _ => false
  {
  }

  /** A token at a value is that of the value after the separator. */
  lemma ValueToken(st: State)
    requires AtValue(st) && Next(st).Got?
    ensures st.rest == Lead(st.mode) + [Next(st).token] + st.rest[|Lead(st.mode)| + 1..]
    ensures Next(st).next.rest == st.rest[|Lead(st.mode)| + 1..]
    ensures match Next(st).token
      case OpenArray => Next(st).next.mode == ArrayStart && Next(st).next.stack == st.stack + [Led(st.mode)]
      case OpenObject => Next(st).next.mode == ObjectStart && Next(st).next.stack == st.stack + [Led(st.mode)]
      case Text(_) | Literal(_) => Next(st).next.mode == After(st.mode) && Next(st).next.stack == st.stack
      case _ => false
  {
    if Lead(st.mode) != [] {
      assert st.rest == Lead(st.mode) + st.rest[1..] by {
        assert st.rest[0] == Lead(st.mode)[0];
        assert st.rest == [st.rest[0]] + st.rest[1..];
      }
      NextSkips(st, st.rest[1..]);
      hide Next;
      DirectToken(State(st.rest[1..], Led(st.mode), st.stack));
    } else {
      hide Next;
      DirectToken(st);
    }
  }

  lemma MemberToken(st: State)
    requires st.mode in {ObjectStart, ObjectComma} && More(st) && Next(st).Got?
    ensures st.rest == Lead(st.mode) + [Next(st).token] + Next(st).next.rest
  {
    if st.mode == ObjectStart {
      assert st.rest == [st.rest[0]] + st.rest[1..];
    } else {
      assert st.rest == [st.rest[0], st.rest[1]] + st.rest[2..];
    }
  }

  /** Inside an object the token before a value is always a name. */
  lemma MemberIsText(st: State)
    requires st.mode in {ObjectStart, ObjectComma} && More(st)
    ensures Next(st).Got? ==>
      Next(st).token.Text? && Next(st).next.mode == ObjectColon && Next(st).next.stack == st.stack
  {
  }

  function Validate(st: State, depth: int): (r: Option<State>)
    requires AtValue(st)
    ensures r.Some? ==> |r.value.rest| < |st.rest| && r.value.mode == After(st.mode) && r.value.stack == st.stack
    decreases |st.rest|, 1
  {
    if depth > MAX_DEPTH then None
    else
      match Next(st)
      case Got(OpenObject, next) => ValueToken(st); ValidateMembers(next, depth, {})
      case Got(OpenArray, next) => ValueToken(st); ValidateItems(next, depth)
      case Got(_, next) => ValueToken(st); Some(next)
      case _ => None
  }

  function Close(st: State): (r: Option<State>)
    ensures r.Some? ==> |r.value.rest| < |st.rest|
  {
    match Next(st)
    case Got(_, next) => Some(next)
    case _ => None
  }

  function ValidateItems(st: State, depth: int): (r: Option<State>)
    requires st.mode in {ArrayStart, ArrayComma} && st.stack != []
    ensures r.Some? ==>
      && |r.value.rest| < |st.rest|
      && r.value.mode == Ended(st.stack[|st.stack| - 1]) && r.value.stack == st.stack[..|st.stack| - 1]
    decreases |st.rest|, 2
  {
    if !More(st) then Close(st)
    else
      match Validate(st, depth + 1)
      case None => None
      case Some(after) => ValidateItems(after, depth)
  }

  function ValidateMembers(st: State, depth: int, seen: set<string>): (r: Option<State>)
    requires st.mode in {ObjectStart, ObjectComma} && st.stack != []
    ensures r.Some? ==>
      && |r.value.rest| < |st.rest|
      && r.value.mode == Ended(st.stack[|st.stack| - 1]) && r.value.stack == st.stack[..|st.stack| - 1]
    decreases |st.rest|, 2
  {
    if !More(st) then Close(st)
    else
      match Next(st)
      case Got(Text(name), next) =>
        if name in seen then None
        else
          MemberIsText(st);
          (match Validate(next, depth + 1)
           case None => None
           case Some(after) => ValidateMembers(after, depth, seen + {name}))
      case _ => None
  }

  // ---------------------------------------------------------------- the pass

  method ValidateValue(decoder: Decoder, depth: int) returns (ok: bool)
    requires decoder.Valid() && AtValue(decoder.View())
    modifies decoder
    ensures decoder.Valid()
    ensures ok <==> Validate(old(decoder.View()), depth).Some?
    ensures ok ==> decoder.View() == Validate(old(decoder.View()), depth).value
    decreases |decoder.View().rest|, 1
  {
    if depth > MAX_DEPTH {
      return false;
    }
    var token, end := decoder.Token();
    if token.None? {
      return false;
    }
    ValueToken(old(decoder.View()));
    match token.value {
      case OpenObject => ok := ValidateObject(decoder, depth);
      case OpenArray => ok := ValidateArray(decoder, depth);
      case _ => ok := true;
    }
  }

  method ValidateObject(decoder: Decoder, depth: int) returns (ok: bool)
    requires decoder.Valid() && decoder.View().mode in {ObjectStart, ObjectComma} && decoder.View().stack != []
    modifies decoder
    ensures decoder.Valid()
    ensures ok <==> ValidateMembers(old(decoder.View()), depth, {}).Some?
    ensures ok ==> decoder.View() == ValidateMembers(old(decoder.View()), depth, {}).value
    decreases |decoder.View().rest|, 2
  {
    hide Validate, Next;
    var seen: set<string> := {};
    ghost var start := decoder.View();
    while true
      invariant decoder.Valid() && decoder.View().mode in {ObjectStart, ObjectComma} && decoder.View().stack != []
      invariant |decoder.View().rest| <= |start.rest|
      invariant ValidateMembers(decoder.View(), depth, seen) == ValidateMembers(start, depth, {})
      decreases |decoder.View().rest|
    {
      var more := decoder.HasMore();
      if !more { break; }
      MemberIsText(decoder.View());
      var member, end := decoder.Token();
      if member.None? { return false; }
      var name := member.value.text;
      if name in seen { return false; }
      ok := ValidateValue(decoder, depth + 1);
      if !ok { return false; }
      seen := seen + {name};
    }
    var token, finished := decoder.Token();
    ok := token.Some?;
  }

  method ValidateArray(decoder: Decoder, depth: int) returns (ok: bool)
    requires decoder.Valid() && decoder.View().mode in {ArrayStart, ArrayComma} && decoder.View().stack != []
    modifies decoder
    ensures decoder.Valid()
    ensures ok <==> ValidateItems(old(decoder.View()), depth).Some?
    ensures ok ==> decoder.View() == ValidateItems(old(decoder.View()), depth).value
    decreases |decoder.View().rest|, 2
  {
    hide Validate, Next;
    ghost var start := decoder.View();
    while true
      invariant decoder.Valid() && decoder.View().mode in {ArrayStart, ArrayComma} && decoder.View().stack != []
      invariant |decoder.View().rest| <= |start.rest|
      invariant ValidateItems(decoder.View(), depth) == ValidateItems(start, depth)
      decreases |decoder.View().rest|
    {
      var more := decoder.HasMore();
      if !more { break; }
      ok := ValidateValue(decoder, depth + 1);
      if !ok { return false; }
    }
    var token, finished := decoder.Token();
    ok := token.Some?;
  }

  method RequireEnd(decoder: Decoder) returns (ok: bool)
    requires decoder.Valid()
    modifies decoder
    ensures ok <==> Next(old(decoder.View())).AtEnd?
  {
    var token, end := decoder.Token();
    ok := end;
  }

  // ---------------------------------------------------------------- JSON documents

  datatype Json = Leaf(lexeme: Lexeme) | Array(items: Items) | Object(members: Members)
  datatype Items = NoItems | Item(head: Json, tail: Items)
  datatype Members = NoMembers | Member(name: string, value: Json, rest: Members)

  function Lexemes(v: Json): seq<Lexeme> {
    match v
    case Leaf(lexeme) => [lexeme]
    case Array(items) => [OpenArray] + ItemLexemes(items, true)
    case Object(members) => [OpenObject] + MemberLexemes(members, true)
  }

  function Separator(first: bool): seq<Lexeme> { if first then [] else [Comma] }

  function ItemLexemes(items: Items, first: bool): seq<Lexeme> {
    match items
    case NoItems => [CloseArray]
    case Item(head, tail) => Separator(first) + Lexemes(head) + ItemLexemes(tail, false)
  }

  function MemberLexemes(members: Members, first: bool): seq<Lexeme> {
    match members
    case NoMembers => [CloseObject]
    case Member(name, value, rest) =>
      Separator(first) + [Text(name), Colon] + Lexemes(value) + MemberLexemes(rest, false)
  }

  function Names(members: Members): seq<string> {
    match members
    case NoMembers => []
    case Member(name, _, rest) => [name] + Names(rest)
  }

  /** A document: its leaves are strings and literals, and no object repeats a name. */
  ghost predicate Strict(v: Json) {
    match v
    case Leaf(lexeme) => lexeme.Text? || lexeme.Literal?
    case Array(items) => StrictItems(items)
    case Object(members) => Distinct(Names(members)) && StrictMembers(members)
  }

  ghost predicate StrictItems(items: Items) {
    items.Item? ==> Strict(items.head) && StrictItems(items.tail)
  }

  ghost predicate StrictMembers(members: Members) {
    members.Member? ==> Strict(members.value) && StrictMembers(members.rest)
  }

  function Larger(a: int, b: int): int { if a < b then b else a }

  function Depth(v: Json): (n: int)
    ensures n >= 1
  {
    match v
    case Leaf(_) => 1
    case Array(items) => 1 + ItemsDepth(items)
    case Object(members) => 1 + MembersDepth(members)
  }

  function ItemsDepth(items: Items): (n: int)
    ensures n >= 0
  {
    if items.NoItems? then 0 else Larger(Depth(items.head), ItemsDepth(items.tail))
  }

  function MembersDepth(members: Members): (n: int)
    ensures n >= 0
  {
    if members.NoMembers? then 0 else Larger(Depth(members.value), MembersDepth(members.rest))
  }

  // ---------------------------------------------------------------- accepted text is a document

  lemma CloseToken(st: State)
    requires st.mode in {ArrayStart, ArrayComma, ObjectStart, ObjectComma} && !More(st) && Close(st).Some?
    ensures st.rest == [if st.mode in {ArrayStart, ArrayComma} then CloseArray else CloseObject] + Close(st).value.rest
  {
  }

  lemma {:induction false} AcceptedValue(st: State, depth: int) returns (v: Json)
    requires AtValue(st) && Validate(st, depth).Some?
    ensures st.rest == Lead(st.mode) + Lexemes(v) + Validate(st, depth).value.rest
    ensures Strict(v) && depth + Depth(v) - 1 <= MAX_DEPTH
    decreases |st.rest|, 1
  {
    ValueToken(st);
    var got, token := Next(st), Next(st).token;
    var end := Validate(st, depth).value.rest;
    hide Next, Lead;
    match token {
      case OpenArray =>
        var items := AcceptedItems(got.next, depth);
        v := Array(items);
        hide Validate;
        OpenedPieces(Lead(st.mode), OpenArray, ItemLexemes(items, true), end);
      case OpenObject =>
        var members := AcceptedMembers(got.next, depth, {});
        v := Object(members);
        hide Validate;
        OpenedPieces(Lead(st.mode), OpenObject, MemberLexemes(members, true), end);
      case _ =>
        v := Leaf(token);
    }
  }

  lemma {:induction false} AcceptedItems(st: State, depth: int) returns (items: Items)
    requires st.mode in {ArrayStart, ArrayComma} && st.stack != [] && ValidateItems(st,
        depth).Some? && depth <= MAX_DEPTH
    ensures st.rest == ItemLexemes(items, st.mode == ArrayStart) + ValidateItems(st, depth).value.rest
    ensures StrictItems(items) && depth + ItemsDepth(items) <= MAX_DEPTH
    decreases |st.rest|, 2
  {
    if More(st) {
      var after := Validate(st, depth + 1).value;
      var head := AcceptedValue(st, depth + 1);
      var tail := AcceptedItems(after, depth);
      items := Item(head, tail);
      hide Next, Validate;
      assert Lead(st.mode) == Separator(st.mode == ArrayStart);
      ConcatAssociates(Lead(st.mode) + Lexemes(head), ItemLexemes(tail, false), ValidateItems(st, depth).value.rest);
    } else {
      CloseToken(st);
      items := NoItems;
    }
  }

  lemma {:induction false} AcceptedMembers(st: State, depth: int, seen: set<string>) returns (members: Members)
    requires st.mode in {ObjectStart, ObjectComma} && st.stack != [] && ValidateMembers(st, depth,
        seen).Some? && depth <= MAX_DEPTH
    ensures st.rest == MemberLexemes(members, st.mode == ObjectStart) + ValidateMembers(st, depth, seen).value.rest
    ensures StrictMembers(members) && depth + MembersDepth(members) <= MAX_DEPTH
    ensures Distinct(Names(members)) && forall n <- Names(members) :: n !in seen
    decreases |st.rest|, 2
  {
    if More(st) {
      MemberIsText(st);
      MemberToken(st);
      var name, next := Next(st).token.text, Next(st).next;
      hide Next;
      var after := Validate(next, depth + 1).value;
      var value := AcceptedValue(next, depth + 1);
      var rest := AcceptedMembers(after, depth, seen + {name});
      members := Member(name, value, rest);
      hide Validate;
      DistinctConcat([name], Names(rest));
      MemberPieces(Lead(st.mode), name, Lexemes(value), MemberLexemes(rest, false),
                   ValidateMembers(st, depth, seen).value.rest);
    } else {
      CloseToken(st);
      members := NoMembers;
    }
  }

  lemma MemberPieces(lead: seq<Lexeme>, name: string, value: seq<Lexeme>, more: seq<Lexeme>, rest: seq<Lexeme>)
    ensures lead + [Text(name)] + ([Colon] + value + (more + rest)) == lead + [Text(name), Colon] + value + more + rest
  {
  }

  // ---------------------------------------------------------------- every document is accepted

  lemma TokenAt(st: State, token: Lexeme, rest: seq<Lexeme>)
    requires st.mode in {TopValue, ObjectColon, ArrayStart, ArrayComma} && st.rest == Lead(st.mode) + [token] + rest
    requires token.OpenArray? || token.OpenObject? || token.Text? || token.Literal?
    ensures AtValue(st)
    ensures Next(st) == Got(token,
              if token.OpenArray? then State(rest, ArrayStart, st.stack + [Led(st.mode)])
              else if token.OpenObject? then State(rest, ObjectStart, st.stack + [Led(st.mode)])
              else State(rest, After(st.mode), st.stack))
  {
    ConcatAssociates(Lead(st.mode), [token], rest);
    NextSkips(st, [token] + rest);
    ValueNext(token, rest, Led(st.mode), st.stack);
    hide Next;
  }

  lemma ValueNext(token: Lexeme, rest: seq<Lexeme>, mode: Mode, stack: seq<Mode>)
    requires ValueAllowed(mode) && (token.OpenArray? || token.OpenObject? || token.Text? || token.Literal?)
    ensures Next(State([token] + rest, mode, stack)) == Got(token,
              if token.OpenArray? then State(rest, ArrayStart, stack + [mode])
              else if token.OpenObject? then State(rest, ObjectStart, stack + [mode])
              else State(rest, Ended(mode), stack))
  {
    assert ([token] + rest)[1..] == rest;
  }

  lemma Outermost(stack: seq<Mode>, mode: Mode)
    ensures (stack + [mode])[|stack + [mode]| - 1] == mode && (stack + [mode])[..|stack + [mode]| - 1] == stack
  {
  }

  lemma {:induction false} ValueAccepted(v: Json, st: State, depth: int, tail: seq<Lexeme>)
    requires Strict(v) && depth + Depth(v) - 1 <= MAX_DEPTH
    requires st.mode in {TopValue, ObjectColon, ArrayStart, ArrayComma} && st.rest == Lead(st.mode) + Lexemes(v) + tail
    ensures AtValue(st) && Validate(st, depth) == Some(State(tail, After(st.mode), st.stack))
    decreases v, 0
  {
    match v {
      case Leaf(lexeme) => hide Next; TokenAt(st, lexeme, tail);
      case Array(items) => ArrayAccepted(items, st, depth, tail);
      case Object(members) => ObjectAccepted(members, st, depth, tail);
    }
  }

  lemma {:induction false} ArrayAccepted(items: Items, st: State, depth: int, tail: seq<Lexeme>)
    requires StrictItems(items) && depth + ItemsDepth(items) <= MAX_DEPTH
    requires st.mode in {TopValue, ObjectColon, ArrayStart,
                         ArrayComma} && st.rest == Lead(st.mode) + Lexemes(Array(items)) + tail
    ensures AtValue(st) && Validate(st, depth) == Some(State(tail, After(st.mode), st.stack))
    decreases items, 1
  {
    var lead, mode := Lead(st.mode), Led(st.mode);
    assert Lexemes(Array(items)) == [OpenArray] + ItemLexemes(items, true);
    assert ItemsDepth(items) >= 0;
    hide Next, Lexemes, ItemLexemes, Lead, Led, StrictItems, ItemsDepth;
    OpenedPieces(lead, OpenArray, ItemLexemes(items, true), tail);
    TokenAt(st, OpenArray, ItemLexemes(items, true) + tail);
    Outermost(st.stack, mode);
    ItemsAccepted(items, State(ItemLexemes(items, true) + tail, ArrayStart, st.stack + [mode]), depth, tail);
  }

  lemma {:induction false} ObjectAccepted(members: Members, st: State, depth: int, tail: seq<Lexeme>)
    requires Distinct(Names(members)) && StrictMembers(members) && depth + MembersDepth(members) <= MAX_DEPTH
    requires st.mode in {TopValue, ObjectColon, ArrayStart,
                         ArrayComma} && st.rest == Lead(st.mode) + Lexemes(Object(members)) + tail
    ensures AtValue(st) && Validate(st, depth) == Some(State(tail, After(st.mode), st.stack))
    decreases members, 1
  {
    var lead, mode := Lead(st.mode), Led(st.mode);
    assert Lexemes(Object(members)) == [OpenObject] + MemberLexemes(members, true);
    assert MembersDepth(members) >= 0;
    hide Next, Lexemes, MemberLexemes, Lead, Led, StrictMembers, MembersDepth, Distinct, Names;
    OpenedPieces(lead, OpenObject, MemberLexemes(members, true), tail);
    TokenAt(st, OpenObject, MemberLexemes(members, true) + tail);
    Outermost(st.stack, mode);
    MembersAccepted(members, State(MemberLexemes(members, true) + tail, ObjectStart, st.stack + [mode]), depth, {},
                    tail);
  }

  lemma OpenedPieces(lead: seq<Lexeme>, open_: Lexeme, inner: seq<Lexeme>, tail: seq<Lexeme>)
    ensures lead + ([open_] + inner) + tail == lead + [open_] + (inner + tail)
  {
  }

  lemma CloseAt(st: State, tail: seq<Lexeme>)
    requires st.stack != []
    requires st.mode in {ArrayStart, ArrayComma, ObjectStart, ObjectComma}
    requires st.rest == [if st.mode in {ArrayStart, ArrayComma} then CloseArray else CloseObject] + tail
    ensures !More(st) && Close(st) == Some(State(tail, Ended(st.stack[|st.stack| - 1]), st.stack[..|st.stack| - 1]))
  {
    assert st.rest[1..] == tail;
  }

  lemma {:induction false} ItemsAccepted(items: Items, st: State, depth: int, tail: seq<Lexeme>)
    requires StrictItems(items) && depth + ItemsDepth(items) <= MAX_DEPTH
    requires st.mode in {ArrayStart, ArrayComma} && st.stack != []
    requires st.rest == ItemLexemes(items, st.mode == ArrayStart) + tail
    ensures ValidateItems(st, depth) == Some(State(tail, Ended(st.stack[|st.stack| - 1]), st.stack[..|st.stack| - 1]))
    decreases items, 0
  {
    hide Next, Validate, Close;
    match items {
      case NoItems =>
        CloseAt(st, tail);
      case Item(head, more) =>
        var rest := ItemLexemes(more, false) + tail;
        assert Separator(st.mode == ArrayStart) == Lead(st.mode);
        ConcatAssociates(Lead(st.mode) + Lexemes(head), ItemLexemes(more, false), tail);
        hide Lead, Separator, StrictMembers;
        ValueAccepted(head, st, depth + 1, rest);
        hide Lexemes, ItemLexemes;
        ItemsAccepted(more, State(rest, ArrayComma, st.stack), depth, tail);
    }
  }

  lemma {:induction false} MembersAccepted(members: Members, st: State, depth: int, seen: set<string>,
                                           tail: seq<Lexeme>)
    requires StrictMembers(members) && depth + MembersDepth(members) <= MAX_DEPTH
    requires Distinct(Names(members)) && forall n <- Names(members) :: n !in seen
    requires st.mode in {ObjectStart, ObjectComma} && st.stack != []
    requires st.rest == MemberLexemes(members, st.mode == ObjectStart) + tail
    ensures ValidateMembers(st, depth, seen)
      == Some(State(tail, Ended(st.stack[|st.stack| - 1]), st.stack[..|st.stack| - 1]))
    decreases members, 0
  {
    hide Next, Validate, Close;
    match members {
      case NoMembers =>
        CloseAt(st, tail);
      case Member(name, value, more) =>
        var rest := MemberLexemes(more, false) + tail;
        var next, after := State([Colon] + Lexemes(value) + rest, ObjectColon, st.stack),
          State(rest, ObjectComma, st.stack);
        assert Separator(st.mode == ObjectStart) == Lead(st.mode);
        assert Names(members) == [name] + Names(more);
        DistinctConcat([name], Names(more));
        assert name in Names(members) && forall n <- Names(more) :: n in Names(members);
        hide ValidateMembers, Distinct, Names;
        MemberPieces(Lead(st.mode), name, Lexemes(value), MemberLexemes(more, false), tail);
        NextName(st, name, next.rest);
        hide MemberLexemes, StrictItems, ItemLexemes, Lead, Separator, More;
        ValueAccepted(value, next, depth + 1, rest);
        MembersStep(st, depth, seen, name, next, after);
        MembersAccepted(more, after, depth, seen + {name}, tail);
    }
  }

  lemma MembersStep(st: State, depth: int, seen: set<string>, name: string, next: State, after: State)
    requires st.mode in {ObjectStart, ObjectComma} && st.stack != [] && More(st) && Next(st) == Got(Text(name), next)
    requires name !in seen && AtValue(next) && Validate(next, depth + 1) == Some(after)
    requires after.mode == ObjectComma && after.stack != []
    ensures ValidateMembers(st, depth, seen) == ValidateMembers(after, depth, seen + {name})
  {
    hide Next, Validate;
  }

  lemma NextName(st: State, name: string, rest: seq<Lexeme>)
    requires st.mode in {ObjectStart, ObjectComma} && st.rest == Lead(st.mode) + [Text(name)] + rest
    ensures More(st) && Next(st) == Got(Text(name), State(rest, ObjectColon, st.stack))
  {
    ConcatAssociates(Lead(st.mode), [Text(name)], rest);
    NextSkips(st, [Text(name)] + rest);
    assert ([Text(name)] + rest)[1..] == rest;
  }

  // ---------------------------------------------------------------- the whole first pass

  /** Two passes of the machine: a value, then the end of the text. */
  predicate Passes(input: seq<Lexeme>) {
    var value := Validate(State(input, TopValue, []), 1);
    value.Some? && Next(value.value).AtEnd?
  }

  lemma PassedIsStrict(input: seq<Lexeme>) returns (v: Json)
    requires Passes(input)
    ensures Strict(v) && Depth(v) <= MAX_DEPTH && input == Lexemes(v)
  {
    var start := State(input, TopValue, []);
    v := AcceptedValue(start, 1);
    var end := Validate(start, 1);
    TopEnd(end);
    hide Validate, Next;
    assert Lexemes(v) + [] == Lexemes(v) && [] + Lexemes(v) == Lexemes(v);
  }

  lemma StrictPasses(input: seq<Lexeme>, v: Json)
    requires Strict(v) && Depth(v) <= MAX_DEPTH && input == Lexemes(v)
    ensures Passes(input)
  {
    var start := State(input, TopValue, []);
    assert [] + Lexemes(v) + [] == Lexemes(v);
    assert Lead(TopValue) == [];
    hide Validate, Lexemes, Strict, Depth;
    ValueAccepted(v, start, 1, []);
  }

  /** The first pass accepts exactly the texts of one document in which no object, at any level,
      repeats a name and which nests at most 64 deep, when their size in bytes is within bounds; it
      consumes that document and nothing else. */
  method FirstPass(input: seq<Lexeme>, size: int, maxBytes: int) returns (ok: bool)
    ensures ok <==>
      && size != 0 && size <= maxBytes
      && exists v :: Strict(v) && Depth(v) <= 64 && input == Lexemes(v)
  {
    if size == 0 || size > maxBytes {
      return false;
    }
    ok := RunFirstPass(input);
    hide Passes, Strict, Depth, Lexemes;
    if ok {
      ghost var v := PassedIsStrict(input);
    }
    forall v | Strict(v) && Depth(v) <= MAX_DEPTH && input == Lexemes(v) ensures ok {
      StrictPasses(input, v);
    }
  }

  method RunFirstPass(input: seq<Lexeme>) returns (ok: bool)
    ensures ok <==> Passes(input)
  {
    hide Validate, Next;
    var decoder := new Decoder(input);
    ok := ValidateValue(decoder, 1);
    if ok {
      ok := RequireEnd(decoder);
    }
  }

  lemma TopEnd(accepted: Option<State>)
    requires accepted.Some? ==> accepted.value.mode == TopValue
    ensures accepted.Some? ==> (Next(accepted.value).AtEnd? <==> accepted.value.rest == [])
  {
  }
}
