/** The capped violation list of errors.go, and the application's authorizer. */
module Violations {
  import opened Text
  import opened Types
  import opened PlanHeap

  /** What a collector with this limit retains of everything reported to it. */
  function Capped(limit: int, all: seq<Violation>): seq<Violation> {
    if 0 < limit < |all| then all[..limit] else all
  }

  /** No limit hides that something was reported; a limit keeps that many from the front, and none keeps all. */
  lemma CappedKeepsVerdict(limit: int, all: seq<Violation>)
    ensures Capped(limit, all) == [] <==> all == []
    ensures Capped(limit, all) <= all
    ensures |Capped(limit, all)| == if limit > 0 && limit < |all| then limit else |all|
  {
  }

  /** These codes, in this order, about one element of a list. */
  function About(path: string, codes: seq<ErrorCode>): seq<Violation> {
    seq(|codes|, i requires 0 <= i < |codes| => Violation(codes[i], path))
  }

  /** One code, when there is a cause for it. */
  function When(cause: bool, code: ErrorCode): seq<ErrorCode> { if cause then [code] else [] }

  class Collector {
    const limit: int
    var items: seq<Violation>
    ghost var all: seq<Violation>

    ghost predicate Valid()
      reads this
    {
      items == Capped(limit, all)
    }

    constructor (limit: int)
      ensures Valid() && all == [] && this.limit == limit
    {
      this.limit := limit;
      items := [];
      all := [];
    }

    method Add(code: ErrorCode, path: string)
      requires Valid()
      modifies this
      ensures Valid() && all == old(all) + [Violation(code, path)]
    {
      all := all + [Violation(code, path)];
      if limit > 0 && |items| >= limit {
        return;
      }
      items := items + [Violation(code, path)];
    }

    /** None is Go's nil error. */
    function Err(): (err: Option<seq<Violation>>)
      requires Valid()
      reads this
      ensures err.None? <==> all == []
      ensures err.Some? ==> err.value == Capped(limit, all)
    {
      if |items| == 0 then None else Some(items)
    }
  }

  /** The application of one request: its authorizer and decoder, with the calls made into them recorded
      beside it. Held is every object it can reach; the decoder may keep the sort list it is passed and
      the state it hands out. */
  class Authority {
    const options: CompileOptions
    ghost var calls: seq<Callback>
    ghost var Held: set<object>

    constructor (options: CompileOptions, ghost held: set<object>)
      ensures this.options == options && calls == [] && Held == held
    {
      this.options := options;
      calls := [];
      Held := held;
    }

    method Authorized(kind: CapabilityKind, name: string) returns (ok: bool)
      modifies this`calls
      ensures ok == Permits(options, kind, name)
      ensures calls == old(calls) + Asking(options, kind, name)
    {
      if options.authorize.None? {
        return true;
      }
      ok := options.authorize.value(Capability(kind, name));
      calls := calls + [Asked(Capability(kind, name))];
    }

    /** The answer may be an object the application made now or one it had already. */
    method Decode(token: string, revision: string, sorts: array<SortTerm>) returns (state: CursorCell?)
      requires options.decoder.Some?
      modifies this
      ensures StateOf(state) == options.decoder.value(token, revision, sorts[..])
      ensures calls == old(calls) + [Decoded(token, revision, sorts[..])]
      ensures CursorObjects(state) <= Held && Gained(this, {sorts})
    {
      calls := calls + [Decoded(token, revision, sorts[..])];
      Held := Held + {sorts};
      var answer := options.decoder.value(token, revision, sorts[..]);
      if answer.None? {
        return null;
      }
      var positions := new Value[|answer.value.positions|](i requires 0 <= i < |answer.value.positions| =>
                                                           answer.value.positions[i]);
      assert positions[..] == answer.value.positions;
      state := new CursorCell(answer.value.direction, positions, answer.value.policy);
      Held := Held + CursorObjects(state);
    }
  }

  /** The application holds what it held, what it was passed, and new objects; of those it can follow
      references to nothing else. */
  twostate predicate Gained(authority: Authority, new passed: set<object>)
    reads authority, authority.Held
  {
    fresh(authority.Held - old(authority.Held) - passed) && Extends(old(authority.Held), authority, passed)
  }

  ghost predicate Extends(before: set<object>, authority: Authority, passed: set<object>)
    reads authority, authority.Held
  {
    && before + passed <= authority.Held
    && (forall c: CursorCell | c in authority.Held && c !in before :: c.positions in authority.Held)
    && (forall c: FilterCell | c in authority.Held :: c in before)
    && (forall p: PredicateCell | p in authority.Held :: p in before)
    && (forall a: array<FilterCell?> | a in authority.Held :: a in before)
  }
}
