/** A codec's own calls are runs of the replay machine, so that what every interleaving keeps holds of them. */
module CursorRun {
  import opened Types
  import opened CursorCodec
  import opened CursorService
  import opened ReplayMachine

  /** A context that was cancelled stays cancelled, and only a cancelled call is declined. */
  predicate Coherent(c: Cancellation) {
    && (c.onEntry ==> c.beforeStore) && (c.beforeStore ==> c.afterStore) && (c.declined ==> c.afterStore)
  }

  function When(condition: bool, a: Action): seq<Action> { if condition then [a] else [] }

  /** The steps of one call up to the store, at the store and after it, with the cancellation where the
      context saw it. */
  function Front(id: nat, c: Cancellation): seq<Action> {
    When(c.onEntry, Cancel(id)) + ([Enter(id), CopyKey(id), Judge(id)]
    + (When(c.beforeStore, Cancel(id)) + ([Recheck(id)] + When(c.declined, Cancel(id)))))
  }

  function AtStore(id: nat, c: Cancellation): Action { if c.declined then Decline(id) else Consume(id) }

  function Back(id: nat, c: Cancellation): seq<Action> { When(c.afterStore, Cancel(id)) + [Finish(id)] }

  function CallActions(id: nat, c: Cancellation, token: string, schema: string, sorts: seq<SortTerm>): seq<Action> {
    [Begin(id, token, schema, sorts)] + (Front(id, c) + ([AtStore(id, c)] + Back(id, c)))
  }

  function SetupOf(codec: Codec): Setup {
    Setup(codec.lib, codec.config, codec.fingerprint, Policy(false, false))
  }

  /** The machine and the codec show the same ring, clock and consumed fingerprints. */
  ghost predicate Mirrors(codec: Codec, m: Machine)
    reads codec, codec.keys, codec.store
  {
    && codec.store != null && m.ring == codec.keys.View() && m.now == codec.clock
    && m.store.Keys == codec.store.consumed
  }

  // ---------------------------------------------------------------- steps of one call

  predicate OwnStep(id: nat, a: Action) {
    match a
    case Enter(i) => i == id
    case CopyKey(i) => i == id
    case Judge(i) => i == id
    case Recheck(i) => i == id
    case Decline(i) => i == id
    case Finish(i) => i == id
    case Cancel(i) => i == id
    case _ => false
  }

  function Moved(s: Setup, m: Machine, call: Call, a: Action): Call {
    if a.Cancel? then call.(cancelled := true)
    else
      match LocalStep(s, m, call, a)
      case Some(phase) => call.(phase := phase)
      case None => call
  }

  function MovedAll(s: Setup, m: Machine, call: Call, actions: seq<Action>): Call
    decreases |actions|
  {
    if actions == [] then call else MovedAll(s, m, Moved(s, m, call, actions[0]), actions[1..])
  }

  function With(m: Machine, id: nat, call: Call): Machine { m.(calls := m.calls[id := call]) }

  lemma {:induction false} OwnStepsRun(s: Setup, m: Machine, id: nat, call: Call, actions: seq<Action>)
    requires forall a <- actions :: OwnStep(id, a)
    ensures ReplayMachine.Run(s, With(m, id, call), actions) == With(m, id, MovedAll(s, m, call, actions))
    decreases |actions|
  {
    if actions != [] {
      var next := Moved(s, m, call, actions[0]);
      OwnStepApplies(s, m, id, call, actions[0]);
      hide Apply, Moved;
      OwnStepsRun(s, m, id, next, actions[1..]);
    }
  }

  lemma OwnStepApplies(s: Setup, m: Machine, id: nat, call: Call, a: Action)
    requires OwnStep(id, a)
    ensures Apply(s, With(m, id, call), a) == With(m, id, Moved(s, m, call, a))
  {
    var before := With(m, id, call);
    hide Envelope, Unsealed, Judged;
    assert LocalStep(s, before, call, a) == LocalStep(s, m, call, a);
    hide LocalStep;
    assert Apply(s, before, a).calls == With(m, id, Moved(s, m, call, a)).calls;
  }

  lemma MovedOne(s: Setup, m: Machine, call: Call, a: Action, rest: seq<Action>)
    ensures MovedAll(s, m, call, [a] + rest) == MovedAll(s, m, Moved(s, m, call, a), rest)
  {
    assert ([a] + rest)[1..] == rest;
  }

  lemma MovedWhen(s: Setup, m: Machine, call: Call, condition: bool, id: nat, rest: seq<Action>)
    ensures MovedAll(s, m, call, When(condition, Cancel(id)) + rest)
      == MovedAll(s, m, call.(cancelled := call.cancelled || condition), rest)
  {
    if condition {
      MovedOne(s, m, call, Cancel(id), rest);
    } else {
      assert [] + rest == rest;
    }
  }

  lemma MovedThree(s: Setup, m: Machine, call: Call, a: Action, b: Action, c: Action, rest: seq<Action>)
    ensures MovedAll(s, m, call, [a, b, c] + rest)
      == MovedAll(s, m, Moved(s, m, Moved(s, m, Moved(s, m, call, a), b), c), rest)
  {
    assert [a, b, c] + rest == [a] + ([b] + ([c] + rest));
    MovedOne(s, m, call, a, [b] + ([c] + rest));
    MovedOne(s, m, Moved(s, m, call, a), b, [c] + rest);
    MovedOne(s, m, Moved(s, m, Moved(s, m, call, a), b), c, rest);
  }

  /** Entering, copying the key and judging bring a call to the verdict the codec's Open returns. */
  lemma Opens(s: Setup, m: Machine, id: nat, call: Call)
    requires call.phase == Entering
    ensures var after := Moved(s, m, Moved(s, m, Moved(s, m, call, Enter(id)), CopyKey(id)), Judge(id));
      after == call.(phase :=
        if call.cancelled then Done(Err(CursorCodec.Cancelled))
        else match Opened(s.lib, s.config, m.ring, m.now, call.token, call.schema, call.sorts)
             case Err(e) => Done(Err(e))
             case Ok(p) => Checked(p))
  {
    hide Envelope, Unsealed, Judged;
  }

  lemma {:induction false} DoneStays(s: Setup, m: Machine, call: Call, actions: seq<Action>)
    requires call.phase.Done?
    ensures MovedAll(s, m, call, actions).phase == call.phase
    decreases |actions|
  {
    if actions != [] {
      DoneStays(s, m, Moved(s, m, call, actions[0]), actions[1..]);
    }
  }

  /** In front of the store: done without it, or waiting for it with the payload that opened. */
  lemma FrontMoves(s: Setup, m: Machine, id: nat, c: Cancellation, call: Call)
    requires call.phase == Entering && !call.cancelled && Coherent(c)
    ensures MovedAll(s, m, call, Front(id, c)) == call.(
      cancelled := c.beforeStore || c.declined,
      phase :=
        if c.onEntry then Done(Err(CursorCodec.Cancelled))
        else match Opened(s.lib, s.config, m.ring, m.now, call.token, call.schema, call.sorts)
             case Err(e) => Done(Err(e))
             case Ok(p) => if c.beforeStore then Done(Err(CursorCodec.Cancelled)) else Storing(p))
  {
    var last := When(c.declined, Cancel(id));
    var fourth := [Recheck(id)] + last;
    var third := When(c.beforeStore, Cancel(id)) + fourth;
    var entered := call.(cancelled := c.onEntry);
    MovedWhen(s, m, call, c.onEntry, id, [Enter(id), CopyKey(id), Judge(id)] + third);
    MovedThree(s, m, entered, Enter(id), CopyKey(id), Judge(id), third);
    Opens(s, m, id, entered);
    hide Opened, Envelope, Unsealed, Judged;
    var opened_ := Moved(s, m, Moved(s, m, Moved(s, m, entered, Enter(id)), CopyKey(id)), Judge(id));
    MovedWhen(s, m, opened_, c.beforeStore, id, fourth);
    var checked := opened_.(cancelled := c.beforeStore);
    MovedOne(s, m, checked, Recheck(id), last);
    var rechecked := Moved(s, m, checked, Recheck(id));
    assert last + [] == last;
    MovedWhen(s, m, rechecked, c.declined, id, []);
  }

  lemma BackMoves(s: Setup, m: Machine, id: nat, c: Cancellation, call: Call)
    requires call.cancelled ==> c.afterStore
    ensures MovedAll(s, m, call, Back(id, c)) == call.(
      cancelled := c.afterStore,
      phase :=
        match call.phase
        case Accepted(p) => Done(Ok(p))
        case Refused => Done(Err(if c.afterStore then CursorCodec.Cancelled else Replayed))
        case other => other)
    requires call.phase.Accepted? || call.phase.Refused? || call.phase.Done?
  {
    hide Envelope, Unsealed, Judged;
    MovedWhen(s, m, call, c.afterStore, id, [Finish(id)]);
    assert [Finish(id)] + [] == [Finish(id)];
    MovedOne(s, m, call.(cancelled := c.afterStore), Finish(id), []);
  }

  /** The whole call on a machine whose store never forgets. */
  lemma {:induction false} CallRuns(s: Setup, m: Machine, id: nat, c: Cancellation, token: string, schema: string,
                                    sorts: seq<SortTerm>) returns (after: Machine)
    requires s.policy == Policy(false, false) && id !in m.calls && Coherent(c)
    ensures after == ReplayMachine.Run(s, m, CallActions(id, c, token, schema, sorts))
    ensures after.ring == m.ring && after.now == m.now && id in after.calls && after.calls[id].phase.Done?
    ensures var result := after.calls[id].phase.result;
      var outcome := Opened(s.lib, s.config, m.ring, m.now, token, schema, sorts); var f := s.fingerprint(token);
      && (c.onEntry ==> result == Err(CursorCodec.Cancelled))
      && (!c.onEntry && outcome.Err? ==> result == outcome)
      && (!c.onEntry && outcome.Ok? ==>
            if c.beforeStore then result == Err(CursorCodec.Cancelled)
            else if c.declined || f in m.store
              then result == Err(if c.afterStore then CursorCodec.Cancelled else Replayed)
            else result == outcome)
      && after.store.Keys == m.store.Keys + if result.Ok? then {f} else {}
  {
    var call := Call(token, schema, sorts, false, Entering);
    var rest := [AtStore(id, c)] + Back(id, c);
    hide Opened, Front, Back, MovedAll, ReplayMachine.Run, Apply;
    RunCons(s, m, Begin(id, token, schema, sorts), Front(id, c) + rest);
    BeginApplies(s, m, id, call);
    var m1 := With(m, id, call);
    RunConcat(s, m1, Front(id, c), rest);
    FrontIsOwn(id, c);
    OwnStepsRun(s, m, id, call, Front(id, c));
    FrontMoves(s, m, id, c, call);
    var waiting := MovedAll(s, m, call, Front(id, c));
    var m2 := With(m, id, waiting);
    RunCons(s, m2, AtStore(id, c), Back(id, c));
    var m3 := StoreApplies(s, m, id, c, waiting);
    OwnStepsRun(s, m3, id, m3.calls[id], Back(id, c));
    assert With(m3, id, m3.calls[id]) == m3;
    BackMoves(s, m3, id, c, m3.calls[id]);
    after := ReplayMachine.Run(s, m3, Back(id, c));
  }

  lemma BeginApplies(s: Setup, m: Machine, id: nat, call: Call)
    requires id !in m.calls && call.phase == Entering && !call.cancelled
    ensures Apply(s, m, Begin(id, call.token, call.schema, call.sorts)) == With(m, id, call)
  {
  }

  lemma FrontIsOwn(id: nat, c: Cancellation)
    ensures (forall a <- Front(id, c) :: OwnStep(id, a)) && forall a <- Back(id, c) :: OwnStep(id, a)
  {
  }

  lemma StoreApplies(s: Setup, m: Machine, id: nat, c: Cancellation, call: Call) returns (after: Machine)
    requires s.policy == Policy(false, false) && (call.phase.Storing? || call.phase.Done?)
    requires c.declined ==> call.cancelled
    ensures after == Apply(s, With(m, id, call), AtStore(id, c))
    ensures after.ring == m.ring && after.now == m.now && id in after.calls
    ensures call.phase.Done? ==> after.calls[id] == call && after.store == m.store
    ensures call.phase.Storing? ==> var f := s.fingerprint(call.token);
      if !c.declined && f !in m.store then
        after.calls[id] == call.(phase := Accepted(call.phase.payload)) && after.store.Keys == m.store.Keys + {f}
      else after.calls[id] == call.(phase := Refused) && after.store == m.store
  {
    hide Envelope, Unsealed, Judged;
    after := Apply(s, With(m, id, call), AtStore(id, c));
  }

  /** Each call of the codec is that run, as long as the machine shows the codec's ring, clock and store. */
  method DecodeAsRun(codec: Codec, ghost m: Machine, ghost id: nat, context: Cancellation, token: string,
                     schema: string, sorts: seq<SortTerm>)
    returns (result: Result<Payload>, ghost after: Machine)
    requires Mirrors(codec, m) && id !in m.calls && Coherent(context)
    modifies codec.store
    ensures after == ReplayMachine.Run(SetupOf(codec), m, CallActions(id, context, token, schema, sorts))
    ensures id in after.calls && after.calls[id].phase == Done(result) && Mirrors(codec, after)
  {
    hide Opened;
    after := CallRuns(SetupOf(codec), m, id, context, token, schema, sorts);
    result := codec.DecodeContext(context, token, schema, sorts);
  }
}
