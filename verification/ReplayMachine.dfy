/** Decoding under a replay store: any number of calls interleaved, step by step, with cancellations,
    key rotations, the clock and the store's own pruning. Each step is atomic where the source holds a
    lock or calls the store. */
module ReplayMachine {
  import opened Text
  import opened Types
  import opened Keyring
  import opened CursorCodec

  /** Where one DecodeContext call stands. */
  datatype Phase =
    | Entering
    | Looking
    | Keyed(keyId: string, encoded: string, secret: Secret)
    | Checked(payload: Payload)
    | Storing(payload: Payload)
    | Accepted(payload: Payload)
    | Refused
    | Done(result: Result<Payload>)

  datatype Call = Call(token: string, schema: string, sorts: seq<SortTerm>, cancelled: bool, phase: Phase)

  /** Whether the store forgets expired fingerprints, and whether it refuses tokens already expired. */
  datatype Policy = Policy(prunes: bool, refusesExpired: bool)

  datatype Setup = Setup(lib: Library, config: Config, fingerprint: string -> Bytes, policy: Policy)

  /** The store's acceptances, in order. */
  datatype Commit = Commit(call: nat, token: string, payload: Payload)

  datatype Machine = Machine(ring: Ring, now: int, store: map<Bytes, int>, calls: map<nat, Call>, commits: seq<Commit>)

  datatype Action =
    | Begin(id: nat, token: string, schema: string, sorts: seq<SortTerm>)
    | Enter(id: nat)
    | CopyKey(id: nat)
    | Judge(id: nat)
    | Recheck(id: nat)
    | Consume(id: nat)
    | Decline(id: nat)
    | Finish(id: nat)
    | Cancel(id: nat)
    | Rotate(ring: Ring)
    | Advance(now: int)
    | Prune(fingerprint: Bytes)

  /** The steps of one call that touch nothing but the call; None when the call is not at that step.
      Honouring cancellation, the store may turn a cancelled call away and consume nothing. */
  function LocalStep(s: Setup, m: Machine, call: Call, a: Action): Option<Phase> {
    match (call.phase, a)
    case (Entering, Enter(_)) => Some(if call.cancelled then Done(Err(CursorCodec.Cancelled)) else Looking)
    case (Looking, CopyKey(_)) =>
      (match Envelope(s.config, call.token)
       case Err(e) => Some(Done(Err(e)))
       case Ok((keyId, encoded)) =>
         if keyId in m.ring.keys then Some(Keyed(keyId, encoded, m.ring.keys[keyId])) else Some(Done(Err(Invalid))))
    case (Keyed(keyId, encoded, secret), Judge(_)) =>
      (match Unsealed(s.lib, s.config, keyId, encoded, secret)
       case Err(e) => Some(Done(Err(e)))
       case Ok(wire) =>
         match Judged(s.config, wire, m.now, call.schema, call.sorts)
         case Err(e) => Some(Done(Err(e)))
         case Ok(p) => Some(Checked(p)))
    case (Checked(p), Recheck(_)) => Some(if call.cancelled then Done(Err(CursorCodec.Cancelled)) else Storing(p))
    case (Storing(_), Decline(_)) => if call.cancelled then Some(Refused) else None
    case (Accepted(p), Finish(_)) => Some(Done(Ok(p)))
    case (Refused, Finish(_)) => Some(Done(Err(if call.cancelled then CursorCodec.Cancelled else Replayed)))
    case _ => None
  }

  function WithPhase(m: Machine, id: nat, phase: Phase): Machine
    requires id in m.calls
  {
    m.(calls := m.calls[id := m.calls[id].(phase := phase)])
  }

  predicate StoreAccepts(s: Setup, m: Machine, token: string, p: Payload) {
    s.fingerprint(token) !in m.store && (s.policy.refusesExpired ==> m.now < p.expiresAt)
  }

  /** The store's atomic decision for one call. */
  function Consumed(s: Setup, m: Machine, id: nat): Machine
    requires id in m.calls
  {
    var call := m.calls[id];
    if !call.phase.Storing? then m
    else
      var p := call.phase.payload;
      if StoreAccepts(s, m, call.token, p) then
        WithPhase(m, id, Accepted(p)).(store := m.store[s.fingerprint(call.token) := p.expiresAt],
                                       commits := m.commits + [Commit(id, call.token, p)])
      else WithPhase(m, id, Refused)
  }

  /** One step of the whole system; an action that is not possible changes nothing. */
  function Apply(s: Setup, m: Machine, a: Action): Machine {
    match a
    case Begin(id, token, schema, sorts) =>
      if id in m.calls then m else m.(calls := m.calls[id := Call(token, schema, sorts, false, Entering)])
    case Cancel(id) =>
      if id in m.calls then m.(calls := m.calls[id := m.calls[id].(cancelled := true)]) else m
    case Rotate(ring) => m.(ring := ring)
    case Advance(now) => if m.now <= now then m.(now := now) else m
    case Prune(f) => if s.policy.prunes && f in m.store && m.store[f] <= m.now then m.(store := m.store - {f}) else m
    case Consume(id) => if id in m.calls then Consumed(s, m, id) else m
    case _ =>
      if a.id !in m.calls then m
      else
        match LocalStep(s, m, m.calls[a.id], a)
        case None => m
        case Some(phase) => WithPhase(m, a.id, phase)
  }

  function Run(s: Setup, m: Machine, actions: seq<Action>): Machine
    decreases |actions|
  {
    if actions == [] then m else Run(s, Apply(s, m, actions[0]), actions[1..])
  }

  function Start(ring: Ring, now: int): Machine { Machine(ring, now, map[], map[], []) }

  // ---------------------------------------------------------------- what every run keeps

  /** Some key opens the token to this payload. */
  ghost predicate OpensTo(s: Setup, token: string, p: Payload) {
    exists keyId, encoded, secret ::
      && Envelope(s.config, token) == Ok((keyId, encoded))
      && Unsealed(s.lib, s.config, keyId, encoded, secret) == Ok(Wire(s.config.version, p))
  }

  lemma OpensToOne(s: Setup, token: string, p: Payload, q: Payload)
    requires Lawful(s.lib) && OpensTo(s, token, p) && OpensTo(s, token, q)
    ensures p == q
  {
    var keyId, encoded, a :| Envelope(s.config, token) == Ok((keyId, encoded))
      && Unsealed(s.lib, s.config, keyId, encoded, a) == Ok(Wire(s.config.version, p));
    var keyId', encoded', b :| Envelope(s.config, token) == Ok((keyId', encoded'))
      && Unsealed(s.lib, s.config, keyId', encoded', b) == Ok(Wire(s.config.version, q));
    hide Envelope, Unsealed, Lawful;
    TokenFixesWire(s.lib, s.config, keyId, encoded, a, b);
  }

  ghost predicate CallSound(s: Setup, call: Call) {
    match call.phase
    case Keyed(keyId, encoded, _) => Envelope(s.config, call.token) == Ok((keyId, encoded))
    case Checked(p) => OpensTo(s, call.token, p)
    case Storing(p) => OpensTo(s, call.token, p)
    case Accepted(p) => OpensTo(s, call.token, p)
    case _ => true
  }

  /** The call was accepted by the store, and has returned the payload if it has returned. */
  predicate Successful(call: Call, p: Payload) { call.phase == Accepted(p) || call.phase == Done(Ok(p)) }

  predicate Succeeded(call: Call) { call.phase.Accepted? || (call.phase.Done? && call.phase.result.Ok?) }

  ghost predicate CommitSound(s: Setup, m: Machine, c: Commit) {
    && c.call in m.calls && m.calls[c.call].token == c.token && Successful(m.calls[c.call], c.payload)
    && OpensTo(s, c.token, c.payload)
  }

  /** The store still knows the acceptance, or would refuse the token as expired. */
  ghost predicate Remembered(s: Setup, m: Machine, c: Commit) {
    || (s.fingerprint(c.token) in m.store && m.store[s.fingerprint(c.token)] == c.payload.expiresAt)
    || (s.policy.refusesExpired && c.payload.expiresAt <= m.now)
  }

  /** Two acceptances the store ought to have told apart. */
  predicate SameUse(s: Setup, c: Commit, d: Commit) {
    s.fingerprint(c.token) == s.fingerprint(d.token) && c.payload == d.payload
  }

  ghost predicate Committed(m: Machine, id: nat) {
    exists k :: 0 <= k < |m.commits| && m.commits[k].call == id
  }

  ghost predicate Safe(s: Setup, m: Machine) {
    && (forall id <- m.calls :: CallSound(s, m.calls[id]) && (Succeeded(m.calls[id]) <==> Committed(m, id)))
    && (forall k :: 0 <= k < |m.commits| ==> CommitSound(s, m, m.commits[k]) && Remembered(s, m, m.commits[k]))
    && (forall j, k :: 0 <= j < k < |m.commits| ==> !SameUse(s, m.commits[j], m.commits[k]))
  }

  /** A call's own steps keep it sound, and neither make nor unmake a success. */
  lemma {:induction false} LocalStepSound(s: Setup, m: Machine, call: Call, a: Action)
    requires CallSound(s, call) && LocalStep(s, m, call, a).Some?
    ensures var after := call.(phase := LocalStep(s, m, call, a).value);
      && CallSound(s, after)
      && (Succeeded(after) <==> Succeeded(call))
      && forall p :: Successful(call, p) ==> Successful(after, p)
  {
    if call.phase.Keyed? && a.Judge? {
      var wire := Unsealed(s.lib, s.config, call.phase.keyId, call.phase.encoded, call.phase.secret);
      hide Envelope, Unsealed;
      if wire.Ok? && Judged(s.config, wire.value, m.now, call.schema, call.sorts).Ok? {
        JudgedIsPayload(s.config, wire.value, m.now, call.schema, call.sorts);
        assert OpensTo(s, call.token, wire.value.payload);
      }
    }
    hide Envelope, Unsealed, Judged;
  }

  lemma JudgedIsPayload(c: Config, wire: Wire, now: int, schema: string, sorts: seq<SortTerm>)
    requires Judged(c, wire, now, schema, sorts).Ok?
    ensures Judged(c, wire, now, schema, sorts).value == wire.payload && wire.version == c.version
  {
    hide WellFormed;
  }

  /** Replacing one call by a version of itself that keeps its success keeps the machine safe. */
  lemma {:induction false} CallReplaced(s: Setup, m: Machine, id: nat, call: Call)
    requires Safe(s, m) && id in m.calls && CallSound(s, call)
    requires call.token == m.calls[id].token && (Succeeded(call) <==> Succeeded(m.calls[id]))
    requires forall p :: Successful(m.calls[id], p) ==> Successful(call, p)
    ensures Safe(s, m.(calls := m.calls[id := call]))
  {
    var after := m.(calls := m.calls[id := call]);
    hide CallSound, OpensTo, Succeeded, Successful;
    forall other | other in after.calls
      ensures CallSound(s, after.calls[other]) && (Succeeded(after.calls[other]) <==> Committed(after, other))
    {
      assert Committed(after, other) <==> Committed(m, other);
    }
    forall k | 0 <= k < |after.commits|
      ensures CommitSound(s, after, after.commits[k]) && Remembered(s, after, after.commits[k]) {
      assert CommitSound(s, m, m.commits[k]) && Remembered(s, m, m.commits[k]);
    }
  }

  lemma {:induction false} CallBegun(s: Setup, m: Machine, id: nat, call: Call)
    requires Safe(s, m) && id !in m.calls && call.phase == Entering
    ensures Safe(s, m.(calls := m.calls[id := call]))
  {
    var after := m.(calls := m.calls[id := call]);
    hide OpensTo, Successful;
    forall other | other in after.calls
      ensures CallSound(s, after.calls[other]) && (Succeeded(after.calls[other]) <==> Committed(after, other))
    {
      assert Committed(after, other) <==> Committed(m, other);
      forall k | 0 <= k < |m.commits| ensures m.commits[k].call != id {
        assert CommitSound(s, m, m.commits[k]);
      }
    }
    forall k | 0 <= k < |after.commits|
      ensures CommitSound(s, after, after.commits[k]) && Remembered(s, after, after.commits[k]) {
      assert CommitSound(s, m, m.commits[k]) && Remembered(s, m, m.commits[k]);
    }
  }

  /** The clock, the ring and pruning leave every acceptance remembered. */
  lemma {:induction false} EnvironmentSafe(s: Setup, m: Machine, after: Machine)
    requires Safe(s, m) && after.calls == m.calls && after.commits == m.commits && m.now <= after.now
    requires forall k :: 0 <= k < |m.commits| && Remembered(s, m, m.commits[k]) ==> Remembered(s, after, m.commits[k])
    ensures Safe(s, after)
  {
    hide CallSound, OpensTo, Remembered, Succeeded, Successful;
    forall id | id in after.calls
      ensures CallSound(s, after.calls[id]) && (Succeeded(after.calls[id]) <==> Committed(after, id)) {
      assert Committed(after, id) <==> Committed(m, id);
    }
    forall k | 0 <= k < |after.commits|
      ensures CommitSound(s, after, after.commits[k]) && Remembered(s, after, after.commits[k]) {
      assert CommitSound(s, m, m.commits[k]) && Remembered(s, m, m.commits[k]);
    }
  }

  /** The store never accepts a fingerprint again for the same payload. */
  lemma UseIsNew(s: Setup, m: Machine, last: Commit, k: nat)
    requires Safe(s, m) && StoreAccepts(s, m, last.token, last.payload) && k < |m.commits|
    ensures !SameUse(s, m.commits[k], last)
  {
    hide OpensTo;
    assert Remembered(s, m, m.commits[k]);
  }

  /** So it never accepts a token twice. */
  lemma AcceptedIsNew(s: Setup, m: Machine, token: string, p: Payload, k: nat)
    requires Lawful(s.lib) && Safe(s, m) && OpensTo(s, token, p) && StoreAccepts(s, m, token, p) && k < |m.commits|
    ensures m.commits[k].token != token
  {
    assert CommitSound(s, m, m.commits[k]);
    UseIsNew(s, m, Commit(0, token, p), k);
    if m.commits[k].token == token {
      hide Lawful, OpensTo;
      OpensToOne(s, token, p, m.commits[k].payload);
      assert false;
    }
  }

  lemma {:induction false} ConsumeSafe(s: Setup, m: Machine, id: nat)
    requires Safe(s, m) && id in m.calls
    ensures Safe(s, Consumed(s, m, id))
  {
    var call := m.calls[id];
    if call.phase.Storing? {
      assert CallSound(s, call);
      var p := call.phase.payload;
      if StoreAccepts(s, m, call.token, p) {
        forall k | 0 <= k < |m.commits| ensures !SameUse(s, m.commits[k], Commit(id, call.token, p)) {
          UseIsNew(s, m, Commit(id, call.token, p), k);
        }
        hide OpensTo;
        AcceptSafe(s, m, id);
      } else {
        hide OpensTo, Safe;
        CallReplaced(s, m, id, call.(phase := Refused));
      }
    }
  }

  lemma {:induction false} AcceptSafe(s: Setup, m: Machine, id: nat)
    requires Safe(s, m) && id in m.calls && m.calls[id].phase.Storing?
    requires OpensTo(s, m.calls[id].token, m.calls[id].phase.payload)
    requires StoreAccepts(s, m, m.calls[id].token, m.calls[id].phase.payload)
    requires forall k :: 0 <= k < |m.commits| ==>
      !SameUse(s, m.commits[k], Commit(id, m.calls[id].token, m.calls[id].phase.payload))
    ensures Safe(s, Consumed(s, m, id))
  {
    var call, after := m.calls[id], Consumed(s, m, id);
    var last := Commit(id, call.token, call.phase.payload);
    hide OpensTo, SameUse;
    assert after.commits == m.commits + [last] && after.commits[|m.commits|] == last;
    forall other | other in after.calls
      ensures CallSound(s, after.calls[other]) && (Succeeded(after.calls[other]) <==> Committed(after, other))
    {
      if other == id {
        assert Committed(after, id);
      } else {
        assert CallSound(s, m.calls[other]);
        CommittedSnoc(m, after, last, other);
      }
    }
    forall k | 0 <= k < |after.commits|
      ensures CommitSound(s, after, after.commits[k]) && Remembered(s, after, after.commits[k]) {
      if k < |m.commits| {
        assert after.commits[k] == m.commits[k];
        assert CommitSound(s, m, m.commits[k]) && Remembered(s, m, m.commits[k]);
      }
    }
  }

  lemma CommittedSnoc(m: Machine, after: Machine, last: Commit, id: nat)
    requires after.commits == m.commits + [last] && id != last.call
    ensures Committed(after, id) <==> Committed(m, id)
  {
    if Committed(m, id) {
      var k :| 0 <= k < |m.commits| && m.commits[k].call == id;
      assert after.commits[k].call == id;
    }
    if Committed(after, id) {
      var k :| 0 <= k < |after.commits| && after.commits[k].call == id;
      assert m.commits[k].call == id;
    }
  }

  /** Every step keeps the machine safe, provided a store that prunes also refuses expired tokens. */
  lemma {:induction false} StepSafe(s: Setup, m: Machine, a: Action)
    requires (s.policy.prunes ==> s.policy.refusesExpired) && Safe(s, m)
    ensures Safe(s, Apply(s, m, a))
  {
    hide OpensTo, Envelope, Unsealed, Judged;
    match a {
      case Begin(id, token, schema, sorts) =>
        if id !in m.calls {
          CallBegun(s, m, id, Call(token, schema, sorts, false, Entering));
        }
      case Cancel(id) =>
        if id in m.calls {
          assert CallSound(s, m.calls[id]);
          hide Safe;
          CallReplaced(s, m, id, m.calls[id].(cancelled := true));
        }
      case Rotate(ring) => EnvironmentSafe(s, m, m.(ring := ring));
      case Advance(now) =>
        if m.now <= now {
          EnvironmentSafe(s, m, m.(now := now));
        }
      case Prune(f) =>
        if s.policy.prunes && f in m.store && m.store[f] <= m.now {
          EnvironmentSafe(s, m, m.(store := m.store - {f}));
        }
      case Consume(id) =>
        if id in m.calls {
          ConsumeSafe(s, m, id);
        }
      case _ =>
        if a.id in m.calls && LocalStep(s, m, m.calls[a.id], a).Some? {
          assert CallSound(s, m.calls[a.id]);
          LocalStepSound(s, m, m.calls[a.id], a);
          hide LocalStep, Safe, CallSound, Succeeded, Successful;
          CallReplaced(s, m, a.id, m.calls[a.id].(phase := LocalStep(s, m, m.calls[a.id], a).value));
        }
    }
  }

  lemma {:induction false} RunSafe(s: Setup, m: Machine, actions: seq<Action>)
    requires (s.policy.prunes ==> s.policy.refusesExpired) && Safe(s, m)
    ensures Safe(s, Run(s, m, actions))
    decreases |actions|
  {
    hide Safe, Apply;
    if actions != [] {
      StepSafe(s, m, actions[0]);
      RunSafe(s, Apply(s, m, actions[0]), actions[1..]);
    }
  }

  ghost predicate ReturnedPayload(m: Machine, id: nat) {
    id in m.calls && m.calls[id].phase.Done? && m.calls[id].phase.result.Ok?
  }

  /** In every interleaving, of all calls for one fingerprint at most one returns the same payload. */
  lemma {:induction false} OneSuccessPerFingerprint(s: Setup, ring: Ring, now: int, actions: seq<Action>, a: nat,
                                                    b: nat)
    requires s.policy.prunes ==> s.policy.refusesExpired
    requires var m := Run(s, Start(ring, now), actions);
      && ReturnedPayload(m, a) && ReturnedPayload(m, b)
      && s.fingerprint(m.calls[a].token) == s.fingerprint(m.calls[b].token)
      && m.calls[a].phase.result.value == m.calls[b].phase.result.value
    ensures a == b
  {
    var m := Run(s, Start(ring, now), actions);
    hide OpensTo, Run;
    RunSafe(s, Start(ring, now), actions);
    assert Committed(m, a) && Committed(m, b);
    var j :| 0 <= j < |m.commits| && m.commits[j].call == a;
    var k :| 0 <= k < |m.commits| && m.commits[k].call == b;
    assert CommitSound(s, m, m.commits[j]) && CommitSound(s, m, m.commits[k]);
    assert SameUse(s, m.commits[j], m.commits[k]) && SameUse(s, m.commits[k], m.commits[j]);
  }

  /** In every interleaving, of all calls for one token at most one returns a payload. */
  lemma {:induction false} OneSuccessPerToken(s: Setup, ring: Ring, now: int, actions: seq<Action>, a: nat, b: nat)
    requires Lawful(s.lib) && (s.policy.prunes ==> s.policy.refusesExpired)
    requires var m := Run(s, Start(ring, now), actions);
      ReturnedPayload(m, a) && ReturnedPayload(m, b) && m.calls[a].token == m.calls[b].token
    ensures a == b
  {
    var m := Run(s, Start(ring, now), actions);
    hide Lawful, OpensTo, Run;
    PayloadExactlyWhenAccepted(s, ring, now, actions, a);
    PayloadExactlyWhenAccepted(s, ring, now, actions, b);
    OpensToOne(s, m.calls[a].token, m.calls[a].phase.result.value, m.calls[b].phase.result.value);
    OneSuccessPerFingerprint(s, ring, now, actions, a, b);
  }

  /** A call that has returned returned a payload exactly when the store accepted its own step, and the
      payload is the one its token was sealed with, however cancellation raced it. */
  lemma {:induction false} PayloadExactlyWhenAccepted(s: Setup, ring: Ring, now: int, actions: seq<Action>, id: nat)
    requires (s.policy.prunes ==> s.policy.refusesExpired)
    requires var m := Run(s, Start(ring, now), actions); id in m.calls && m.calls[id].phase.Done?
    ensures var m := Run(s, Start(ring, now), actions);
      && (ReturnedPayload(m, id) <==> Committed(m, id))
      && (ReturnedPayload(m, id) ==> OpensTo(s, m.calls[id].token, m.calls[id].phase.result.value))
  {
    var m := Run(s, Start(ring, now), actions);
    hide OpensTo, Run;
    RunSafe(s, Start(ring, now), actions);
    if Committed(m, id) {
      var k :| 0 <= k < |m.commits| && m.commits[k].call == id;
      assert CommitSound(s, m, m.commits[k]);
    }
  }

  // ---------------------------------------------------------------- no refusal without a reason

  ghost predicate Used(s: Setup, m: Machine, fingerprint: Bytes) {
    exists k :: 0 <= k < |m.commits| && s.fingerprint(m.commits[k].token) == fingerprint
  }

  ghost predicate Lapsed(s: Setup, m: Machine, token: string) {
    s.policy.refusesExpired && exists p :: OpensTo(s, token, p) && p.expiresAt <= m.now
  }

  /** Why a store may call a token replayed. */
  ghost predicate Refusable(s: Setup, m: Machine, token: string) {
    Used(s, m, s.fingerprint(token)) || Lapsed(s, m, token)
  }

  ghost predicate Justified(s: Setup, m: Machine, call: Call) {
    match call.phase
    case Refused => call.cancelled || Refusable(s, m, call.token)
    case Done(Err(Replayed)) => Refusable(s, m, call.token)
    case _ => true
  }

  ghost predicate Honest(s: Setup, m: Machine) {
    && (forall f <- m.store :: Used(s, m, f))
    && (forall id <- m.calls :: Justified(s, m, m.calls[id]))
  }

  lemma StillUsed(s: Setup, m: Machine, after: Machine, f: Bytes)
    requires Used(s, m, f) && m.commits <= after.commits
    ensures Used(s, after, f)
  {
    var k :| 0 <= k < |m.commits| && s.fingerprint(m.commits[k].token) == f;
    assert after.commits[k] == m.commits[k];
  }

  lemma StillJustified(s: Setup, m: Machine, after: Machine, call: Call)
    requires Justified(s, m, call) && m.commits <= after.commits && m.now <= after.now
    ensures Justified(s, after, call)
  {
    hide OpensTo;
    if Used(s, m, s.fingerprint(call.token)) {
      StillUsed(s, m, after, s.fingerprint(call.token));
    }
  }

  lemma NeverReplayedBefore(s: Setup, m: Machine, call: Call, a: Action)
    requires LocalStep(s, m, call, a) == Some(Done(Err(Replayed)))
    ensures call.phase == Refused && !call.cancelled
  {
    hide WellFormed, Split, ByteLength;
  }

  lemma StepGrows(s: Setup, m: Machine, a: Action)
    ensures m.commits <= Apply(s, m, a).commits && m.now <= Apply(s, m, a).now
  {
    hide LocalStep, StoreAccepts;
  }

  lemma ConsumeJustified(s: Setup, m: Machine, id: nat)
    requires id in m.calls && CallSound(s, m.calls[id]) && Justified(s, m, m.calls[id])
    requires forall f <- m.store :: Used(s, m, f)
    ensures Justified(s, Consumed(s, m, id), Consumed(s, m, id).calls[id])
  {
    hide OpensTo;
    var f := s.fingerprint(m.calls[id].token);
    if f in m.store {
      StillUsed(s, m, Consumed(s, m, id), f);
    }
  }

  lemma LocalJustified(s: Setup, m: Machine, call: Call, a: Action)
    requires Justified(s, m, call) && LocalStep(s, m, call, a).Some?
    ensures Justified(s, m, call.(phase := LocalStep(s, m, call, a).value))
  {
    hide OpensTo, Envelope, Unsealed, Judged, Used, Lapsed;
    if LocalStep(s, m, call, a) == Some(Done(Err(Replayed))) {
      NeverReplayedBefore(s, m, call, a);
    }
  }

  /** What one step makes of one call. */
  lemma CallAfter(s: Setup, m: Machine, a: Action, id: nat)
    requires id in m.calls
    ensures var call, next := m.calls[id], Apply(s, m, a).calls[id];
      || next == call
      || next == call.(cancelled := true)
      || (a == Consume(id) && Apply(s, m, a) == Consumed(s, m, id))
      || (LocalStep(s, m, call, a).Some? && next == call.(phase := LocalStep(s, m, call, a).value))
  {
    hide LocalStep, StoreAccepts;
  }

  lemma {:induction false} StepJustified(s: Setup, m: Machine, a: Action, id: nat)
    requires Safe(s, m) && Honest(s, m) && id in m.calls
    ensures var after := Apply(s, m, a); id in after.calls ==> Justified(s, after, after.calls[id])
  {
    var call, after := m.calls[id], Apply(s, m, a);
    StepGrows(s, m, a);
    assert CallSound(s, call) && Justified(s, m, call);
    CallAfter(s, m, a, id);
    CancelledJustified(s, m, call);
    hide Apply, LocalStep, Consumed, Justified, CallSound, Safe;
    if a == Consume(id) {
      ConsumeJustified(s, m, id);
    }
    if LocalStep(s, m, call, a).Some? {
      LocalJustified(s, m, call, a);
      StillJustified(s, m, after, call.(phase := LocalStep(s, m, call, a).value));
    }
    StillJustified(s, m, after, call);
    StillJustified(s, m, after, call.(cancelled := true));
  }

  lemma CancelledJustified(s: Setup, m: Machine, call: Call)
    requires Justified(s, m, call)
    ensures Justified(s, m, call.(cancelled := true))
  {
    hide Used, Lapsed;
  }

  lemma NewlyUsed(s: Setup, m: Machine, a: Action, f: Bytes)
    requires f in Apply(s, m, a).store && f !in m.store
    ensures Used(s, Apply(s, m, a), f)
  {
    hide LocalStep, StoreAccepts;
    assert Apply(s, m, a).commits[|m.commits|].token == m.calls[a.id].token;
  }

  lemma NewCallJustified(s: Setup, m: Machine, a: Action, id: nat)
    requires id in Apply(s, m, a).calls && id !in m.calls
    ensures Justified(s, Apply(s, m, a), Apply(s, m, a).calls[id])
  {
    hide LocalStep, StoreAccepts, Refusable;
    assert Apply(s, m, a).calls[id].phase == Entering;
  }

  lemma {:induction false} StepHonest(s: Setup, m: Machine, a: Action)
    requires Safe(s, m) && Honest(s, m)
    ensures Honest(s, Apply(s, m, a))
  {
    var after := Apply(s, m, a);
    StepGrows(s, m, a);
    hide Apply, Justified, Safe, Used;
    forall f | f in after.store ensures Used(s, after, f) {
      if f in m.store {
        StillUsed(s, m, after, f);
      } else {
        NewlyUsed(s, m, a, f);
      }
    }
    forall id | id in after.calls ensures Justified(s, after, after.calls[id]) {
      if id in m.calls {
        StepJustified(s, m, a, id);
      } else {
        NewCallJustified(s, m, a, id);
      }
    }
  }

  lemma {:induction false} RunHonest(s: Setup, m: Machine, actions: seq<Action>)
    requires (s.policy.prunes ==> s.policy.refusesExpired) && Safe(s, m) && Honest(s, m)
    ensures Honest(s, Run(s, m, actions))
    decreases |actions|
  {
    hide Safe, Honest, Apply;
    if actions != [] {
      StepSafe(s, m, actions[0]);
      StepHonest(s, m, actions[0]);
      RunHonest(s, Apply(s, m, actions[0]), actions[1..]);
    }
  }

  /** A call is told that its token was replayed only if a call with the same fingerprint was accepted,
      or the token has expired and the store refuses such tokens. */
  lemma {:induction false} ReplayedOnlyIfUsed(s: Setup, ring: Ring, now: int, actions: seq<Action>, id: nat)
    requires (s.policy.prunes ==> s.policy.refusesExpired)
    requires var m := Run(s, Start(ring, now), actions); id in m.calls && m.calls[id].phase == Done(Err(Replayed))
    ensures Refusable(s, Run(s, Start(ring, now), actions), Run(s, Start(ring, now), actions).calls[id].token)
  {
    hide Refusable, Run;
    RunHonest(s, Start(ring, now), actions);
  }

  // ---------------------------------------------------------------- one success per sealed part

  /** The bytes a token carries, whatever text spells them. */
  function SealedPart(s: Setup, token: string): Option<Bytes> {
    match Envelope(s.config, token)
    case Ok((_, encoded)) => s.lib.decode(encoded)
    case Err(_) => None
  }

  /** The sealed part is spelled as Encode spells it. A caller can check this before it decodes. */
  predicate Spelled(s: Setup, token: string) {
    match Envelope(s.config, token)
    case Ok((_, encoded)) =>
      s.lib.decode(encoded).Some? && encoded == s.lib.encode(s.lib.decode(encoded).value)
    case Err(_) => false
  }

  /** u is a text for the sealed part of t under the same key id. */
  predicate Respells(s: Setup, t: string, u: string) {
    var first, second := Envelope(s.config, t), Envelope(s.config, u);
    && first.Ok? && second.Ok? && first.value.0 == second.value.0
    && s.lib.decode(first.value.1) == s.lib.decode(second.value.1)
  }

  /** Whatever texts two tokens are, if they open and carry one sealed part they differ in its spelling
      only: a sealed part fixes the key id. */
  lemma SealedFixesKey(s: Setup, t: string, u: string, p: Payload, q: Payload)
    requires Lawful(s.lib) && OpensTo(s, t, p) && OpensTo(s, u, q) && SealedPart(s, t) == SealedPart(s, u)
    ensures Respells(s, t, u) && p == q
  {
    var keyId, encoded, a :| Envelope(s.config, t) == Ok((keyId, encoded))
      && Unsealed(s.lib, s.config, keyId, encoded, a) == Ok(Wire(s.config.version, p));
    var keyId', encoded', b :| Envelope(s.config, u) == Ok((keyId', encoded'))
      && Unsealed(s.lib, s.config, keyId', encoded', b) == Ok(Wire(s.config.version, q));
    PartFixesKey(s, keyId, encoded, a, keyId', encoded', b);
    hide Envelope, Lawful;
    assert Unsealed(s.lib, s.config, keyId, encoded', b) == Unsealed(s.lib, s.config, keyId, encoded, b);
    hide Unsealed;
    TokenFixesWire(s.lib, s.config, keyId, encoded, a, b);
  }

  lemma PartFixesKey(s: Setup, keyId: string, encoded: string, a: Secret, keyId': string, encoded': string, b: Secret)
    requires Lawful(s.lib) && s.lib.decode(encoded) == s.lib.decode(encoded')
    requires Unsealed(s.lib, s.config, keyId, encoded, a).Ok? && Unsealed(s.lib, s.config, keyId', encoded', b).Ok?
    ensures keyId == keyId'
  {
    var sealed := s.lib.decode(encoded).value;
    var aad, aad' := Associated(s.config.version, keyId), Associated(s.config.version, keyId');
    var plain := s.lib.open(a, sealed, aad).value;
    var n :| |n| == NONCE_SIZE && sealed == s.lib.seal(a, n, plain, aad);
    assert a != b || aad' != aad ==> s.lib.open(b, s.lib.seal(a, n, plain, aad), aad') == None;
    assert keyId == aad[|s.config.version| + 1..] && keyId' == aad'[|s.config.version| + 1..];
  }

  /** Spelled as Encode spells it, a sealed part that opens is carried by one text only. */
  lemma SealedFixesToken(s: Setup, t: string, u: string, p: Payload, q: Payload)
    requires Lawful(s.lib) && Spelled(s, t) && Spelled(s, u)
    requires OpensTo(s, t, p) && OpensTo(s, u, q) && SealedPart(s, t) == SealedPart(s, u)
    ensures t == u
  {
    SealedFixesKey(s, t, u, p, q);
    var first, second := Envelope(s.config, t).value, Envelope(s.config, u).value;
    hide Lawful, OpensTo, Envelope;
    EnvelopeJoins(s.config, t, first.0, first.1);
    EnvelopeJoins(s.config, u, second.0, second.1);
  }

  lemma EnvelopeJoins(c: Config, token: string, keyId: string, encoded: string)
    requires Envelope(c, token) == Ok((keyId, encoded))
    ensures token == Join([c.version, keyId, encoded], ".")
  {
    hide ByteLength, Split, Join;
    JoinSplit(token, '.');
    assert Split(token, '.') == [c.version, keyId, encoded];
  }

  /** Of all calls for one sealed part that spell it as Encode does, at most one returns a payload. */
  lemma {:induction false} OneSuccessPerSealedPart(s: Setup, ring: Ring, now: int, actions: seq<Action>, a: nat, b: nat)
    requires Lawful(s.lib) && (s.policy.prunes ==> s.policy.refusesExpired)
    requires var m := Run(s, Start(ring, now), actions);
      && ReturnedPayload(m, a) && ReturnedPayload(m, b)
        && SealedPart(s, m.calls[a].token) == SealedPart(s, m.calls[b].token)
      && Spelled(s, m.calls[a].token) && Spelled(s, m.calls[b].token)
    ensures a == b
  {
    var m := Run(s, Start(ring, now), actions);
    hide Lawful, OpensTo, SealedPart, Spelled, Run;
    PayloadExactlyWhenAccepted(s, ring, now, actions, a);
    PayloadExactlyWhenAccepted(s, ring, now, actions, b);
    SealedFixesToken(s, m.calls[a].token, m.calls[b].token, m.calls[a].phase.result.value,
                     m.calls[b].phase.result.value);
    OneSuccessPerToken(s, ring, now, actions, a, b);
  }

  /** Respelled, a token decodes to the same result, and carries the same sealed part. */
  lemma RespelledOpens(s: Setup, ring: Ring, now: int, t: string, u: string, schema: string, sorts: seq<SortTerm>)
    requires Respells(s, t, u)
    ensures Opened(s.lib, s.config, ring, now, u, schema, sorts) == Opened(s.lib, s.config, ring, now, t, schema, sorts)
    ensures SealedPart(s, u) == SealedPart(s, t)
  {
    hide Envelope, Judged;
  }

  /** Any dot-free text that decodes to the same bytes respells a token, unless the whole gets too long. */
  lemma RespelledEnvelope(s: Setup, t: string, other: string)
    requires Envelope(s.config, t).Ok? && '.' !in other
    requires s.lib.decode(other) == s.lib.decode(Envelope(s.config, t).value.1)
    requires ByteLength(Join([s.config.version, Envelope(s.config, t).value.0, other], ".")) <= s.config.maxEncodedBytes
    ensures Respells(s, t, Join([s.config.version, Envelope(s.config, t).value.0, other], "."))
  {
    var keyId := Envelope(s.config, t).value.0;
    var u := Join([s.config.version, keyId, other], ".");
    assert '.' !in s.config.version && '.' !in keyId && u != "" by {
      hide ByteLength, Split;
      JoinSplit(t, '.');
      assert Split(t, '.')[0] in Split(t, '.') && Split(t, '.')[1] in Split(t, '.');
    }
    hide ByteLength, Split, Join;
    SplitJoin([s.config.version, keyId, other], '.');
  }

  ghost predicate TwoSuccesses(s: Setup, ring: Ring, now: int, t: string, actions: seq<Action>, a: nat, b: nat) {
    var m := Run(s, Start(ring, now), actions);
    && a != b && ReturnedPayload(m, a) && ReturnedPayload(m, b)
    && SealedPart(s, m.calls[a].token) == SealedPart(s, t) && SealedPart(s, m.calls[b].token) == SealedPart(s, t)
  }

  /** The exact condition: the sealed part of a token that opens can be accepted twice, in some
      interleaving, exactly when two of its spellings have different fingerprints. */
  lemma {:induction false} PartTwiceExactly(s: Setup, ring: Ring, now: int, t: string, schema: string,
                                            sorts: seq<SortTerm>)
    requires Lawful(s.lib) && (s.policy.prunes ==> s.policy.refusesExpired)
    requires Opened(s.lib, s.config, ring, now, t, schema, sorts).Ok?
    ensures (exists actions, a, b :: TwoSuccesses(s, ring, now, t, actions, a, b))
        <==> exists u, v :: Respells(s, t, u) && Respells(s, t, v) && s.fingerprint(u) != s.fingerprint(v)
  {
    if actions, a, b :| TwoSuccesses(s, ring, now, t, actions, a, b) {
      TwoSpellings(s, ring, now, t, schema, sorts, actions, a, b);
    }
    if u, v :| Respells(s, t, u) && Respells(s, t, v) && s.fingerprint(u) != s.fingerprint(v) {
      RespelledOpens(s, ring, now, t, u, schema, sorts);
      RespelledOpens(s, ring, now, t, v, schema, sorts);
      hide Opened, Run, Respells, SealedPart;
      var actions := TextsCountSeparately(s, ring, now, u, v, schema, sorts);
      assert TwoSuccesses(s, ring, now, t, actions, 0, 1);
    }
  }

  lemma {:induction false} TwoSpellings(s: Setup, ring: Ring, now: int, t: string, schema: string, sorts: seq<SortTerm>,
                                        actions: seq<Action>, a: nat, b: nat)
    requires Lawful(s.lib) && (s.policy.prunes ==> s.policy.refusesExpired)
    requires Opened(s.lib, s.config, ring, now, t, schema, sorts).Ok? && TwoSuccesses(s, ring, now, t, actions, a, b)
    ensures var m := Run(s, Start(ring, now), actions);
      && a in m.calls && b in m.calls && Respells(s, t, m.calls[a].token) && Respells(s, t, m.calls[b].token)
      && s.fingerprint(m.calls[a].token) != s.fingerprint(m.calls[b].token)
  {
    var m := Run(s, Start(ring, now), actions);
    var p := Opened(s.lib, s.config, ring, now, t, schema, sorts).value;
    OpenedOpensTo(s, ring, now, t, schema, sorts);
    hide Lawful, OpensTo, Opened, SealedPart, Respells, Run;
    PayloadExactlyWhenAccepted(s, ring, now, actions, a);
    PayloadExactlyWhenAccepted(s, ring, now, actions, b);
    SealedFixesKey(s, t, m.calls[a].token, p, m.calls[a].phase.result.value);
    SealedFixesKey(s, t, m.calls[b].token, p, m.calls[b].phase.result.value);
    if s.fingerprint(m.calls[a].token) == s.fingerprint(m.calls[b].token) {
      OneSuccessPerFingerprint(s, ring, now, actions, a, b);
      assert false;
    }
  }

  lemma OpenedOpensTo(s: Setup, ring: Ring, now: int, t: string, schema: string, sorts: seq<SortTerm>)
    requires Opened(s.lib, s.config, ring, now, t, schema, sorts).Ok?
    ensures OpensTo(s, t, Opened(s.lib, s.config, ring, now, t, schema, sorts).value)
  {
    var (keyId, encoded) := Envelope(s.config, t).value;
    hide Envelope, Unsealed;
    var wire := Unsealed(s.lib, s.config, keyId, encoded, ring.keys[keyId]).value;
    JudgedIsPayload(s.config, wire, now, schema, sorts);
    hide Judged;
    assert Unsealed(s.lib, s.config, keyId, encoded, ring.keys[keyId]) == Ok(Wire(s.config.version, wire.payload));
  }

  // ---------------------------------------------------------------- pruning without refusing is not enough

  lemma RunCons(s: Setup, m: Machine, a: Action, rest: seq<Action>)
    ensures Run(s, m, [a] + rest) == Run(s, Apply(s, m, a), rest)
  {
    assert ([a] + rest)[1..] == rest;
  }

  lemma {:induction false} RunConcat(s: Setup, m: Machine, a: seq<Action>, b: seq<Action>)
    ensures Run(s, m, a + b) == Run(s, Run(s, m, a), b)
    decreases |a|
  {
    hide Apply;
    if a == [] {
      assert a + b == b;
    } else {
      assert (a + b)[0] == a[0] && (a + b)[1..] == a[1..] + b;
      RunConcat(s, Apply(s, m, a[0]), a[1..], b);
    }
  }

  /** The steps that bring a fresh call in front of the store. */
  function Approach(id: nat, token: string, schema: string, sorts: seq<SortTerm>): seq<Action> {
    [Begin(id, token, schema, sorts), Enter(id), CopyKey(id), Judge(id), Recheck(id)]
  }

  lemma Approaches(s: Setup, m: Machine, id: nat, token: string, schema: string, sorts: seq<SortTerm>)
    requires id !in m.calls && Opened(s.lib, s.config, m.ring, m.now, token, schema, sorts).Ok?
    ensures var p := Opened(s.lib, s.config, m.ring, m.now, token, schema, sorts).value;
      Run(s, m, Approach(id, token, schema, sorts))
        == m.(calls := m.calls[id := Call(token, schema, sorts, false, Storing(p))])
  {
    var p := Opened(s.lib, s.config, m.ring, m.now, token, schema, sorts).value;
    var (keyId, encoded) := Envelope(s.config, token).value;
    hide Envelope, Unsealed, Judged, Run;
    var m1 := Apply(s, m, Begin(id, token, schema, sorts));
    var m2 := Apply(s, m1, Enter(id));
    var m3 := Apply(s, m2, CopyKey(id));
    assert m3.calls[id].phase == Keyed(keyId, encoded, m.ring.keys[keyId]);
    var m4 := Apply(s, m3, Judge(id));
    assert m4.calls[id].phase == Checked(p);
    var m5 := Apply(s, m4, Recheck(id));
    assert m5 == m.(calls := m.calls[id := Call(token, schema, sorts, false, Storing(p))]);
    hide Apply;
    RunOfFive(s, m, Begin(id, token, schema, sorts), Enter(id), CopyKey(id), Judge(id), Recheck(id));
  }

  lemma RunOfFive(s: Setup, m: Machine, a: Action, b: Action, c: Action, d: Action, e: Action)
    ensures Run(s, m, [a, b, c, d, e]) == Apply(s, Apply(s, Apply(s, Apply(s, Apply(s, m, a), b), c), d), e)
  {
    hide Apply;
    assert [a, b, c, d, e] == [a] + [b, c, d, e] && [b, c, d, e] == [b] + [c, d, e] && [c, d, e] == [c] + [d, e]
      && [d, e] == [d] + [e];
    RunCons(s, m, a, [b, c, d, e]);
    RunCons(s, Apply(s, m, a), b, [c, d, e]);
    RunCons(s, Apply(s, Apply(s, m, a), b), c, [d, e]);
    RunCons(s, Apply(s, Apply(s, Apply(s, m, a), b), c), d, [e]);
    var m4 := Apply(s, Apply(s, Apply(s, Apply(s, m, a), b), c), d);
    assert [e] == [e] + [];
    RunCons(s, m4, e, []);
  }

  /** A fresh call for a token that opens and that the store accepts can run through to its payload. */
  lemma Succeeds(s: Setup, m: Machine, id: nat, token: string, schema: string, sorts: seq<SortTerm>)
    returns (actions: seq<Action>)
    requires id !in m.calls && Opened(s.lib, s.config, m.ring, m.now, token, schema, sorts).Ok?
    requires StoreAccepts(s, m, token, Opened(s.lib, s.config, m.ring, m.now, token, schema, sorts).value)
    ensures var p := Opened(s.lib, s.config, m.ring, m.now, token, schema, sorts).value;
      Run(s, m, actions) == m.(calls := m.calls[id := Call(token, schema, sorts, false, Done(Ok(p)))],
                               store := m.store[s.fingerprint(token) := p.expiresAt],
                               commits := m.commits + [Commit(id, token, p)])
  {
    var p := Opened(s.lib, s.config, m.ring, m.now, token, schema, sorts).value;
    hide Opened, Run, Approach, Apply;
    actions := Approach(id, token, schema, sorts) + [Consume(id), Finish(id)];
    Approaches(s, m, id, token, schema, sorts);
    RunConcat(s, m, Approach(id, token, schema, sorts), [Consume(id), Finish(id)]);
    Concludes(s, m, id, Call(token, schema, sorts, false, Storing(p)), p);
  }

  lemma Concludes(s: Setup, m: Machine, id: nat, call: Call, p: Payload)
    requires id !in m.calls && call.phase == Storing(p) && StoreAccepts(s, m, call.token, p)
    ensures Run(s, m.(calls := m.calls[id := call]), [Consume(id), Finish(id)])
         == m.(calls := m.calls[id := call.(phase := Done(Ok(p)))],
               store := m.store[s.fingerprint(call.token) := p.expiresAt],
                 commits := m.commits + [Commit(id, call.token, p)])
  {
    hide Run, Judged, Envelope, Unsealed;
    var m1 := m.(calls := m.calls[id := call]);
    var m2 := Apply(s, m1, Consume(id));
    assert m2.calls == m.calls[id := call.(phase := Accepted(p))];
    var m3 := Apply(s, m2, Finish(id));
    assert m3.calls == m.calls[id := call.(phase := Done(Ok(p)))];
    hide Apply;
    RunOfTwo(s, m1, Consume(id), Finish(id));
  }

  lemma RunOfTwo(s: Setup, m: Machine, a: Action, b: Action)
    ensures Run(s, m, [a, b]) == Apply(s, Apply(s, m, a), b)
  {
    hide Apply;
    assert [a, b] == [a] + [b] && [b] == [b] + [];
    RunCons(s, m, a, [b]);
    RunCons(s, Apply(s, m, a), b, []);
  }

  /** From any state: a call that is cancelled while the store has it can be declined; it returns the
      cancellation, has consumed nothing, and another call with the same token can still succeed. */
  lemma {:induction false} DeclinedThenAccepted(s: Setup, m: Machine, a: nat, b: nat, token: string, schema: string,
                                                sorts: seq<SortTerm>)
    returns (first: seq<Action>, second: seq<Action>)
    requires a !in m.calls && b !in m.calls && a != b
      && Opened(s.lib, s.config, m.ring, m.now, token, schema, sorts).Ok?
    requires StoreAccepts(s, m, token, Opened(s.lib, s.config, m.ring, m.now, token, schema, sorts).value)
    ensures var declined := Run(s, m, first);
      && declined.store == m.store && declined.commits == m.commits
      && a in declined.calls && declined.calls[a] == Call(token, schema, sorts, true, Done(Err(CursorCodec.Cancelled)))
    ensures var later := Run(s, m, first + second); ReturnedPayload(later, b) && later.calls[b].token == token
  {
    var p := Opened(s.lib, s.config, m.ring, m.now, token, schema, sorts).value;
    hide Opened, Run, Approach, Apply;
    first := Approach(a, token, schema, sorts) + ([Cancel(a), Decline(a)] + [Finish(a)]);
    Approaches(s, m, a, token, schema, sorts);
    RunConcat(s, m, Approach(a, token, schema, sorts), [Cancel(a), Decline(a)] + [Finish(a)]);
    var m1 := m.(calls := m.calls[a := Call(token, schema, sorts, false, Storing(p))]);
    var declined := DeclinedCall(s, m, m1, a, token, schema, sorts, p);
    second := Succeeds(s, declined, b, token, schema, sorts);
    RunConcat(s, m, first, second);
  }

  lemma DeclinedCall(s: Setup, m: Machine, m1: Machine, a: nat, token: string, schema: string, sorts: seq<SortTerm>,
                     p: Payload)
    returns (after: Machine)
    requires m1 == m.(calls := m.calls[a := Call(token, schema, sorts, false, Storing(p))])
    ensures after == m.(calls := m.calls[a := Call(token, schema, sorts, true, Done(Err(CursorCodec.Cancelled)))])
    ensures Run(s, m1, [Cancel(a), Decline(a)] + [Finish(a)]) == after
  {
    hide Run, Judged, Envelope, Unsealed;
    var cancelled := Call(token, schema, sorts, true, Storing(p));
    var m2 := Apply(s, m1, Cancel(a));
    assert m2.calls == m.calls[a := cancelled];
    var m3 := Apply(s, m2, Decline(a));
    assert m3.calls == m.calls[a := cancelled.(phase := Refused)];
    after := Apply(s, m3, Finish(a));
    assert after.calls == m.calls[a := cancelled.(phase := Done(Err(CursorCodec.Cancelled)))];
    hide Apply;
    RunConcat(s, m1, [Cancel(a), Decline(a)], [Finish(a)]);
    RunOfTwo(s, m1, Cancel(a), Decline(a));
    assert [Finish(a)] == [Finish(a)] + [];
    RunCons(s, m3, Finish(a), []);
    RunNothing(s, after);
  }

  /** Uniqueness goes by fingerprint: two texts with different fingerprints that both open can both succeed. */
  lemma TextsCountSeparately(s: Setup, ring: Ring, now: int, t: string, u: string, schema: string, sorts: seq<SortTerm>)
    returns (actions: seq<Action>)
    requires Opened(s.lib, s.config, ring, now, t, schema, sorts).Ok?
      && Opened(s.lib, s.config, ring, now, u, schema, sorts).Ok?
    requires s.fingerprint(t) != s.fingerprint(u)
    ensures var m := Run(s, Start(ring, now), actions);
      ReturnedPayload(m, 0) && ReturnedPayload(m, 1) && m.calls[0].token == t && m.calls[1].token == u
  {
    OpenedIsCurrent(s, ring, now, t, schema, sorts);
    OpenedIsCurrent(s, ring, now, u, schema, sorts);
    hide Opened, Run;
    var first := Succeeds(s, Start(ring, now), 0, t, schema, sorts);
    var second := Succeeds(s, Run(s, Start(ring, now), first), 1, u, schema, sorts);
    RunConcat(s, Start(ring, now), first, second);
    actions := first + second;
  }

  /** Without the refusal, two calls that were both checked before the token expired can both be
      accepted after it: the first acceptance is pruned before the second call reaches the store. */
  lemma PruningNeedsRefusal(s: Setup, ring: Ring, now: int, token: string, schema: string, sorts: seq<SortTerm>)
    requires s.policy.prunes && !s.policy.refusesExpired
    requires Opened(s.lib, s.config, ring, now, token, schema, sorts).Ok?
    ensures exists actions :: var m := Run(s, Start(ring, now), actions);
      ReturnedPayload(m, 0) && ReturnedPayload(m, 1) && m.calls[0].token == m.calls[1].token
  {
    var p := Opened(s.lib, s.config, ring, now, token, schema, sorts).value;
    var start, f := Start(ring, now), s.fingerprint(token);
    OpenedIsCurrent(s, ring, now, token, schema, sorts);
    hide Opened, Run, Approach;
    var first := Approach(0, token, schema, sorts);
    var second := Approach(1, token, schema, sorts);
    Approaches(s, start, 0, token, schema, sorts);
    var m1 := Run(s, start, first);
    Approaches(s, m1, 1, token, schema, sorts);
    var m2 := Run(s, m1, second);
    RunConcat(s, start, first, second);
    var late := [Advance(p.expiresAt), Consume(0), Prune(f), Consume(1), Finish(0)];
    TwoAcceptances(s, m2, token, schema, sorts, p);
    RunConcat(s, start, first + second, late + [Finish(1)]);
    var all := first + second + (late + [Finish(1)]);
    assert Run(s, start, all) == Run(s, m2, late + [Finish(1)]);
  }

  lemma OpenedIsCurrent(s: Setup, ring: Ring, now: int, token: string, schema: string, sorts: seq<SortTerm>)
    requires Opened(s.lib, s.config, ring, now, token, schema, sorts).Ok?
    ensures now < Opened(s.lib, s.config, ring, now, token, schema, sorts).value.expiresAt
  {
    hide Envelope, Unsealed, WellFormed;
  }

  lemma TwoAcceptances(s: Setup, m: Machine, token: string, schema: string, sorts: seq<SortTerm>, p: Payload)
    requires s.policy.prunes && !s.policy.refusesExpired && m.now < p.expiresAt
    requires m.store == map[]
      && m.calls == map[0 := Call(token, schema, sorts, false, Storing(p)),
                        1 := Call(token, schema, sorts, false, Storing(p))]
    ensures var f := s.fingerprint(token);
      var after := Run(s, m, [Advance(p.expiresAt), Consume(0), Prune(f), Consume(1), Finish(0)] + [Finish(1)]);
      ReturnedPayload(after, 0) && ReturnedPayload(after, 1) && after.calls[0].token == after.calls[1].token
  {
    var f := s.fingerprint(token);
    hide Run, Judged, Envelope, Unsealed;
    var waiting := Call(token, schema, sorts, false, Storing(p));
    var accepted, done := waiting.(phase := Accepted(p)), waiting.(phase := Done(Ok(p)));
    var m1 := m.(now := p.expiresAt);
    assert Apply(s, m, Advance(p.expiresAt)) == m1;
    var c1 := Commit(0, token, p);
    var m2 := m1.(calls := map[0 := accepted, 1 := waiting], store := map[f := p.expiresAt],
                  commits := m.commits + [c1]);
    assert Apply(s, m1, Consume(0)).calls == m2.calls;
    assert Apply(s, m1, Consume(0)) == m2;
    var m3 := m2.(store := map[]);
    assert Apply(s, m2, Prune(f)).store == m3.store;
    assert Apply(s, m2, Prune(f)) == m3;
    var m4 := m3.(calls := map[0 := accepted, 1 := accepted], store := map[f := p.expiresAt],
                  commits := m3.commits + [Commit(1, token, p)]);
    assert Apply(s, m3, Consume(1)).calls == m4.calls;
    assert Apply(s, m3, Consume(1)) == m4;
    BothFinish(s, m4, accepted, done);
    hide Apply;
    var late := [Advance(p.expiresAt), Consume(0), Prune(f), Consume(1), Finish(0)];
    RunConcat(s, m, late, [Finish(1)]);
    RunOfFive(s, m, Advance(p.expiresAt), Consume(0), Prune(f), Consume(1), Finish(0));
    var m5 := Apply(s, m4, Finish(0));
    assert [Finish(1)] == [Finish(1)] + [];
    RunCons(s, m5, Finish(1), []);
    RunNothing(s, Apply(s, m5, Finish(1)));
  }

  lemma BothFinish(s: Setup, m: Machine, accepted: Call, done: Call)
    requires accepted.phase.Accepted? && m.calls == map[0 := accepted, 1 := accepted]
    requires done == accepted.(phase := Done(Ok(accepted.phase.payload)))
    ensures Apply(s, Apply(s, m, Finish(0)), Finish(1)).calls == map[0 := done, 1 := done]
  {
    hide Judged, Envelope, Unsealed;
    assert Apply(s, m, Finish(0)).calls == map[0 := done, 1 := accepted];
  }

  lemma RunNothing(s: Setup, m: Machine)
    ensures Run(s, m, []) == m
  {
  }
}
