/** From page to page: a cursor issued for a plan is accepted by the compiler on the next request. */
module CursorPaging {
  import opened Text
  import opened Types
  import opened Schemas
  import opened SortPhase
  import opened Compile
  import opened Admission
  import opened Keyring
  import opened CursorCodec
  import opened CursorService

  /** The codec as the compiler's decoder, at one moment. */
  function DecoderOf(lib: Library, c: Config, ring: Ring, now: int)
    : (string, string, seq<SortTerm>) -> Option<CursorState>
  {
    (token, revision, sorts) =>
      match StateOf(Opened(lib, c, ring, now, token, revision, sorts))
      case Ok(state) => Some(state)
      case Err(_) => None
  }

  /** The request for the page after a cursor, or before it. */
  function NextRequest(request: Request, direction: CursorDirection, token: string): Request {
    request.(page := if direction == Backward then request.page.(before := token) else request.page.(after := token))
  }

  /** What a position payload must be to continue a plan in either direction. */
  ghost predicate Continues(schema: Schema, plan: PlanData, p: Payload) {
    && p.revision == schema.revision && p.sorts == plan.sorts
    && |p.positions| == |plan.sorts| && PositionsOk(schema, plan.sorts, p.positions, |plan.sorts|)
    && ByteLength(p.policy) <= schema.bounds.maxStringBytes
  }

  /** A cursor page compiled without a token, and a token issued for its own revision and order: as long
      as the token is unexpired and its key is still in the ring, the request for the next page, after
      or before the cursor as its payload says, compiles exactly when the positions are canonical, and
      then to the same plan with exactly that cursor. */
  lemma {:induction false} NextPageCompiles(schema: Schema, request: Request, options: CompileOptions, lib: Library,
                         c: Config, ring: Ring, issuedAt: int, p: Payload, nonce: Bytes, later: Ring, now: int)
    requires ValidSchema(schema) && CompileRun(schema, request, options).trail.violations == []
    requires var plan := CompileRun(schema, request, options).plan;
      plan.page.mode == PageCursor && Continues(schema, plan, p)
    requires request.page.after == "" && request.page.before == ""
    requires Lawful(lib) && UsableConfig(c) && Usable(ring) && |nonce| == NONCE_SIZE
    requires Issue(lib, c, ring, issuedAt, p, Some(nonce)).Some?
    requires ByteLength(Issue(lib, c, ring, issuedAt, p, Some(nonce)).value) <= schema.bounds.maxCursorBytes
    requires options.decoder == Some(DecoderOf(lib, c, later, now))
    requires issuedAt <= now < p.expiresAt
      && ring.active in later.keys && later.keys[ring.active] == ring.keys[ring.active]
    ensures var plan := CompileRun(schema, request, options).plan;
      var next := CompileRun(schema,
          NextRequest(request, p.direction, Issue(lib, c, ring, issuedAt, p, Some(nonce)).value), options);
      && (next.trail.violations == [] <==> Readable(lib, p))
      && (Readable(lib, p) ==> next.plan == plan.(cursor := Some(CursorState(p.direction, p.positions, p.policy))))
  {
    var token := Issue(lib, c, ring, issuedAt, p, Some(nonce)).value;
    var again := NextRequest(request, p.direction, token);
    IssuedText(lib, c, ring, issuedAt, p, nonce);
    NeedsNonce(lib, c, ring, issuedAt, p, Some(nonce));
    LifetimeShrinks(c, p, issuedAt, now);
    IssuedDecodes(lib, c, ring, issuedAt, p, nonce, later, now, schema.revision, p.sorts);
    hide Issue, Opened, Lawful, Readable, Usable, UsableConfig, ValidSchema, CompileRun;
    Accepted(schema, request, options);
    var state := if Readable(lib, p) then Some(CursorState(p.direction, p.positions, p.policy)) else None;
    NextIsAdmissible(schema, request, options, token, p.direction, state);
    Accepted(schema, again, options);
    var run := CompileRun(schema, request, options);
    hide RequestOk, TotalCost;
    if Readable(lib, p) {
      CostDecides(schema, again, options, run.edges);
    }
  }

  lemma IssuedText(lib: Library, c: Config, ring: Ring, now: int, p: Payload, nonce: Bytes)
    requires Issue(lib, c, ring, now, p, Some(nonce)).Some?
    ensures Issue(lib, c, ring, now, p, Some(nonce)).value != ""
  {
    hide WellFormed, ByteLength;
  }

  lemma NextIsAdmissible(schema: Schema, request: Request, options: CompileOptions, token: string,
                         direction: CursorDirection, state: Option<CursorState>)
    requires RequestOk(schema, request, options) && request.page.after == "" && request.page.before == ""
    requires NormalizedPage(schema, request.page).mode == PageCursor && (direction == Forward || direction == Backward)
    requires token != "" && ByteLength(token) <= schema.bounds.maxCursorBytes
    requires options.decoder.Some?
      && options.decoder.value(token, schema.revision, FinalSorts(schema, request)) == state
    requires state.Some? ==>
      && state.value.direction == direction && |state.value.positions| == |FinalSorts(schema, request)|
      && ByteLength(state.value.policy) <= schema.bounds.maxStringBytes
      && PositionsOk(schema, FinalSorts(schema, request), state.value.positions, |FinalSorts(schema, request)|)
    ensures var again := NextRequest(request, direction, token);
      && (RequestOk(schema, again, options) <==> state.Some?)
      && FinalSorts(schema, again) == FinalSorts(schema, request)
      && FinalPage(schema, again) == FinalPage(schema, request)
      && FinalCursor(schema, again, options) == state
  {
    var again := NextRequest(request, direction, token);
    var page, next := NormalizedPage(schema, request.page), NormalizedPage(schema, again.page);
    assert next == if direction == Backward then page.(before := token) else page.(after := token);
    assert FinalSorts(schema, again) == FinalSorts(schema, request);
    hide FinalSorts, ByteLength, NormalizedPage, TieOk;
  }
}
