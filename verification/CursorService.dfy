/** The codec object: it borrows a keyring, a movable clock and an optional replay store. */
module CursorService {
  import opened Text
  import opened Types
  import opened Keyring
  import opened CursorCodec

  /** Where a call's context was seen cancelled: on entry, before the store, by a store that then turns the
      call away, and after the store. */
  datatype Cancellation = Cancellation(onEntry: bool, beforeStore: bool, declined: bool, afterStore: bool)

  const NEVER: Cancellation := Cancellation(false, false, false, false)

  /** One-time consumption of fingerprints. */
  class ReplayStore {
    var consumed: set<Bytes>

    constructor ()
      ensures consumed == {}
    {
      consumed := {};
    }

    /** A call it declines consumes nothing. */
    method Accept(fingerprint: Bytes, expiresAt: int, declined: bool) returns (accepted: bool)
      modifies this
      ensures accepted <==> !declined && fingerprint !in old(consumed)
      ensures consumed == old(consumed) + if declined then {} else {fingerprint}
    {
      if declined {
        return false;
      }
      accepted := fingerprint !in consumed;
      consumed := consumed + {fingerprint};
    }
  }

  class Codec {
    const lib: Library
    const config: Config
    const fingerprint: string -> Bytes
    const keys: KeyStore
    const store: ReplayStore?
    var clock: int

    constructor (lib: Library, config: Config, fingerprint: string -> Bytes, keys: KeyStore, store: ReplayStore?,
                 clock: int)
      ensures this.lib == lib && this.config == config && this.fingerprint == fingerprint
      ensures this.keys == keys && this.store == store && this.clock == clock
    {
      this.lib := lib;
      this.config := config;
      this.fingerprint := fingerprint;
      this.keys := keys;
      this.store := store;
      this.clock := clock;
    }

    /** No clock leaves the old one. */
    method SetClock(clock: Option<int>)
      modifies this`clock
      ensures this.clock == if clock.Some? then clock.value else old(this.clock)
    {
      if clock.None? {
        return;
      }
      this.clock := clock.value;
    }

    /** The token the current ring and clock issue; nothing else changes. */
    method Encode(payload: Payload, nonce: Option<Bytes>) returns (token: Option<string>)
      ensures token == Issue(lib, config, keys.View(), clock, payload, nonce)
    {
      hide WellFormed, ByteLength;
      var valid := ValidPayload(config, payload, clock);
      if !valid {
        return None;
      }
      var keyId, secret, exists_ := keys.ActiveKey();
      if !exists_ {
        return None;
      }
      var plain := lib.marshal(Wire(config.version, payload));
      if plain.None? || |plain.value| > config.maxEncodedBytes {
        return None;
      }
      if |secret| !in {16, 24, 32} || nonce.None? {
        return None;
      }
      var aad := config.version + "." + keyId;
      var sealed := lib.seal(secret, nonce.value, plain.value, aad);
      var text := aad + "." + lib.encode(sealed);
      if ByteLength(text) > config.maxEncodedBytes {
        return None;
      }
      token := Some(text);
    }

    /** Everything before the replay store, with the ring and the clock of this moment. */
    method Open(token: string, schema: string, sorts: seq<SortTerm>) returns (result: Result<Payload>)
      ensures result == Opened(lib, config, keys.View(), clock, token, schema, sorts)
    {
      hide WellFormed, ByteLength, Split;
      if token == "" || ByteLength(token) > config.maxEncodedBytes {
        return Err(Invalid);
      }
      var parts := Split(token, '.');
      if |parts| != 3 {
        return Err(Invalid);
      }
      if parts[0] != config.version {
        return Err(VersionMismatch);
      }
      var secret := keys.Lookup(parts[1]);
      if secret.None? {
        return Err(Invalid);
      }
      var wire := Unsealed(lib, config, parts[1], parts[2], secret.value);
      if wire.Err? {
        return Err(wire.error);
      }
      result := Accepts(wire.value, schema, sorts);
    }

    method Accepts(wire: Wire, schema: string, sorts: seq<SortTerm>) returns (result: Result<Payload>)
      ensures result == Judged(config, wire, clock, schema, sorts)
    {
      hide WellFormed;
      var now := clock;
      var valid := ValidPayload(config, wire.payload, now);
      if wire.version != config.version || !valid {
        return Err(if wire.payload.expiresAt <= now then Expired else Invalid);
      }
      if wire.payload.revision != schema {
        return Err(SchemaMismatch);
      }
      var equal := EqualSorts(wire.payload.sorts, sorts);
      if !equal {
        return Err(SortMismatch);
      }
      result := Ok(wire.payload);
    }

    /** Cancellation on entry comes first, then whatever keeps the token from opening. With a store, a call
        that opens succeeds exactly when it is neither cancelled before the store nor declined and its
        fingerprint was never consumed; success, and nothing else, consumes the fingerprint. */
    method DecodeContext(context: Cancellation, token: string, schema: string, sorts: seq<SortTerm>)
      returns (result: Result<Payload>)
      modifies store
      ensures context.onEntry ==> result == Err(Cancelled)
      ensures !context.onEntry ==> var outcome := Opened(lib, config, keys.View(), clock, token, schema, sorts);
        && (outcome.Err? || store == null ==> result == outcome)
        && (result.Ok? ==> result == outcome)
      ensures store != null && result.Ok? ==>
        !context.beforeStore && !context.declined && fingerprint(token) !in old(store.consumed)
      ensures store != null && result.Ok? ==> store.consumed == old(store.consumed) + {fingerprint(token)}
      ensures store != null && result.Err? ==> store.consumed == old(store.consumed)
      ensures store != null && !context.onEntry && Opened(lib, config, keys.View(), clock, token, schema, sorts).Ok? ==>
        && (context.beforeStore ==> result == Err(Cancelled))
        && (!context.beforeStore && (context.declined || fingerprint(token) in old(store.consumed)) ==>
              result == Err(if context.afterStore then Cancelled else Replayed))
        && (!context.beforeStore && !context.declined && fingerprint(token) !in old(store.consumed) ==> result.Ok?)
    {
      hide Opened;
      if context.onEntry {
        return Err(Cancelled);
      }
      result := Open(token, schema, sorts);
      if result.Err? || store == null {
        return;
      }
      if context.beforeStore {
        return Err(Cancelled);
      }
      var accepted := store.Accept(fingerprint(token), result.value.expiresAt, context.declined);
      if !accepted {
        result := Err(if context.afterStore then Cancelled else Replayed);
      }
    }

    /** Decode refuses to work behind a replay store. */
    method Decode(token: string, schema: string, sorts: seq<SortTerm>) returns (result: Result<Payload>)
      modifies store
      ensures store != null ==> result == Err(Invalid) && store.consumed == old(store.consumed)
      ensures store == null ==> result == Opened(lib, config, keys.View(), clock, token, schema, sorts)
    {
      hide Opened;
      if store != null {
        return Err(Invalid);
      }
      result := DecodeContext(NEVER, token, schema, sorts);
    }

    /** What DecodeContext returns, as a cursor state. */
    method DecodeCursor(context: Cancellation, token: string, schema: string, sorts: seq<SortTerm>)
      returns (state: Result<CursorState>, ghost payload: Result<Payload>)
      modifies store
      ensures payload.Err? ==> state == Err(payload.error)
      ensures payload.Ok? ==>
        state == Ok(CursorState(payload.value.direction, payload.value.positions, payload.value.policy))
      ensures context.onEntry ==> payload == Err(Cancelled)
      ensures !context.onEntry ==> var outcome := Opened(lib, config, keys.View(), clock, token, schema, sorts);
        && (outcome.Err? || store == null ==> payload == outcome)
        && (payload.Ok? ==> payload == outcome)
      ensures store != null && payload.Ok? ==>
        && !context.beforeStore && !context.declined && fingerprint(token) !in old(store.consumed)
        && store.consumed == old(store.consumed) + {fingerprint(token)}
      ensures store != null && payload.Err? ==> store.consumed == old(store.consumed)
    {
      hide Opened;
      var decoded := DecodeContext(context, token, schema, sorts);
      payload := decoded;
      state := StateOf(decoded);
    }

    /** One codec used over and over, with rotations and clock moves in between: of all decodes with one
        fingerprint at most one succeeds, and none whose fingerprint was consumed before. */
    method Serve(uses: seq<Use>) returns (results: seq<Result<Payload>>)
      requires store != null
      modifies this`clock, keys, store
      ensures |results| == |uses|
      ensures forall i :: 0 <= i < |uses| && uses[i].Decoding? && results[i].Ok? ==>
        fingerprint(uses[i].token) !in old(store.consumed) && fingerprint(uses[i].token) in store.consumed
      ensures forall i, j ::
        (0 <= i < j < |uses| && uses[i].Decoding? && uses[j].Decoding? && results[i].Ok? && results[j].Ok?) ==>
        fingerprint(uses[i].token) != fingerprint(uses[j].token)
    {
      results := [];
      for k := 0 to |uses|
        invariant |results| == k && old(store.consumed) <= store.consumed
        invariant forall i :: 0 <= i < k && uses[i].Decoding? && results[i].Ok? ==>
          fingerprint(uses[i].token) !in old(store.consumed) && fingerprint(uses[i].token) in store.consumed
        invariant forall i, j ::
          (0 <= i < j < k && uses[i].Decoding? && uses[j].Decoding? && results[i].Ok? && results[j].Ok?) ==>
          fingerprint(uses[i].token) != fingerprint(uses[j].token)
      {
        hide Opened;
        var result: Result<Payload> := Err(Invalid);
        match uses[k] {
          case Decoding(context, token, schema, sorts) =>
            result := DecodeContext(context, token, schema, sorts);
          case Rotating(active, retained) =>
            var ok := keys.Rotate(active, retained);
          case Winding(clock) =>
            SetClock(clock);
        }
        results := results + [result];
      }
    }
  }

  /** One use of a codec. */
  datatype Use =
    | Decoding(context: Cancellation, token: string, schema: string, sorts: seq<SortTerm>)
    | Rotating(active: Key, retained: seq<Key>)
    | Winding(clock: Option<int>)

  function StateOf(r: Result<Payload>): Result<CursorState> {
    match r
    case Err(e) => Err(e)
    case Ok(p) => Ok(CursorState(p.direction, p.positions, p.policy))
  }

  /** NewCodec: a codec exists exactly for a usable configuration with an active key. Without a clock it
      goes by the system's. */
  method NewCodec(lib: Library, config: Config, fingerprint: string -> Bytes, keys: KeyStore?, store: ReplayStore?,
                  clock: Option<int>, systemClock: int)
    returns (codec: Codec?)
    ensures codec != null <==>
      && ValidKeyId(config.version) && keys != null && config.maxEncodedBytes > 0 && config.maxPositions > 0
        && config.maxTTL > 0
      && keys.active in keys.keys
    ensures codec != null ==>
      && fresh(codec) && codec.lib == lib && codec.fingerprint == fingerprint
      && codec.keys == keys && codec.store == store
      && codec.clock == (if clock.Some? then clock.value else systemClock)
      && codec.config == Config(config.version, config.maxEncodedBytes, config.maxPositions,
                                if config.maxStringBytes > 0 then config.maxStringBytes else 256, config.maxTTL)
    ensures codec != null && config.maxTTL <= MAX_INT ==> UsableConfig(codec.config)
  {
    if !ValidKeyId(config.version) || keys == null || config.maxEncodedBytes <= 0 || config.maxPositions <= 0
      || config.maxTTL <= 0 {
      return null;
    }
    var keyId, secret, exists_ := keys.ActiveKey();
    if !exists_ {
      return null;
    }
    var bounded := config.(maxStringBytes := if config.maxStringBytes <= 0 then 256 else config.maxStringBytes);
    codec := new Codec(lib, bounded, fingerprint, keys, store, if clock.Some? then clock.value else systemClock);
  }
}
