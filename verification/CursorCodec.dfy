/** Cursor tokens: a payload is marshalled, sealed under the active key and printed as three parts. */
module CursorCodec {
  import opened Text
  import opened Types
  import opened Keyring

  type Bytes = seq<Byte>

  datatype Payload = Payload(
    revision: string, direction: CursorDirection, sorts: seq<SortTerm>, positions: seq<Value>, expiresAt: int,
      policy: string)

  /** The payload as it travels, bound to the protocol version. */
  datatype Wire = Wire(version: string, payload: Payload)

  /** Instants and durations count nanoseconds. */
  datatype Config = Config(version: string, maxEncodedBytes: int, maxPositions: int, maxStringBytes: int, maxTTL: int)

  /** What the codec takes from libraries. */
  datatype Library = Library(
    marshal: Wire -> Option<Bytes>,
    unmarshal: Bytes -> Option<Wire>,
    seal: (Secret, Bytes, Bytes, string) -> Bytes,
    open: (Secret, Bytes, string) -> Option<Bytes>,
    encode: Bytes -> string,
    decode: string -> Option<Bytes>,
    canonicalFloat: string -> bool,
    canonicalTime: string -> bool)

  const NONCE_SIZE: nat := 12
  const OVERHEAD: nat := 16

  function SignedDecimal(n: int): string { if n < 0 then "-" + Decimal(-n) else Decimal(n) }

  /** A position whose text is the one its own type prints; no other position can be read back. */
  ghost predicate Canonical(lib: Library, v: Value) {
    match v.kind
    case TypeString => true
    case TypeInt => exists n: int :: -MAX_INT - 1 <= n <= MAX_INT && v.text == SignedDecimal(n)
    case TypeUint => exists n: nat :: n <= 0xFFFF_FFFF_FFFF_FFFF && v.text == Decimal(n)
    case TypeFloat => lib.canonicalFloat(v.text)
    case TypeBool => v.text == "true" || v.text == "false"
    case TypeTime => lib.canonicalTime(v.text)
    case TypeBytes => exists b :: v.text == lib.encode(b)
    case TypeNull => v.text == ""
    case TypeUnset => false
  }

  ghost predicate Readable(lib: Library, p: Payload) {
    forall v <- p.positions :: Canonical(lib, v)
  }

  /** An ideal AEAD: opening succeeds exactly on what was sealed with the same key and associated data,
      and what was sealed determines the key, the data and the text; a dot-free encoding with an
      inverse; and a JSON form that can be read back exactly when its positions are canonical. */
  ghost predicate Lawful(lib: Library) {
    && (forall k, n, p, a | |n| == NONCE_SIZE ::
          lib.open(k, lib.seal(k, n, p, a), a) == Some(p) && |lib.seal(k, n, p, a)| >= NONCE_SIZE + OVERHEAD)
    && (forall k, n, p, a, s, b | |n| == NONCE_SIZE && s == lib.seal(k, n, p, a) && b != a :: lib.open(k, s, b) == None)
    && (forall k, j, n, p, a, b | |n| == NONCE_SIZE && j != k :: lib.open(j, lib.seal(k, n, p, a), b) == None)
    && (forall k, s, a | lib.open(k, s, a).Some? :: exists n ::
        |n| == NONCE_SIZE && s == lib.seal(k, n, lib.open(k, s, a).value, a))
    && (forall b :: lib.decode(lib.encode(b)) == Some(b) && '.' !in lib.encode(b))
    && (forall w: Wire :: lib.marshal(w).Some? ==>
          lib.unmarshal(lib.marshal(w).value) == if Readable(lib, w.payload) then Some(w) else None)
    && (forall b :: lib.unmarshal(b).Some? ==> Readable(lib, lib.unmarshal(b).value.payload))
  }

  /** No two texts decode to the same bytes. */
  ghost predicate Strict(lib: Library) {
    forall s :: lib.decode(s).Some? ==> s == lib.encode(lib.decode(s).value)
  }

  datatype DecodeError = Invalid | Expired | VersionMismatch | SchemaMismatch | SortMismatch | Replayed | Cancelled

  datatype Result<+T> = Ok(value: T) | Err(error: DecodeError)

  ghost predicate UsableConfig(c: Config) {
    ValidKeyId(c.version) && c.maxEncodedBytes > 0 && c.maxPositions > 0 && c.maxStringBytes > 0
      && 0 < c.maxTTL <= MAX_INT
  }

  // ---------------------------------------------------------------- validity

  /** time.Time.Sub saturates at the largest duration. */
  function Remaining(expiresAt: int, now: int): int {
    if expiresAt - now > MAX_INT then MAX_INT else expiresAt - now
  }

  predicate ValidEntry(c: Config, sort: SortTerm, position: Value) {
    && 0 < ByteLength(sort.name) <= c.maxStringBytes
    && ValidDirection(sort.direction) && ValidNulls(sort.nulls)
    && ByteLength(position.text) <= c.maxStringBytes && position.kind != TypeUnset
  }

  /** Everything about a payload that does not depend on the clock. */
  predicate WellFormed(c: Config, p: Payload) {
    && 0 < ByteLength(p.revision) <= c.maxStringBytes
    && ByteLength(p.policy) <= c.maxStringBytes
    && 0 < |p.positions| <= c.maxPositions && |p.positions| == |p.sorts|
    && (p.direction == Forward || p.direction == Backward)
    && forall i :: 0 <= i < |p.sorts| ==> ValidEntry(c, p.sorts[i], p.positions[i])
  }

  predicate Current(c: Config, p: Payload, now: int) {
    now < p.expiresAt && Remaining(p.expiresAt, now) <= c.maxTTL
  }

  method ValidPayload(c: Config, p: Payload, now: int) returns (ok: bool)
    ensures ok <==> WellFormed(c, p) && Current(c, p, now)
  {
    hide ByteLength;
    if ByteLength(p.revision) == 0 || ByteLength(p.revision) > c.maxStringBytes
      || ByteLength(p.policy) > c.maxStringBytes
      || |p.positions| == 0 || |p.positions| > c.maxPositions || |p.positions| != |p.sorts|
      || p.expiresAt <= now || Remaining(p.expiresAt, now) > c.maxTTL
      || (p.direction != Forward && p.direction != Backward) {
      return false;
    }
    for index := 0 to |p.sorts|
      invariant forall i :: 0 <= i < index ==> ValidEntry(c, p.sorts[i], p.positions[i])
    {
      var sort, position := p.sorts[index], p.positions[index];
      if ByteLength(sort.name) == 0 || ByteLength(sort.name) > c.maxStringBytes
        || (sort.direction != Ascending && sort.direction != Descending)
        || (sort.nulls != NullsUnset && sort.nulls != NullsFirst && sort.nulls != NullsLast)
        || ByteLength(position.text) > c.maxStringBytes || position.kind == TypeUnset {
        assert !ValidEntry(c, p.sorts[index], p.positions[index]);
        return false;
      }
    }
    ok := true;
  }

  method EqualSorts(left: seq<SortTerm>, right: seq<SortTerm>) returns (equal: bool)
    ensures equal <==> left == right
  {
    if |left| != |right| {
      return false;
    }
    for index := 0 to |left|
      invariant left[..index] == right[..index]
    {
      if left[index] != right[index] {
        return false;
      }
    }
    assert left[..|left|] == left && right[..|right|] == right;
    equal := true;
  }

  // ---------------------------------------------------------------- issuing and opening, on a snapshot

  function Associated(version: string, keyId: string): string { version + "." + keyId }

  /** The token issued for a payload at an instant; no token on any failure. */
  function Issue(lib: Library, c: Config, ring: Ring, now: int, p: Payload, nonce: Option<Bytes>): Option<string> {
    if !WellFormed(c, p) || !Current(c, p, now) || ring.active !in ring.keys then None
    else
      match lib.marshal(Wire(c.version, p))
      case None => None
      case Some(plain) =>
        var secret := ring.keys[ring.active];
        if |plain| > c.maxEncodedBytes || |secret| !in {16, 24, 32} || nonce.None? then None
        else
          var aad := Associated(c.version, ring.active);
          var token := aad + "." + lib.encode(lib.seal(secret, nonce.value, plain, aad));
          if ByteLength(token) > c.maxEncodedBytes then None else Some(token)
  }

  /** The parts of a token's envelope, before any key is used. */
  function Envelope(c: Config, token: string): Result<(string, string)> {
    var parts := Split(token, '.');
    if token == "" || ByteLength(token) > c.maxEncodedBytes || |parts| != 3 then Err(Invalid)
    else if parts[0] != c.version then Err(VersionMismatch)
    else Ok((parts[1], parts[2]))
  }

  /** Opening the sealed part with one secret. */
  function Unsealed(lib: Library, c: Config, keyId: string, encoded: string, secret: Secret): Result<Wire> {
    match lib.decode(encoded)
    case None => Err(Invalid)
    case Some(sealed) =>
      if |secret| !in {16, 24, 32} || |sealed| < NONCE_SIZE + OVERHEAD then Err(Invalid)
      else
        match lib.open(secret, sealed, Associated(c.version, keyId))
        case None => Err(Invalid)
        case Some(plain) =>
          match lib.unmarshal(plain)
          case None => Err(Invalid)
          case Some(wire) => Ok(wire)
  }

  /** Judging an authentic payload at an instant, for an expected schema and order. */
  function Judged(c: Config, wire: Wire, now: int, schema: string, sorts: seq<SortTerm>): Result<Payload> {
    var p := wire.payload;
    if wire.version != c.version || !WellFormed(c, p) || !Current(c, p, now) then
      if p.expiresAt <= now then Err(Expired) else Err(Invalid)
    else if p.revision != schema then Err(SchemaMismatch)
    else if p.sorts != sorts then Err(SortMismatch)
    else Ok(p)
  }

  /** What a token decodes to, replay aside, when the ring and the clock do not move meanwhile. */
  function Opened(lib: Library, c: Config, ring: Ring, now: int, token: string, schema: string,
                  sorts: seq<SortTerm>): Result<Payload> {
    match Envelope(c, token)
    case Err(e) => Err(e)
    case Ok((keyId, encoded)) =>
      if keyId !in ring.keys then Err(Invalid)
      else
        match Unsealed(lib, c, keyId, encoded, ring.keys[keyId])
        case Err(e) => Err(e)
        case Ok(wire) => Judged(c, wire, now, schema, sorts)
  }

  // ---------------------------------------------------------------- round trip

  /** The envelope of an issued token splits back into exactly its three parts. */
  lemma IssuedEnvelope(c: Config, keyId: string, encoded: string)
    requires ValidKeyId(c.version) && ValidKeyId(keyId) && '.' !in encoded
    requires ByteLength(Associated(c.version, keyId) + "." + encoded) <= c.maxEncodedBytes
    ensures Envelope(c, Associated(c.version, keyId) + "." + encoded) == Ok((keyId, encoded))
  {
    KeyIdsHaveNoDot(c.version);
    KeyIdsHaveNoDot(keyId);
    var rest := keyId + "." + encoded;
    var token := Associated(c.version, keyId) + "." + encoded;
    assert token == c.version + "." + rest;
    SplitCons(c.version, rest, '.');
    SplitCons(keyId, encoded, '.');
    SplitWhole(encoded, '.');
    hide Split, ByteLength;
    assert Split(token, '.') == [c.version, keyId, encoded];
  }

  /** The exact outcome for an issued token, whatever ring and clock it is decoded with. Encode seals
      positions as they are; Decode reads canonical ones only. */
  ghost function Outcome(lib: Library, c: Config, keyId: string, secret: Secret, p: Payload, ring: Ring, now: int,
                         schema: string, sorts: seq<SortTerm>): Result<Payload> {
    if keyId !in ring.keys || ring.keys[keyId] != secret || !Readable(lib, p) then Err(Invalid)
    else if p.expiresAt <= now then Err(Expired)
    else if Remaining(p.expiresAt, now) > c.maxTTL then Err(Invalid)
    else if p.revision != schema then Err(SchemaMismatch)
    else if p.sorts != sorts then Err(SortMismatch)
    else Ok(p)
  }

  lemma IssuedUnseals(lib: Library, c: Config, keyId: string, secret: Secret, nonce: Bytes, p: Payload, other: Secret)
    requires Lawful(lib) && |nonce| == NONCE_SIZE && |secret| in {16, 24, 32} && lib.marshal(Wire(c.version, p)).Some?
    ensures var plain := lib.marshal(Wire(c.version, p)).value;
      var encoded := lib.encode(lib.seal(secret, nonce, plain, Associated(c.version, keyId)));
      && '.' !in encoded
      && Unsealed(lib, c, keyId, encoded, other)
        == if other == secret && Readable(lib, p) then Ok(Wire(c.version, p)) else Err(Invalid)
  {
    var plain, aad := lib.marshal(Wire(c.version, p)).value, Associated(c.version, keyId);
    var sealed := lib.seal(secret, nonce, plain, aad);
    assert lib.decode(lib.encode(sealed)) == Some(sealed);
    assert lib.open(secret, sealed, aad) == Some(plain);
    if other != secret {
      assert lib.open(other, lib.seal(secret, nonce, plain, aad), aad) == None;
    }
  }

  /** A token decodes to the payload it was issued for exactly when the ring still maps its key id to
      the same secret, its positions are canonical, it is current, and the expected revision and order match;
      otherwise the error
      says which condition failed first. */
  lemma IssuedDecodes(lib: Library, c: Config, ring: Ring, now: int, p: Payload, nonce: Bytes,
                      later: Ring, then_: int, schema: string, sorts: seq<SortTerm>)
    requires Lawful(lib) && UsableConfig(c) && Usable(ring) && |nonce| == NONCE_SIZE
    requires Issue(lib, c, ring, now, p, Some(nonce)).Some?
    ensures var token := Issue(lib, c, ring, now, p, Some(nonce)).value;
      Opened(lib, c, later, then_, token, schema, sorts)
        == Outcome(lib, c, ring.active, ring.keys[ring.active], p, later, then_, schema, sorts)
  {
    var keyId, secret := ring.active, ring.keys[ring.active];
    var plain, aad := lib.marshal(Wire(c.version, p)).value, Associated(c.version, keyId);
    var encoded := lib.encode(lib.seal(secret, nonce, plain, aad));
    hide Lawful, ByteLength;
    IssuedUnseals(lib, c, keyId, secret, nonce, p, secret);
    IssuedEnvelope(c, keyId, encoded);
    if keyId in later.keys {
      IssuedUnseals(lib, c, keyId, secret, nonce, p, later.keys[keyId]);
    }
    hide Envelope, Unsealed, Associated;
  }

  /** As the clock advances a payload that could be issued stays within the lifetime limit. */
  lemma LifetimeShrinks(c: Config, p: Payload, now: int, then_: int)
    requires Current(c, p, now) && now <= then_
    ensures Remaining(p.expiresAt, then_) <= c.maxTTL
    ensures Current(c, p, then_) <==> then_ < p.expiresAt
  {
  }

  /** A token text opens to at most one payload, whichever keys and instants are used. */
  lemma TokenFixesWire(lib: Library, c: Config, keyId: string, encoded: string, a: Secret, b: Secret)
    requires Lawful(lib) && Unsealed(lib, c, keyId, encoded, a).Ok? && Unsealed(lib, c, keyId, encoded, b).Ok?
    ensures Unsealed(lib, c, keyId, encoded, a) == Unsealed(lib, c, keyId, encoded, b)
  {
    var sealed, aad := lib.decode(encoded).value, Associated(c.version, keyId);
    var plain := lib.open(a, sealed, aad).value;
    var n :| |n| == NONCE_SIZE && sealed == lib.seal(a, n, plain, aad);
    assert a != b ==> lib.open(b, lib.seal(a, n, plain, aad), aad) == None;
  }

  /** Only a sealed token opens: its last part encodes something sealed under the ring's own key for
      its key id and this protocol version. */
  lemma OpenedWasSealed(lib: Library, c: Config, ring: Ring, now: int, token: string, schema: string,
                        sorts: seq<SortTerm>)
    requires Lawful(lib) && Opened(lib, c, ring, now, token, schema, sorts).Ok?
    ensures var p := Opened(lib, c, ring, now, token, schema, sorts).value;
      && WellFormed(c, p) && Readable(lib, p) && Current(c, p, now) && p.revision == schema && p.sorts == sorts
      && exists keyId, encoded, nonce, plain ::
           && keyId in ring.keys && Split(token, '.') == [c.version, keyId, encoded] && |nonce| == NONCE_SIZE
           && lib.decode(encoded) == Some(lib.seal(ring.keys[keyId], nonce, plain, Associated(c.version, keyId)))
           && lib.unmarshal(plain) == Some(Wire(c.version, p))
  {
    var (keyId, encoded) := Envelope(c, token).value;
    var secret, sealed, aad := ring.keys[keyId], lib.decode(encoded).value, Associated(c.version, keyId);
    var plain := lib.open(secret, sealed, aad).value;
    var nonce :| |nonce| == NONCE_SIZE && sealed == lib.seal(secret, nonce, plain, aad);
    hide ByteLength, Split, Lawful;
    assert Split(token, '.') == [c.version, keyId, encoded];
    var p := Opened(lib, c, ring, now, token, schema, sorts).value;
    assert lib.unmarshal(plain) == Some(Wire(c.version, p));
  }

  // ---------------------------------------------------------------- runs of encodes, rotations and clock steps

  datatype Step =
    | EncodeStep(payload: Payload, nonce: Option<Bytes>)
    | RotateStep(ring: Ring)
    | ClockStep(now: int)

  /** A token issued during the run, with the payload and the key it was issued for. */
  datatype Issued = Issued(token: string, payload: Payload, keyId: string, secret: Secret)

  datatype World = World(ring: Ring, now: int, issued: seq<Issued>)

  ghost predicate Allowed(w: World, step: Step) {
    match step
    case EncodeStep(_, nonce) => nonce.Some? ==> |nonce.value| == NONCE_SIZE
    case RotateStep(ring) => Usable(ring)
    case ClockStep(now) => w.now <= now
  }

  function Taken(lib: Library, c: Config, w: World, step: Step): World {
    match step
    case EncodeStep(p, nonce) =>
      var token := Issue(lib, c, w.ring, w.now, p, nonce);
      if token.Some? && w.ring.active in w.ring.keys
      then w.(issued := w.issued + [Issued(token.value, p, w.ring.active, w.ring.keys[w.ring.active])])
      else w
    case RotateStep(ring) => w.(ring := ring)
    case ClockStep(now) => w.(now := now)
  }

  function After(lib: Library, c: Config, start: World, steps: seq<Step>): World {
    if steps == [] then start else Taken(lib, c, After(lib, c, start, steps[..|steps| - 1]), steps[|steps| - 1])
  }

  ghost predicate AllAllowed(lib: Library, c: Config, start: World, steps: seq<Step>) {
    steps != [] ==>
      && AllAllowed(lib, c, start, steps[..|steps| - 1])
      && Allowed(After(lib, c, start, steps[..|steps| - 1]), steps[|steps| - 1])
  }

  /** An issued token's record: the token is the one issued then, and its payload was current by now. */
  ghost predicate Genuine(lib: Library, c: Config, now: int, i: Issued) {
    exists ring: Ring, earlier: int, nonce ::
      && earlier <= now && Usable(ring) && |nonce| == NONCE_SIZE
      && ring.active == i.keyId && ring.keys[ring.active] == i.secret
      && Issue(lib, c, ring, earlier, i.payload, Some(nonce)) == Some(i.token)
  }

  lemma {:induction false} RunsAreGenuine(lib: Library, c: Config, start: World, steps: seq<Step>)
    requires Usable(start.ring) && start.issued == [] && AllAllowed(lib, c, start, steps)
    ensures var w := After(lib, c, start, steps); Usable(w.ring) && forall i <- w.issued :: Genuine(lib, c, w.now, i)
  {
    if steps != [] {
      var before, step := After(lib, c, start, steps[..|steps| - 1]), steps[|steps| - 1];
      RunsAreGenuine(lib, c, start, steps[..|steps| - 1]);
      var w := Taken(lib, c, before, step);
      hide Issue;
      forall i | i in w.issued ensures Genuine(lib, c, w.now, i) {
        if i in before.issued {
          assert Genuine(lib, c, before.now, i);
          var ring: Ring, earlier: int, nonce :|
            && earlier <= before.now && Usable(ring) && |nonce| == NONCE_SIZE
            && ring.active == i.keyId && ring.keys[ring.active] == i.secret
            && Issue(lib, c, ring, earlier, i.payload, Some(nonce)) == Some(i.token);
          assert earlier <= w.now;
        } else {
          NeedsNonce(lib, c, before.ring, before.now, step.payload, step.nonce);
          assert Issue(lib, c, before.ring, before.now, i.payload, Some(step.nonce.value)) == Some(i.token);
        }
      }
    }
  }

  lemma NeedsNonce(lib: Library, c: Config, ring: Ring, now: int, p: Payload, nonce: Option<Bytes>)
    requires Issue(lib, c, ring, now, p, nonce).Some?
    ensures nonce.Some? && Current(c, p, now) && WellFormed(c, p)
  {
    hide WellFormed, ByteLength;
  }

  /** After any run of encodes, rotations and forward clock steps, every token issued on the way
      decodes to its own payload exactly when the ring maps its key id to the secret it was sealed
      with, its positions are canonical, it is unexpired, and the expected revision and order are its
      own. A token with any other position is invalid for ever. */
  lemma RunsRoundTrip(lib: Library, c: Config, start: World, steps: seq<Step>, i: Issued, schema: string,
                      sorts: seq<SortTerm>)
    requires Lawful(lib) && UsableConfig(c)
    requires Usable(start.ring) && start.issued == [] && AllAllowed(lib, c, start, steps)
    requires i in After(lib, c, start, steps).issued
    ensures var w := After(lib, c, start, steps);
      && (Opened(lib, c, w.ring, w.now, i.token, schema, sorts) == Ok(i.payload) <==>
            && i.keyId in w.ring.keys && w.ring.keys[i.keyId] == i.secret
            && Readable(lib, i.payload) && w.now < i.payload.expiresAt
            && i.payload.revision == schema && i.payload.sorts == sorts)
      && (Opened(lib, c, w.ring, w.now, i.token, schema, sorts).Ok? ==>
            Opened(lib, c, w.ring, w.now, i.token, schema, sorts) == Ok(i.payload))
      && (!Readable(lib, i.payload) ==> Opened(lib, c, w.ring, w.now, i.token, schema, sorts) == Err(Invalid))
  {
    var w := After(lib, c, start, steps);
    RunsAreGenuine(lib, c, start, steps);
    assert Genuine(lib, c, w.now, i);
    var ring: Ring, earlier: int, nonce :|
      && earlier <= w.now && Usable(ring) && |nonce| == NONCE_SIZE
      && ring.active == i.keyId && ring.keys[ring.active] == i.secret
      && Issue(lib, c, ring, earlier, i.payload, Some(nonce)) == Some(i.token);
    NeedsNonce(lib, c, ring, earlier, i.payload, Some(nonce));
    LifetimeShrinks(c, i.payload, earlier, w.now);
    hide Issue, Opened, After, Lawful, Usable, AllAllowed;
    IssuedDecodes(lib, c, ring, earlier, i.payload, nonce, w.ring, w.now, schema, sorts);
  }
}
