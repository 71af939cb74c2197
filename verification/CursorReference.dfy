/** What issuing and opening a cursor token mean, on every input: which tokens are issued, which open and to what,
    and which error the others get. */
module CursorReference {
  import opened Text
  import opened Types
  import opened Keyring
  import opened CursorCodec

  const LOWER: string := "abcdefghijklm" + "nopqrstuvwxyz"

  const UPPER: string := "ABCDEFGHIJKLM" + "NOPQRSTUVWXYZ"

  const KEY_LETTERS: string := LOWER + UPPER + "0123456789_-"

  /** One to sixty-four ASCII letters, digits, underscores or hyphens. */
  predicate KeyName(s: string) { 1 <= |s| <= 64 && forall ch <- s :: ch in KEY_LETTERS }

  lemma KeyLetters(ch: char)
    ensures KeyChar(ch) <==> ch in KEY_LETTERS
    ensures KeyChar(ch) ==> Utf8Width(ch) == 1
  {
    LowerLetters(ch);
    UpperLetters(ch);
    Digits(ch);
    hide LOWER, UPPER;
  }

  lemma LowerLetters(ch: char)
    ensures 'a' <= ch <= 'z' <==> ch in LOWER
  {
    if 'a' <= ch <= 'm' {
      assert "abcdefghijklm"[ch as int - 'a' as int] == ch;
    }
    if 'n' <= ch <= 'z' {
      assert "nopqrstuvwxyz"[ch as int - 'n' as int] == ch;
    }
  }

  lemma UpperLetters(ch: char)
    ensures 'A' <= ch <= 'Z' <==> ch in UPPER
  {
    if 'A' <= ch <= 'M' {
      assert "ABCDEFGHIJKLM"[ch as int - 'A' as int] == ch;
    }
    if 'N' <= ch <= 'Z' {
      assert "NOPQRSTUVWXYZ"[ch as int - 'N' as int] == ch;
    }
  }

  lemma Digits(ch: char)
    ensures '0' <= ch <= '9' || ch == '_' || ch == '-' <==> ch in "0123456789_-"
  {
    if '0' <= ch <= '9' {
      assert "0123456789_-"[ch as int - '0' as int] == ch;
    }
    assert "0123456789_-"[10] == '_' && "0123456789_-"[11] == '-';
  }

  lemma {:induction false} AsciiLength(s: string)
    requires forall ch <- s :: KeyChar(ch)
    ensures ByteLength(s) == |s|
  {
    if s != "" {
      KeyLetters(s[0]);
      AsciiLength(s[1..]);
    }
  }

  lemma KeyNames(s: string)
    ensures ValidKeyId(s) <==> KeyName(s)
  {
    forall ch | ch in s ensures KeyChar(ch) <==> ch in KEY_LETTERS {
      KeyLetters(ch);
    }
    hide KeyChar, ByteLength, KEY_LETTERS;
    if forall i :: 0 <= i < |s| ==> KeyChar(s[i]) {
      AsciiLength(s);
    }
  }

  // ---------------------------------------------------------------- payloads

  /** Between one byte and this many. */
  predicate Short(s: string, most: int) { s != "" && ByteLength(s) <= most }

  /** A payload within every bound, still current at this instant and not for longer than a token may live. */
  ghost predicate Payable(c: Config, p: Payload, now: int) {
    && Short(p.revision, c.maxStringBytes) && ByteLength(p.policy) <= c.maxStringBytes
    && (p.direction == Forward || p.direction == Backward)
    && 1 <= |p.positions| <= c.maxPositions && |p.sorts| == |p.positions|
    && (forall t <- p.sorts ::
          && Short(t.name, c.maxStringBytes) && (t.direction == Ascending || t.direction == Descending)
          && t.nulls in {NullsUnset, NullsFirst, NullsLast})
    && (forall v <- p.positions :: ByteLength(v.text) <= c.maxStringBytes && v.kind != TypeUnset)
    && now < p.expiresAt && (p.expiresAt <= now + c.maxTTL || c.maxTTL == MAX_INT)
  }

  lemma ShortLength(s: string, most: int)
    ensures Short(s, most) <==> 0 < ByteLength(s) <= most
  {
  }

  lemma EntriesAgree(c: Config, p: Payload)
    requires |p.sorts| == |p.positions|
    ensures (forall i :: 0 <= i < |p.sorts| ==> ValidEntry(c, p.sorts[i], p.positions[i])) <==>
      && (forall t <- p.sorts ::
            && Short(t.name, c.maxStringBytes) && (t.direction == Ascending || t.direction == Descending)
            && t.nulls in {NullsUnset, NullsFirst, NullsLast})
      && (forall v <- p.positions :: ByteLength(v.text) <= c.maxStringBytes && v.kind != TypeUnset)
  {
    forall t | t in p.sorts ensures Short(t.name, c.maxStringBytes) <==> 0 < ByteLength(t.name) <= c.maxStringBytes {
      ShortLength(t.name, c.maxStringBytes);
    }
    hide ByteLength, Short;
    if forall i :: 0 <= i < |p.sorts| ==> ValidEntry(c, p.sorts[i], p.positions[i]) {
      forall t | t in p.sorts ensures
          && Short(t.name, c.maxStringBytes) && (t.direction == Ascending || t.direction == Descending)
          && t.nulls in {NullsUnset, NullsFirst, NullsLast}
      {
        var i :| 0 <= i < |p.sorts| && p.sorts[i] == t;
        assert ValidEntry(c, p.sorts[i], p.positions[i]);
      }
      forall v | v in p.positions ensures ByteLength(v.text) <= c.maxStringBytes && v.kind != TypeUnset {
        var i :| 0 <= i < |p.positions| && p.positions[i] == v;
        assert ValidEntry(c, p.sorts[i], p.positions[i]);
      }
    }
  }

  lemma PayableExactly(c: Config, p: Payload, now: int)
    requires 0 < c.maxTTL <= MAX_INT
    ensures WellFormed(c, p) && Current(c, p, now) <==> Payable(c, p, now)
  {
    ShortLength(p.revision, c.maxStringBytes);
    if |p.sorts| == |p.positions| {
      EntriesAgree(c, p);
    }
    hide ByteLength, Short, ValidEntry;
  }

  // ---------------------------------------------------------------- tokens

  /** The token of these three parts. */
  predicate Spells(token: string, version: string, keyId: string, part: string) {
    token == version + "." + keyId + "." + part && '.' !in version && '.' !in keyId && '.' !in part
  }

  lemma SpellsExactly(token: string, version: string, keyId: string, part: string)
    ensures Split(token, '.') == [version, keyId, part] <==> Spells(token, version, keyId, part)
  {
    var parts := [version, keyId, part];
    assert Join(parts, ".") == version + "." + keyId + "." + part by {
      JoinCons(version, [keyId, part], ".");
      JoinCons(keyId, [part], ".");
      assert parts == [version] + [keyId, part] && [keyId, part] == [keyId] + [part];
      ConcatAssociates(version + ".", keyId + ".", part);
      assert version + "." + (keyId + "." + part) == version + "." + keyId + "." + part;
    }
    JoinSplit(token, '.');
    hide Split, Join;
    if Spells(token, version, keyId, part) {
      SplitJoin(parts, '.');
      assert [version, keyId, part] == parts;
    }
    if Split(token, '.') == parts {
      assert parts[0] in parts && parts[1] in parts && parts[2] in parts;
    }
  }

  lemma SplitSpells(token: string)
    requires |Split(token, '.')| == 3
    ensures Spells(token, Split(token, '.')[0], Split(token, '.')[1], Split(token, '.')[2])
  {
    var parts := Split(token, '.');
    assert parts == [parts[0], parts[1], parts[2]];
    SpellsExactly(token, parts[0], parts[1], parts[2]);
  }

  /** A token of another version. */
  ghost predicate Foreign(c: Config, token: string) {
    ByteLength(token) <= c.maxEncodedBytes
    && exists version, keyId, part :: Spells(token, version, keyId, part) && version != c.version
  }

  /** What the token carries, sealed under the ring's key for its key id and for this version. */
  ghost predicate Carries(lib: Library, c: Config, ring: Ring, token: string, wire: Wire) {
    && ByteLength(token) <= c.maxEncodedBytes
    && exists keyId, part, sealed ::
         && Spells(token, c.version, keyId, part) && keyId in ring.keys && |ring.keys[keyId]| in {16, 24, 32}
         && lib.decode(part) == Some(sealed) && |sealed| >= NONCE_SIZE + OVERHEAD
         && lib.open(ring.keys[keyId], sealed, c.version + "." + keyId).Some?
         && lib.unmarshal(lib.open(ring.keys[keyId], sealed, c.version + "." + keyId).value) == Some(wire)
  }

  /** Opening, told by what the token carries. */
  ghost function Verdict(c: Config, wire: Wire, now: int, schema: string, sorts: seq<SortTerm>): Result<Payload> {
    var p := wire.payload;
    if p.expiresAt <= now then Err(Expired)
    else if wire.version != c.version || !Payable(c, p, now) then Err(Invalid)
    else if p.revision != schema then Err(SchemaMismatch)
    else if p.sorts != sorts then Err(SortMismatch)
    else Ok(p)
  }

  lemma JudgedExactly(c: Config, wire: Wire, now: int, schema: string, sorts: seq<SortTerm>)
    requires 0 < c.maxTTL <= MAX_INT
    ensures Judged(c, wire, now, schema, sorts) == Verdict(c, wire, now, schema, sorts)
  {
    PayableExactly(c, wire.payload, now);
    hide WellFormed, Short, ByteLength;
  }

  /** Exactly three parts of which the first is the version reach the key. */
  lemma EnvelopeExactly(c: Config, token: string)
    ensures Envelope(c, token) == Err(VersionMismatch) <==> Foreign(c, token)
    ensures forall keyId, part :: Envelope(c, token) == Ok((keyId, part)) <==>
      ByteLength(token) <= c.maxEncodedBytes && Spells(token, c.version, keyId, part)
    ensures Envelope(c, token) in {Err(VersionMismatch), Err(Invalid)} || Envelope(c, token).Ok?
  {
    var parts := Split(token, '.');
    hide Split, ByteLength;
    if |parts| == 3 {
      SplitSpells(token);
    }
    forall version, keyId, part ensures Split(token, '.') == [version, keyId, part] <==>
        Spells(token, version, keyId, part)
    {
      SpellsExactly(token, version, keyId, part);
    }
    forall version, keyId, part | Spells(token, version, keyId, part) ensures token != "" {
    }
    hide Spells;
  }

  lemma CarriesExactly(lib: Library, c: Config, ring: Ring, token: string, wire: Wire)
    ensures Carries(lib, c, ring, token, wire) <==>
      && Envelope(c, token).Ok? && Envelope(c, token).value.0 in ring.keys
      && Unsealed(lib, c, Envelope(c, token).value.0, Envelope(c, token).value.1,
                  ring.keys[Envelope(c, token).value.0]) == Ok(wire)
  {
    EnvelopeExactly(c, token);
    hide Envelope, Spells, ByteLength;
    if Envelope(c, token).Ok? {
      var (keyId, part) := Envelope(c, token).value;
      assert Envelope(c, token) == Ok((keyId, part));
      assert Associated(c.version, keyId) == c.version + "." + keyId;
      if keyId in ring.keys && Unsealed(lib, c, keyId, part, ring.keys[keyId]) == Ok(wire) {
        assert lib.decode(part) == Some(lib.decode(part).value);
      }
    }
    if Carries(lib, c, ring, token, wire) {
      var keyId, part, sealed :|
         && Spells(token, c.version, keyId, part) && keyId in ring.keys && |ring.keys[keyId]| in {16, 24, 32}
         && lib.decode(part) == Some(sealed) && |sealed| >= NONCE_SIZE + OVERHEAD
         && lib.open(ring.keys[keyId], sealed, c.version + "." + keyId).Some?
         && lib.unmarshal(lib.open(ring.keys[keyId], sealed, c.version + "." + keyId).value) == Some(wire);
      assert Envelope(c, token) == Ok((keyId, part));
    }
  }

  /** A token opens as what it carries says. One of another version is told so, and any other is invalid. */
  lemma OpenedExactly(lib: Library, c: Config, ring: Ring, now: int, token: string, schema: string,
                      sorts: seq<SortTerm>)
    requires 0 < c.maxTTL <= MAX_INT
    ensures forall wire | Carries(lib, c, ring, token, wire) ::
      Opened(lib, c, ring, now, token, schema, sorts) == Verdict(c, wire, now, schema, sorts)
    ensures Opened(lib, c, ring, now, token, schema, sorts) == Err(VersionMismatch) <==> Foreign(c, token)
    ensures (forall wire :: !Carries(lib, c, ring, token, wire)) && !Foreign(c, token) ==>
      Opened(lib, c, ring, now, token, schema, sorts) == Err(Invalid)
  {
    EnvelopeExactly(c, token);
    forall wire: Wire
      ensures Carries(lib, c, ring, token, wire) <==>
        && Envelope(c, token).Ok? && Envelope(c, token).value.0 in ring.keys
        && Unsealed(lib, c, Envelope(c, token).value.0, Envelope(c, token).value.1,
                    ring.keys[Envelope(c, token).value.0]) == Ok(wire)
      ensures Judged(c, wire, now, schema, sorts) == Verdict(c, wire, now, schema, sorts)
    {
      CarriesExactly(lib, c, ring, token, wire);
      JudgedExactly(c, wire, now, schema, sorts);
    }
    UnsealedErrors(lib, c, ring, token);
    hide Envelope, Unsealed, Judged, Carries, Foreign, Payable;
  }

  lemma UnsealedErrors(lib: Library, c: Config, ring: Ring, token: string)
    ensures Envelope(c, token).Ok? && Envelope(c, token).value.0 in ring.keys ==>
      var r := Unsealed(lib, c, Envelope(c, token).value.0, Envelope(c, token).value.1,
                        ring.keys[Envelope(c, token).value.0]);
      r.Err? ==> r == Err(Invalid)
  {
    hide Envelope;
  }

  /** A token is issued exactly for a payload within every bound, under the active key, when its text and its
      plain text fit. */
  lemma IssuedExactly(lib: Library, c: Config, ring: Ring, now: int, p: Payload, nonce: Option<Bytes>, token: string)
    requires 0 < c.maxTTL <= MAX_INT
    ensures Issue(lib, c, ring, now, p, nonce) == Some(token) <==>
      && Payable(c, p, now) && ring.active in ring.keys && |ring.keys[ring.active]| in {16, 24, 32} && nonce.Some?
      && lib.marshal(Wire(c.version, p)).Some? && |lib.marshal(Wire(c.version, p)).value| <= c.maxEncodedBytes
      && token == c.version + "." + ring.active + "."
                  + lib.encode(lib.seal(ring.keys[ring.active], nonce.value, lib.marshal(Wire(c.version, p)).value,
                                        c.version + "." + ring.active))
      && ByteLength(token) <= c.maxEncodedBytes
  {
    PayableExactly(c, p, now);
    hide WellFormed, Current, Payable, ByteLength;
  }
}
