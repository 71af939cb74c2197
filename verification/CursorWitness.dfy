/** Two tokens that show where the cursor's promises end: one that is issued and never decodes, and one
    whose sealed part is accepted twice under two spellings. */
module CursorWitness {
  import opened Text
  import opened Types
  import opened Keyring
  import opened CursorCodec
  import opened CursorLibrary
  import opened ReplayMachine

  function Zeros(n: nat): (zeros: Bytes)
    ensures |zeros| == n
  {
    seq(n, i => 0)
  }

  function Keys(): Ring { Ring("k", map["k" := Zeros(32)]) }

  function Nonce(): (nonce: Bytes)
    ensures |nonce| == NONCE_SIZE
  {
    Zeros(NONCE_SIZE)
  }

  /** A payload with one position. */
  function PayloadAt(v: Value): Payload {
    Payload("r", Forward, [SortTerm("s", Ascending, NullsUnset)], [v], 1, "")
  }

  function Sent(v: Value): seq<Wire> { [Wire("v", PayloadAt(v))] }

  /** The sealed part of the token issued for it, and the token. */
  function PartIssued(): Bytes { Seal(Zeros(32), Nonce(), Unary(0), Associated("v", "k")) }

  function TokenIssued(): string { Associated("v", "k") + "." + Encoded(PartIssued()) }

  /** Limits that leave room for the token and one character more. */
  function ConfigAt(v: Value): Config {
    Config("v", ByteLength(TokenIssued() + "\n") + |Unary(0)|, 1,
           ByteLength("r") + ByteLength("s") + ByteLength(v.text), 1)
  }

  lemma SmallTexts()
    ensures ByteLength("v") == 1 && ByteLength("k") == 1 && ByteLength("r") == 1 && ByteLength("s") == 1
      && ByteLength("") == 0
    ensures ValidKeyId("v") && ValidKeyId("k")
  {
    assert "v"[1..] == "" && "k"[1..] == "" && "r"[1..] == "" && "s"[1..] == "";
  }

  lemma {:induction false} LengthSnoc(s: string, c: char)
    ensures ByteLength(s) < ByteLength(s + [c])
  {
    if s == "" {
      assert s + [c] == [c];
    } else {
      LengthSnoc(s[1..], c);
      assert (s + [c])[0] == s[0] && (s + [c])[1..] == s[1..] + [c];
    }
  }

  lemma SmallIsUsable(v: Value)
    requires v.kind != TypeUnset
    ensures UsableConfig(ConfigAt(v)) && Usable(Keys()) && WellFormed(ConfigAt(v), PayloadAt(v))
      && Current(ConfigAt(v), PayloadAt(v), 0)
    ensures ByteLength(TokenIssued()) < ByteLength(TokenIssued() + "\n") < ConfigAt(v).maxEncodedBytes
  {
    SmallTexts();
    LengthSnoc(TokenIssued(), '\n');
    hide TokenIssued, ByteLength;
  }

  lemma Marshals(v: Value)
    ensures Carrier(Sent(v)).marshal(Wire("v", PayloadAt(v))) == Some(Unary(0))
  {
    assert Sent(v)[0] == Wire("v", PayloadAt(v));
    hide Unary;
  }

  lemma TokenIsIssued(lib: Library, v: Value)
    requires lib == Carrier(Sent(v)) || lib == LaxCarrier(Sent(v))
    requires v.kind != TypeUnset
    ensures Issue(lib, ConfigAt(v), Keys(), 0, PayloadAt(v), Some(Nonce())) == Some(TokenIssued())
  {
    SmallIsUsable(v);
    Marshals(v);
    IssuesThis(lib, ConfigAt(v), Keys(), 0, PayloadAt(v), Nonce(), Unary(0), TokenIssued());
  }

  lemma IssuesThis(lib: Library, c: Config, ring: Ring, now: int, p: Payload, nonce: Bytes, plain: Bytes, token: string)
    requires WellFormed(c, p) && Current(c, p, now) && ring.active in ring.keys && |ring.keys[ring.active]| == 32
    requires lib.marshal(Wire(c.version, p)) == Some(plain) && |plain| <= c.maxEncodedBytes
    requires var aad := Associated(c.version, ring.active);
      token == aad + "." + lib.encode(lib.seal(ring.keys[ring.active], nonce, plain, aad))
    requires ByteLength(token) <= c.maxEncodedBytes
    ensures Issue(lib, c, ring, now, p, Some(nonce)) == Some(token)
  {
    hide WellFormed, Current, ByteLength, Associated;
  }

  // ---------------------------------------------------------------- issued and never decoded

  function Far(): (v: Value)
    ensures v.kind == TypeTime
  {
    Value(TypeTime, "10000-01-01T00:00:00Z")
  }

  lemma FarIsNotCanonical()
    ensures !Readable(Carrier(Sent(Far())), PayloadAt(Far()))
  {
    assert Far() in PayloadAt(Far()).positions;
    hide Sent, PayloadAt;
  }

  /** A time beyond the year 9999 is sealed into a token that no later ring and instant can decode. */
  lemma FarTimeNeverDecodes(later: Ring, now: int, schema: string, sorts: seq<SortTerm>)
    ensures var lib, c, p := Carrier(Sent(Far())), ConfigAt(Far()), PayloadAt(Far());
      && Lawful(lib) && UsableConfig(c) && Usable(Keys()) && !Readable(lib, p)
      && Issue(lib, c, Keys(), 0, p, Some(Nonce())) == Some(TokenIssued())
      && Opened(lib, c, later, now, TokenIssued(), schema, sorts) == Err(Invalid)
  {
    hide *;
    CarrierIsLawful(Sent(Far()));
    SmallIsUsable(Far());
    TokenIsIssued(Carrier(Sent(Far())), Far());
    FarIsNotCanonical();
    NeverDecodes(Carrier(Sent(Far())), ConfigAt(Far()), Keys(), 0, PayloadAt(Far()), Nonce(), later, now, schema,
                 sorts);
  }

  lemma NeverDecodes(lib: Library, c: Config, ring: Ring, issuedAt: int, p: Payload, nonce: Bytes, later: Ring,
                     now: int, schema: string, sorts: seq<SortTerm>)
    requires Lawful(lib) && UsableConfig(c) && Usable(ring) && |nonce| == NONCE_SIZE && !Readable(lib, p)
    requires Issue(lib, c, ring, issuedAt, p, Some(nonce)).Some?
    ensures Opened(lib, c, later, now, Issue(lib, c, ring, issuedAt, p, Some(nonce)).value, schema, sorts)
      == Err(Invalid)
  {
    hide Issue, Opened, Lawful, Readable, UsableConfig;
    IssuedDecodes(lib, c, ring, issuedAt, p, nonce, later, now, schema, sorts);
  }

  // ---------------------------------------------------------------- accepted twice

  function Plain(): Value { Value(TypeString, "") }

  /** A codec whose decoder skips line feeds, and whose store goes by a collision-free fingerprint. */
  ghost function LaxSetup(): Setup {
    Setup(LaxCarrier(Sent(Plain())), ConfigAt(Plain()), s => TextBytes(s), Policy(false, false))
  }

  lemma FingerprintsDiffer(x: string, y: string)
    requires x != y
    ensures LaxSetup().fingerprint(x) != LaxSetup().fingerprint(y)
  {
    hide ConfigAt, LaxCarrier;
    if TextBytes(x) == TextBytes(y) {
      TextReads(x, y);
    }
  }

  lemma LaxReads(b: Bytes)
    ensures DecodedText(Unbroken(Encoded(b))) == Some(b) && DecodedText(Unbroken(Encoded(b) + "\n")) == Some(b)
  {
    EncodingReads(b);
    EncodedIsUnbroken(b);
    UnbrokenSnoc(Encoded(b));
  }

  /** A token and the same token with a line feed at its end, for any decoder that skips it. */
  lemma LineFeedRespells(s: Setup, part: Bytes, t: string)
    requires s.config.version == "v" && t == Associated("v", "k") + "." + s.lib.encode(part)
    requires ByteLength(t) <= s.config.maxEncodedBytes && ByteLength(t + "\n") <= s.config.maxEncodedBytes
    requires '.' !in s.lib.encode(part)
    requires s.lib.decode(s.lib.encode(part)) == Some(part) && s.lib.decode(s.lib.encode(part) + "\n") == Some(part)
    ensures Respells(s, t, t + "\n") && Spelled(s, t) && !Spelled(s, t + "\n")
  {
    var e := s.lib.encode(part);
    SmallTexts();
    assert Associated("v", "k") + "." + (e + "\n") == t + "\n" by { hide Associated; }
    IssuedEnvelope(s.config, "k", e);
    IssuedEnvelope(s.config, "k", e + "\n");
    hide Envelope, Associated, ByteLength, Split;
    assert |e + "\n"| != |e|;
  }

  /** An issued token and any other spelling of it with another fingerprint both succeed. */
  lemma BothSucceed(s: Setup, ring: Ring, now: int, p: Payload, nonce: Bytes, u: string) returns (actions: seq<Action>)
    requires Lawful(s.lib) && UsableConfig(s.config) && Usable(ring) && |nonce| == NONCE_SIZE && Readable(s.lib, p)
    requires Issue(s.lib, s.config, ring, now, p, Some(nonce)).Some?
    requires var t := Issue(s.lib, s.config, ring, now, p, Some(nonce)).value;
      Respells(s, t, u) && s.fingerprint(t) != s.fingerprint(u)
    ensures TwoSuccesses(s, ring, now, Issue(s.lib, s.config, ring, now, p, Some(nonce)).value, actions, 0, 1)
  {
    var t := Issue(s.lib, s.config, ring, now, p, Some(nonce)).value;
    NeedsNonce(s.lib, s.config, ring, now, p, Some(nonce));
    IssuedDecodes(s.lib, s.config, ring, now, p, nonce, ring, now, p.revision, p.sorts);
    hide Opened, Issue, Lawful, ReplayMachine.Run, Respells, SealedPart, WellFormed, Readable, UsableConfig;
    RespelledOpens(s, ring, now, t, u, p.revision, p.sorts);
    actions := TextsCountSeparately(s, ring, now, t, u, p.revision, p.sorts);
  }

  /** A token and the same token with a line feed at its end carry one sealed part, and both succeed. */
  lemma LineFeedSucceedsToo() returns (actions: seq<Action>)
    ensures var s, t := LaxSetup(), TokenIssued();
      && Lawful(s.lib) && UsableConfig(s.config) && Usable(Keys())
      && Issue(s.lib, s.config, Keys(), 0, PayloadAt(Plain()), Some(Nonce())) == Some(t)
      && Respells(s, t, t + "\n") && Spelled(s, t) && !Spelled(s, t + "\n")
      && TwoSuccesses(s, Keys(), 0, t, actions, 0, 1)
  {
    hide *;
    LaxParts();
    LawsAreConsistent(Sent(Plain()));
    SmallIsUsable(Plain());
    TokenIsIssued(LaxSetup().lib, Plain());
    assert |TokenIssued() + "\n"| > |TokenIssued()|;
    FingerprintsDiffer(TokenIssued(), TokenIssued() + "\n");
    LineFeedRespells(LaxSetup(), PartIssued(), TokenIssued());
    actions := BothSucceed(LaxSetup(), Keys(), 0, PayloadAt(Plain()), Nonce(), TokenIssued() + "\n");
  }

  lemma LaxParts()
    ensures var s := LaxSetup(); var e := s.lib.encode(PartIssued());
      && s.lib == LaxCarrier(Sent(Plain())) && s.config == ConfigAt(Plain()) && s.config.version == "v"
      && TokenIssued() == Associated("v", "k") + "." + e && '.' !in e
      && s.lib.decode(e) == Some(PartIssued()) && s.lib.decode(e + "\n") == Some(PartIssued())
      && Plain().kind == TypeString && Readable(s.lib, PayloadAt(Plain()))
  {
    LaxReads(PartIssued());
    hide PartIssued, Encoded, DecodedText, Unbroken, Associated, ByteLength, Unary;
  }
}
