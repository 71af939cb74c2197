/** The laws asked of the cursor's libraries contradict neither each other nor the issuing of tokens:
    here is a library that meets them. */
module CursorLibrary {
  import opened Text
  import opened Types
  import opened Keyring
  import opened CursorCodec

  // ---------------------------------------------------------------- a seal that determines what it seals

  function Unary(n: nat): Bytes { if n == 0 then [0] else [1] + Unary(n - 1) }

  function CharBytes(c: char): Bytes { [c as int / 65536, c as int / 256 % 256, c as int % 256] }

  function TextBytes(s: string): Bytes { if s == "" then [] else CharBytes(s[0]) + TextBytes(s[1..]) }

  function Padding(): (zeros: Bytes)
    ensures |zeros| == OVERHEAD
  {
    seq(OVERHEAD, i => 0)
  }

  function Body(k: Secret, p: Bytes, a: string): Bytes { Unary(|k|) + (Unary(|p|) + (k + (p + TextBytes(a)))) }

  function Seal(k: Secret, n: Bytes, p: Bytes, a: string): Bytes { n + Padding() + Body(k, p, a) }

  lemma {:induction false} UnaryEnds(n: nat, m: nat, r: Bytes, q: Bytes)
    requires Unary(n) + r == Unary(m) + q
    ensures n == m && r == q
  {
    assert (Unary(n) + r)[0] == Unary(n)[0] && (Unary(m) + q)[0] == Unary(m)[0];
    assert (Unary(n) + r)[1..] == Unary(n)[1..] + r && (Unary(m) + q)[1..] == Unary(m)[1..] + q;
    if n > 0 && m > 0 {
      UnaryEnds(n - 1, m - 1, r, q);
    } else {
      assert n == 0 && m == 0;
      assert [] + r == r && [] + q == q;
    }
  }

  lemma PrefixCancels(a: Bytes, b: Bytes, r: Bytes, q: Bytes)
    requires a + r == b + q && |a| == |b|
    ensures a == b && r == q
  {
    assert (a + r)[..|a|] == a && (b + q)[..|b|] == b;
    assert (a + r)[|a|..] == r && (b + q)[|b|..] == q;
  }

  lemma CharReads(c: char, d: char)
    requires CharBytes(c) == CharBytes(d)
    ensures c == d
  {
    Base256(c as int);
    Base256(d as int);
    assert CharBytes(c)[0] == CharBytes(d)[0] && CharBytes(c)[1] == CharBytes(d)[1]
      && CharBytes(c)[2] == CharBytes(d)[2];
  }

  lemma Base256(n: nat)
    ensures n == 256 * (256 * (n / 65536) + n / 256 % 256) + n % 256
  {
    assert n / 65536 == n / 256 / 256;
  }

  lemma {:induction false} TextReads(a: string, b: string)
    requires TextBytes(a) == TextBytes(b)
    ensures a == b
  {
    if a != "" && b != "" {
      PrefixCancels(CharBytes(a[0]), CharBytes(b[0]), TextBytes(a[1..]), TextBytes(b[1..]));
      CharReads(a[0], b[0]);
      TextReads(a[1..], b[1..]);
    }
  }

  lemma BodyReads(k: Secret, p: Bytes, a: string, k': Secret, p': Bytes, a': string)
    requires Body(k, p, a) == Body(k', p', a')
    ensures k == k' && p == p' && a == a'
  {
    hide Unary, TextBytes;
    UnaryEnds(|k|, |k'|, Unary(|p|) + (k + (p + TextBytes(a))), Unary(|p'|) + (k' + (p' + TextBytes(a'))));
    UnaryEnds(|p|, |p'|, k + (p + TextBytes(a)), k' + (p' + TextBytes(a')));
    PrefixCancels(k, k', p + TextBytes(a), p' + TextBytes(a'));
    PrefixCancels(p, p', TextBytes(a), TextBytes(a'));
    TextReads(a, a');
  }

  lemma SealReads(k: Secret, n: Bytes, p: Bytes, a: string, k': Secret, n': Bytes, p': Bytes, a': string)
    requires |n| == NONCE_SIZE && |n'| == NONCE_SIZE && Seal(k, n, p, a) == Seal(k', n', p', a')
    ensures k == k' && p == p' && a == a'
  {
    hide Body;
    PrefixCancels(n + Padding(), n' + Padding(), Body(k, p, a), Body(k', p', a'));
    BodyReads(k, p, a, k', p', a');
  }

  ghost predicate Sealed(k: Secret, s: Bytes, a: string, p: Bytes) {
    exists n :: |n| == NONCE_SIZE && s == Seal(k, n, p, a)
  }

  ghost function Opening(k: Secret, s: Bytes, a: string): (r: Option<Bytes>)
    ensures r.Some? ==> Sealed(k, s, a, r.value)
    ensures r.None? ==> forall p :: !Sealed(k, s, a, p)
  {
    if exists p :: Sealed(k, s, a, p) then
      var p :| Sealed(k, s, a, p);
      Some(p)
    else None
  }

  lemma OpeningIsExact(k: Secret, n: Bytes, p: Bytes, a: string, j: Secret, b: string)
    requires |n| == NONCE_SIZE
    ensures Opening(j, Seal(k, n, p, a), b) == if j == k && b == a then Some(p) else None
  {
    var s := Seal(k, n, p, a);
    hide Seal;
    if j == k && b == a {
      assert Sealed(k, s, a, p);
    }
    var r := Opening(j, s, b);
    if r.Some? {
      var m :| |m| == NONCE_SIZE && s == Seal(j, m, r.value, b);
      SealReads(k, n, p, a, j, m, r.value, b);
    }
  }

  // ---------------------------------------------------------------- a dot-free encoding

  function Encoded(b: Bytes): (s: string)
    ensures |s| == |b| && '.' !in s && forall i :: 0 <= i < |b| ==> s[i] as int == (b[i] as int) + 256
  {
    seq(|b|, i requires 0 <= i < |b| => ((b[i] as int) + 256) as char)
  }

  function DecodedText(s: string): Option<Bytes> {
    if forall i :: 0 <= i < |s| ==> 256 <= s[i] as int < 512
    then Some(seq(|s|, i requires 0 <= i < |s| => s[i] as int - 256))
    else None
  }

  lemma EncodingReads(b: Bytes)
    ensures DecodedText(Encoded(b)) == Some(b)
  {
    assert DecodedText(Encoded(b)).value == b;
  }

  lemma DecodingIsStrict(s: string)
    requires DecodedText(s).Some?
    ensures Encoded(DecodedText(s).value) == s
  {
  }

  /** A decoder that skips line feeds, so that it is not strict. */
  function Unbroken(s: string): (r: string)
    ensures '\n' !in s ==> r == s
  {
    if s == "" then ""
    else
      var rest := Unbroken(s[1..]);
      if s[0] == '\n' then rest else [s[0]] + rest
  }

  lemma {:induction false} UnbrokenSnoc(s: string)
    ensures Unbroken(s + "\n") == Unbroken(s)
  {
    if s != "" {
      UnbrokenSnoc(s[1..]);
      assert (s + "\n")[0] == s[0] && (s + "\n")[1..] == s[1..] + "\n";
    } else {
      assert s + "\n" == "\n" && "\n"[1..] == "";
    }
  }

  // ---------------------------------------------------------------- the library

  function At(ws: seq<Wire>, b: Bytes): Option<Wire> {
    if b != [] && b == Unary(|b| - 1) && |b| <= |ws| then Some(ws[|b| - 1]) else None
  }

  function IndexOf(ws: seq<Wire>, w: Wire): (n: nat)
    requires w in ws
    ensures n < |ws| && ws[n] == w
  {
    if ws[0] == w then 0 else 1 + IndexOf(ws[1..], w)
  }

  lemma {:induction false} UnaryLength(n: nat)
    ensures |Unary(n)| == n + 1
  {
    if n > 0 {
      UnaryLength(n - 1);
    }
  }

  /** Years have four digits (section 5.6 of RFC 3339). */
  predicate FourDigitYear(s: string) { |s| > 4 && s[4] == '-' }

  /** Everything but the JSON form. */
  ghost function Base(): Library {
    Library(w => None, b => None, (k, n, p, a) => Seal(k, n, p, a), (k, s, a) => Opening(k, s, a),
            b => Encoded(b), s => DecodedText(s), s => true, s => FourDigitYear(s))
  }

  /** A library that carries these payloads. */
  ghost function Carrier(ws: seq<Wire>): Library {
    Base().(marshal := w => Writing(ws, w), unmarshal := b => Reading(ws, b))
  }

  /** The same, with the decoder that skips line feeds. */
  ghost function LaxCarrier(ws: seq<Wire>): Library {
    Carrier(ws).(decode := s => DecodedText(Unbroken(s)))
  }

  function Writing(ws: seq<Wire>, w: Wire): Option<Bytes> {
    if w in ws then Some(Unary(IndexOf(ws, w))) else None
  }

  ghost function Reading(ws: seq<Wire>, b: Bytes): Option<Wire> {
    var w := At(ws, b);
    if w.Some? && Readable(Base(), w.value.payload) then w else None
  }

  lemma WritingReads(ws: seq<Wire>, w: Wire)
    ensures Writing(ws, w).Some? <==> w in ws
    ensures w in ws ==> Reading(ws, Writing(ws, w).value) == if Readable(Base(), w.payload) then Some(w) else None
  {
    if w in ws {
      UnaryLength(IndexOf(ws, w));
    }
  }

  /** For every finite list of payloads, canonical or not, there are lawful libraries that carry them all:
      one whose decoding is strict, and one whose decoding is not. */
  lemma LawsAreConsistent(ws: seq<Wire>)
    ensures Lawful(Carrier(ws)) && Strict(Carrier(ws)) && forall w <- ws :: Carrier(ws).marshal(w).Some?
    ensures Lawful(LaxCarrier(ws)) && !Strict(LaxCarrier(ws)) && forall w <- ws :: LaxCarrier(ws).marshal(w).Some?
  {
    CarrierIsLawful(ws);
    LaxIsLawful(ws);
  }

  lemma LaxIsLawful(ws: seq<Wire>)
    requires Lawful(Carrier(ws))
    ensures Lawful(LaxCarrier(ws)) && !Strict(LaxCarrier(ws))
  {
    var strict, lax := Carrier(ws), LaxCarrier(ws);
    hide Encoded, DecodedText, Unbroken, Canonical;
    forall w: Wire ensures Readable(lax, w.payload) <==> Readable(strict, w.payload) {
      forall v | v in w.payload.positions ensures Canonical(lax, v) <==> Canonical(strict, v) {
        SameCanonical(lax, v);
        SameCanonical(strict, v);
      }
    }
    forall b ensures lax.decode(lax.encode(b)) == Some(b) {
      EncodingReads(b);
      EncodedIsUnbroken(b);
    }
    LaxIsNotStrict();
    assert lax.decode("\n") == Some([]) && lax.encode([]) == "";
  }

  lemma EncodedIsUnbroken(b: Bytes)
    ensures Unbroken(Encoded(b)) == Encoded(b)
  {
    assert '\n' !in Encoded(b);
  }

  lemma LaxIsNotStrict()
    ensures DecodedText(Unbroken("\n")) == Some([]) && Encoded([]) == ""
  {
    UnbrokenSnoc("");
    assert "" + "\n" == "\n";
    assert DecodedText("").value == [];
  }

  lemma CarrierIsLawful(ws: seq<Wire>)
    ensures Lawful(Carrier(ws)) && Strict(Carrier(ws)) && forall w <- ws :: Carrier(ws).marshal(w).Some?
  {
    var lib := Carrier(ws);
    hide Seal, Encoded, DecodedText, Sealed, Writing, At, Canonical;
    forall w: Wire ensures Readable(lib, w.payload) <==> Readable(Base(), w.payload) {
      forall v | v in w.payload.positions ensures Canonical(lib, v) <==> Canonical(Base(), v) {
        SameCanonical(lib, v);
      }
    }
    forall w: Wire | lib.marshal(w).Some?
      ensures lib.unmarshal(lib.marshal(w).value) == if Readable(lib, w.payload) then Some(w) else None
    {
      WritingReads(ws, w);
    }
    forall k, n, p, a, j, b | |n| == NONCE_SIZE
      ensures lib.open(j, lib.seal(k, n, p, a), b) == if j == k && b == a then Some(p) else None
    {
      OpeningIsExact(k, n, p, a, j, b);
    }
    forall k, n, p, a | |n| == NONCE_SIZE ensures |lib.seal(k, n, p, a)| >= NONCE_SIZE + OVERHEAD {
      SealIsLong(k, n, p, a);
    }
    forall k, s, a | lib.open(k, s, a).Some?
      ensures exists n :: |n| == NONCE_SIZE && s == lib.seal(k, n, lib.open(k, s, a).value, a) {
      var n := NonceOf(k, s, a, lib.open(k, s, a).value);
      assert s == lib.seal(k, n, lib.open(k, s, a).value, a);
    }
    forall b ensures lib.decode(lib.encode(b)) == Some(b) && '.' !in lib.encode(b) {
      EncodingReads(b);
    }
    forall s | lib.decode(s).Some? ensures s == lib.encode(lib.decode(s).value) {
      DecodingIsStrict(s);
    }
    forall w | w in ws ensures lib.marshal(w).Some? {
      WritingReads(ws, w);
    }
  }

  lemma SameCanonical(lib: Library, v: Value)
    requires lib.encode == Base().encode && lib.canonicalFloat == Base().canonicalFloat
      && lib.canonicalTime == Base().canonicalTime
    ensures Canonical(lib, v) <==> Canonical(Base(), v)
  {
    hide SignedDecimal, Decimal;
  }

  lemma NonceOf(k: Secret, s: Bytes, a: string, p: Bytes) returns (n: Bytes)
    requires Sealed(k, s, a, p)
    ensures |n| == NONCE_SIZE && s == Seal(k, n, p, a)
  {
    n :| |n| == NONCE_SIZE && s == Seal(k, n, p, a);
  }

  lemma SealIsLong(k: Secret, n: Bytes, p: Bytes, a: string)
    requires |n| == NONCE_SIZE
    ensures |Seal(k, n, p, a)| >= NONCE_SIZE + OVERHEAD
  {
  }
}
