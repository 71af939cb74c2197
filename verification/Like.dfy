/** The LIKE operand the PostgreSQL adapter builds, against the meaning LIKE ... ESCAPE '\' has in
    section 8.5 of ISO/IEC 9075-2:2003. */
module Like {
  import opened Text

  const ESCAPE_CHAR := '\\'

  // ---------------------------------------------------------------- what LIKE means

  datatype Element = Exactly(c: char) | AnyOne | AnyMany

  /** The elements of a pattern; None when an escape is not followed by a character that may be
      escaped, which the standard makes an error. */
  function Elements(pattern: string): Option<seq<Element>> {
    if pattern == "" then Some([])
    else if pattern[0] == ESCAPE_CHAR then
      if |pattern| == 1 || pattern[1] !in {ESCAPE_CHAR, '%', '_'} then None
      else Prepend(Exactly(pattern[1]), Elements(pattern[2..]))
    else
      Prepend(
        if pattern[0] == '%' then AnyMany else if pattern[0] == '_' then AnyOne else Exactly(pattern[0]),
        Elements(pattern[1..]))
  }

  function Prepend(e: Element, rest: Option<seq<Element>>): Option<seq<Element>> {
    match rest
    case None => None
    case Some(es) => Some([e] + es)
  }

  /** s can be cut into one substring for each element, in order. */
  ghost predicate Matches(es: seq<Element>, s: string)
    decreases |es|
  {
    if es == [] then s == ""
    else match es[0]
      case Exactly(c) => s != "" && s[0] == c && Matches(es[1..], s[1..])
      case AnyOne => s != "" && Matches(es[1..], s[1..])
      case AnyMany => exists k | 0 <= k <= |s| :: Matches(es[1..], s[k..])
  }

  ghost predicate SqlLike(s: string, pattern: string) {
    Elements(pattern).Some? && Matches(Elements(pattern).value, s)
  }

  // ---------------------------------------------------------------- escaping

  /** strings.ReplaceAll for a one-character old string. */
  function ReplaceAll(s: string, old_: char, new_: string): string {
    if s == "" then "" else (if s[0] == old_ then new_ else [s[0]]) + ReplaceAll(s[1..], old_, new_)
  }

  function EscapeLike(value: string): string {
    var backslashes := ReplaceAll(value, '\\', "\\\\");
    var percents := ReplaceAll(backslashes, '%', "\\%");
    ReplaceAll(percents, '_', "\\_")
  }

  /** The one-pass form: every metacharacter is preceded by the escape character. */
  function EscapeOnePass(value: string): string {
    if value == "" then ""
    else (if value[0] in {ESCAPE_CHAR, '%', '_'} then [ESCAPE_CHAR, value[0]] else [value[0]])
         + EscapeOnePass(value[1..])
  }

  lemma {:induction false} ReplaceAllConcat(a: string, b: string, old_: char, new_: string)
    ensures ReplaceAll(a + b, old_, new_) == ReplaceAll(a, old_, new_) + ReplaceAll(b, old_, new_)
  {
    if a == "" {
      assert a + b == b;
    } else {
      ReplaceAllConcat(a[1..], b, old_, new_);
      assert (a + b)[0] == a[0] && (a + b)[1..] == a[1..] + b;
      ConcatAssociates(if a[0] == old_ then new_ else [a[0]], ReplaceAll(a[1..], old_, new_),
                       ReplaceAll(b, old_, new_));
    }
  }

  lemma ReplaceAllShort(c: char, d: char, old_: char, new_: string)
    ensures ReplaceAll([c], old_, new_) == if c == old_ then new_ else [c]
    ensures ReplaceAll([c, d], old_, new_) == ReplaceAll([c], old_, new_) + ReplaceAll([d], old_, new_)
  {
    assert [c] + [d] == [c, d];
    assert [c][1..] == "";
    ReplaceAllConcat([c], [d], old_, new_);
  }

  /** Three replacements in sequence never touch each other's output. */
  lemma {:induction false} EscapeLikeIsOnePass(value: string)
    ensures EscapeLike(value) == EscapeOnePass(value)
  {
    if value != "" {
      var c, rest := value[0], value[1..];
      var first := if c == '\\' then "\\\\" else [c];
      var second := if c == '%' then "\\%" else first;
      var b := ReplaceAll(rest, '\\', "\\\\");
      var p := ReplaceAll(b, '%', "\\%");
      ReplaceAllConcat(first, b, '%', "\\%");
      ReplaceAllShort('\\', '\\', '%', "\\%");
      ReplaceAllShort(c, c, '%', "\\%");
      assert ReplaceAll(first, '%', "\\%") == second;
      ReplaceAllConcat(second, p, '_', "\\_");
      ReplaceAllShort('\\', '\\', '_', "\\_");
      ReplaceAllShort('\\', '%', '_', "\\_");
      ReplaceAllShort('%', '%', '_', "\\_");
      ReplaceAllShort(c, c, '_', "\\_");
      var third := if c in {ESCAPE_CHAR, '%', '_'} then [ESCAPE_CHAR, c] else [c];
      assert ReplaceAll(second, '_', "\\_") == third;
      assert EscapeLike(value) == third + ReplaceAll(p, '_', "\\_");
      EscapeLikeIsOnePass(rest);
    }
  }

  // ---------------------------------------------------------------- what the escaped text matches

  function Literals(t: string): (es: seq<Element>)
    ensures |es| == |t|
  {
    seq(|t|, i requires 0 <= i < |t| => Exactly(t[i]))
  }

  function Concat(es: seq<Element>, rest: Option<seq<Element>>): Option<seq<Element>> {
    match rest
    case None => None
    case Some(more) => Some(es + more)
  }

  /** An escaped text in front of any pattern reads as its own characters: no metacharacter
      survives and no escape dangles. */
  lemma {:induction false} EscapedReadsLiterally(t: string, rest: string)
    ensures Elements(EscapeLike(t) + rest) == Concat(Literals(t), Elements(rest))
  {
    EscapeLikeIsOnePass(t);
    var text := EscapeOnePass(t) + rest;
    if t == "" {
      assert text == rest;
      assert Elements(rest).Some? ==> Literals(t) + Elements(rest).value == Elements(rest).value;
    } else {
      EscapeLikeIsOnePass(t[1..]);
      EscapedReadsLiterally(t[1..], rest);
      var tail := EscapeOnePass(t[1..]) + rest;
      assert Elements(rest).Some? ==>
        Literals(t) + Elements(rest).value == [Exactly(t[0])] + (Literals(t[1..]) + Elements(rest).value);
      if t[0] in {ESCAPE_CHAR, '%', '_'} {
        assert text[2..] == tail;
      } else {
        assert text[1..] == tail;
      }
    }
  }

  lemma {:induction false} MatchesLiterals(t: string, es: seq<Element>, s: string)
    ensures Matches(Literals(t) + es, s) <==> t <= s && Matches(es, s[|t|..])
  {
    var all := Literals(t) + es;
    if t == "" {
      assert all == es && s[0..] == s;
    } else {
      assert all[1..] == Literals(t[1..]) + es;
      if s != "" && s[0] == t[0] {
        MatchesLiterals(t[1..], es, s[1..]);
        assert t == [t[0]] + t[1..] && s == [s[0]] + s[1..];
        assert t <= s <==> t[1..] <= s[1..];
        if t <= s {
          assert s[1..][|t[1..]|..] == s[|t|..];
        }
      }
    }
  }

  ghost predicate Contains(s: string, t: string) {
    exists k | 0 <= k <= |s| :: t <= s[k..]
  }

  predicate EndsWith(s: string, t: string) {
    |t| <= |s| && s[|s| - |t|..] == t
  }

  lemma AnyTail(s: string)
    ensures Matches([AnyMany], s)
  {
    assert [AnyMany][1..] == [];
    assert s[|s|..] == "";
    assert Matches([], s[|s|..]);
  }

  lemma ElementsOfPercent(rest: string)
    ensures Elements("%" + rest) == Concat([AnyMany], Elements(rest))
    ensures Elements("") == Some([]) && Elements("%") == Some([AnyMany])
  {
    assert ("%" + rest)[1..] == rest;
    assert "%"[1..] == "" && Elements("") == Some([]);
    assert [AnyMany] + [] == [AnyMany];
  }

  lemma StartsWithPattern(s: string, t: string)
    ensures SqlLike(s, EscapeLike(t) + "%") <==> t <= s
  {
    EscapedReadsLiterally(t, "%");
    ElementsOfPercent("");
    MatchesLiterals(t, [AnyMany], s);
    if t <= s {
      AnyTail(s[|t|..]);
    }
  }

  lemma ContainsPattern(s: string, t: string)
    ensures SqlLike(s, "%" + EscapeLike(t) + "%") <==> Contains(s, t)
  {
    assert "%" + EscapeLike(t) + "%" == "%" + (EscapeLike(t) + "%");
    ElementsOfPercent(EscapeLike(t) + "%");
    EscapedReadsLiterally(t, "%");
    var inner := Literals(t) + [AnyMany];
    assert ([AnyMany] + inner)[1..] == inner;
    forall k | 0 <= k <= |s|
      ensures Matches(inner, s[k..]) <==> t <= s[k..]
    {
      MatchesLiterals(t, [AnyMany], s[k..]);
      if t <= s[k..] {
        AnyTail(s[k..][|t|..]);
      }
    }
  }

  lemma EndsWithPattern(s: string, t: string)
    ensures SqlLike(s, "%" + EscapeLike(t)) <==> EndsWith(s, t)
  {
    assert EscapeLike(t) + "" == EscapeLike(t);
    ElementsOfPercent(EscapeLike(t));
    EscapedReadsLiterally(t, "");
    var inner := Literals(t);
    assert inner + [] == inner;
    assert ([AnyMany] + inner)[1..] == inner;
    forall k | 0 <= k <= |s|
      ensures Matches(inner, s[k..]) <==> s[k..] == t
    {
      MatchesLiterals(t, [], s[k..]);
    }
    if EndsWith(s, t) {
      assert Matches(inner, s[|s| - |t|..]);
    }
  }
}
