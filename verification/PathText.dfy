/** Printing a path of segments, and reading it back: the parser of violation paths undoes the printer. */
module PathText {
  import opened Text
  import opened Types
  import opened ViolationPath

  /** A segment that has a spelling of its own. */
  ghost predicate Spellable(segment: Segment) {
    match segment
    case Field(name) => name != "" && '.' !in name && '[' !in name
    case Index(index) => -MAX_INT - 1 <= index <= MAX_INT
    case Key(text) => ']' !in text && forall n :: !Numeral(text, n)
  }

  /** text is a numeral for n within the range of int: a sign or none, zeros or none, and the number. */
  ghost predicate Numeral(text: string, n: int) {
    && -MAX_INT - 1 <= n <= MAX_INT
    && exists sign, zeros: nat ::
         && text == sign + Zeros(zeros) + Decimal(if n < 0 then -n else n)
         && (sign == "-" || ((sign == "" || sign == "+") && n >= 0)) && (sign == "-" ==> n <= 0)
  }

  function Zeros(k: nat): (z: string)
    ensures |z| == k && forall i :: 0 <= i < k ==> z[i] == '0'
  {
    seq(k, i => '0')
  }

  /** What stands inside the brackets. */
  function Item(segment: Segment): string {
    match segment
    case Field(name) => name
    case Index(index) => if index < 0 then "-" + Decimal(-index) else Decimal(index)
    case Key(text) => text
  }

  function Boxed(item: string, rest: string): string { "[" + (item + "]" + rest) }

  /** Names joined by dots, everything else in brackets. */
  function Printed(path: seq<Segment>): string
    decreases |path|, 0
  {
    if path == [] then ""
    else
      var rest := Continued(path[1..]);
      if path[0].Field? then path[0].name + rest else Boxed(Item(path[0]), rest)
  }

  function Continued(path: seq<Segment>): string
    decreases |path|, 1
  {
    if path != [] && path[0].Field? then "." + Printed(path) else Printed(path)
  }

  // ---------------------------------------------------------------- numerals

  lemma {:induction false} ZerosValue(k: nat, digits: string)
    requires AllDigits(digits)
    ensures NumeralValue(Zeros(k) + digits) == NumeralValue(digits)
    decreases |digits|
  {
    var s := Zeros(k) + digits;
    forall i | 0 <= i < |s| ensures IsDigit(s[i]) {}
    if digits != "" {
      ZerosValue(k, digits[..|digits| - 1]);
      assert s[..|s| - 1] == Zeros(k) + digits[..|digits| - 1];
    } else {
      assert s == Zeros(k);
      OnlyZeros(k);
    }
  }

  lemma {:induction false} OnlyZeros(k: nat)
    ensures NumeralValue(Zeros(k)) == 0
  {
    if k > 0 {
      assert Zeros(k)[..k - 1] == Zeros(k - 1);
      OnlyZeros(k - 1);
    }
  }

  /** Digits are zeros in front of their number, or zeros whose last one is the number. */
  lemma {:induction false} DigitsAreNumeral(digits: string) returns (zeros: nat)
    requires digits != "" && AllDigits(digits)
    ensures digits == Zeros(zeros) + Decimal(NumeralValue(digits))
  {
    var front, last := digits[..|digits| - 1], digits[|digits| - 1];
    var d := last as int - '0' as int;
    assert IsDigit(last) && digits == front + [last] && [last] == [DigitChar(d)];
    if front == "" {
      assert NumeralValue(front) == 0;
      zeros := 0;
      assert Zeros(0) == "" && Decimal(d) == [DigitChar(d)];
    } else {
      zeros := DigitsAreNumeral(front);
      var n := NumeralValue(front);
      assert NumeralValue(digits) == 10 * n + d;
      if n == 0 {
        assert Decimal(0) == "0";
        zeros := zeros + 1;
        assert Zeros(zeros) == Zeros(zeros - 1) + "0";
      } else {
        assert (10 * n + d) / 10 == n && (10 * n + d) % 10 == d;
        assert Decimal(10 * n + d) == Decimal(n) + [DigitChar(d)];
        ConcatAssociates(Zeros(zeros), Decimal(n), [last]);
      }
    }
  }

  function Sign(text: string): string {
    if text != "" && (text[0] == '-' || text[0] == '+') then text[..1] else ""
  }

  lemma AtoiParts(sign: string, digits: string)
    requires sign in {"", "+", "-"} && digits != "" && AllDigits(digits)
    ensures var n: int := if sign == "-" then -(NumeralValue(digits) as int) else NumeralValue(digits);
      Atoi(sign + digits) == if -MAX_INT - 1 <= n <= MAX_INT then Some(n) else None
  {
    assert IsDigit(digits[0]);
    assert (sign + digits)[|sign|..] == digits;
    hide NumeralValue;
  }

  lemma NumeralReads(sign: string, zeros: nat, n: int)
    requires -MAX_INT - 1 <= n <= MAX_INT && (sign == "-" ==> n <= 0)
    requires sign == "-" || ((sign == "" || sign == "+") && n >= 0)
    ensures Atoi(sign + (Zeros(zeros) + Decimal(if n < 0 then -n else n))) == Some(n)
  {
    var m := if n < 0 then -n else n;
    var digits := Zeros(zeros) + Decimal(m);
    forall i | 0 <= i < |digits| ensures IsDigit(digits[i]) {}
    ZerosValue(zeros, Decimal(m));
    DecimalRoundTrip(m);
    hide NumeralValue, Decimal, Atoi, Zeros;
    AtoiParts(sign, digits);
  }

  lemma SignedDigits(text: string)
    requires Atoi(text).Some?
    ensures var sign := Sign(text); var digits := text[|sign|..];
      sign in {"", "+", "-"} && text == sign + digits && digits != "" && AllDigits(digits)
  {
    if text != "" {
      assert text[..1] == [text[0]];
    }
    hide NumeralValue;
  }

  lemma AtoiIsNumeral(text: string)
    requires Atoi(text).Some?
    ensures Numeral(text, Atoi(text).value)
  {
    var sign := Sign(text);
    var digits := text[|sign|..];
    SignedDigits(text);
    hide Atoi, AllDigits;
    var zeros := DigitsAreNumeral(digits);
    AtoiParts(sign, digits);
    hide Atoi, NumeralValue, Decimal, Zeros;
    ConcatAssociates(sign, Zeros(zeros), Decimal(NumeralValue(digits)));
  }

  /** Atoi reads exactly the numerals. */
  lemma AtoiExactly(text: string, n: int)
    ensures Atoi(text) == Some(n) <==> Numeral(text, n)
  {
    if Atoi(text).Some? {
      AtoiIsNumeral(text);
    }
    hide Atoi, Decimal, Zeros;
    if Numeral(text, n) {
      var sign, zeros: nat :|
        && text == sign + Zeros(zeros) + Decimal(if n < 0 then -n else n)
        && (sign == "-" || ((sign == "" || sign == "+") && n >= 0)) && (sign == "-" ==> n <= 0);
      NumeralReads(sign, zeros, n);
      ConcatAssociates(sign, Zeros(zeros), Decimal(if n < 0 then -n else n));
    }
  }

  // ---------------------------------------------------------------- names and brackets

  lemma DigitsOnly(n: nat)
    ensures ']' !in Decimal(n)
  {
    hide Decimal;
    forall i | 0 <= i < |Decimal(n)| ensures Decimal(n)[i] != ']' {
      assert IsDigit(Decimal(n)[i]);
    }
  }

  lemma IndexReads(index: int)
    requires -MAX_INT - 1 <= index <= MAX_INT
    ensures Atoi(Item(Index(index))) == Some(index) && ']' !in Item(Index(index))
  {
    var m := if index < 0 then -index else index;
    var sign := if index < 0 then "-" else "";
    NumeralReads(sign, 0, index);
    assert Zeros(0) + Decimal(m) == Decimal(m);
    assert sign + Decimal(m) == Item(Index(index));
    DigitsOnly(m);
    hide Atoi, Decimal;
  }

  lemma ItemReads(segment: Segment)
    requires Spellable(segment) && !segment.Field?
    ensures Bracketed(Item(segment)) == segment && ']' !in Item(segment)
  {
    hide Atoi, Numeral, Decimal;
    if segment.Index? {
      IndexReads(segment.index);
    } else {
      KeyReads(segment.text);
    }
  }

  lemma KeyReads(text: string)
    requires forall n :: !Numeral(text, n)
    ensures Atoi(text).None?
  {
    hide Atoi, Numeral;
    if Atoi(text).Some? {
      AtoiExactly(text, Atoi(text).value);
    }
  }

  lemma BoxCut(item: string, rest: string)
    requires ']' !in item
    ensures Cut(Boxed(item, rest)) == ([Bracketed(item)], rest)
  {
    var inner := item + "]" + rest;
    NameCut("", '[', inner);
    ItemCut(item, rest);
    assert "" + ['['] + inner == "[" + inner;
    assert Boxed(item, rest) == "[" + inner;
    hide Run, Bracketed, Boxed;
    CutOfBox(inner, item, rest);
  }

  lemma CutOfBox(inner: string, item: string, rest: string)
    requires Run("[" + inner, Plain) == 0 && Run(inner, Inside) == |item|
    requires |item| < |inner| && inner[..|item|] == item && inner[|item| + 1..] == rest
    ensures Cut("[" + inner) == ([Bracketed(item)], rest)
  {
    hide Cut, Run, Bracketed, Atoi;
    assert ("[" + inner)[1..] == inner;
    CutHead("[" + inner, inner);
    assert [] + [Bracketed(item)] == [Bracketed(item)];
  }

  lemma CutHead(value: string, inner: string)
    requires value != "" && Run(value, Plain) == 0 && value[0] == '[' && value[1..] == inner
    ensures var close := Run(inner, Inside);
      Cut(value) == ([] + [Bracketed(inner[..close])], if close < |inner| then inner[close + 1..] else "")
  {
    assert value[0..] == value;
    hide Run, Bracketed;
  }

  lemma BoxAppends(item: string, rest: string)
    requires ']' !in item
    ensures Appended(Boxed(item, rest)) == [Bracketed(item)] + Appended(rest)
  {
    BoxCut(item, rest);
    hide Cut, Bracketed;
  }

  lemma PlainName(name: string)
    requires '.' !in name && '[' !in name
    ensures forall i :: 0 <= i < |name| ==> Plain(name[i])
  {
  }

  /** A name in front of a bracket is a field of its own. */
  lemma NameThenBox(name: string, item: string, rest: string)
    requires name != "" && '.' !in name && '[' !in name && ']' !in item
    ensures Appended(name + Boxed(item, rest)) == [Field(name), Bracketed(item)] + Appended(rest)
  {
    PlainName(name);
    hide *;
    BracketCut(name, item, rest);
    var value := name + "[" + (item + "]" + rest);
    BoxIs(name, item, rest);
    OneCut([], value);
    assert [] + Appended(value) == Appended(value);
    assert [] + Cut(value).0 == Cut(value).0;
  }

  lemma BoxIs(name: string, item: string, rest: string)
    ensures name + "[" + (item + "]" + rest) == name + Boxed(item, rest)
  {
  }

  /** The parser reads every printed path back. */
  lemma {:induction false} PrintedParses(path: seq<Segment>)
    requires forall segment <- path :: Spellable(segment)
    ensures Appended(Printed(path)) == path && Appended(Continued(path)) == path
    decreases |path|
  {
    EmptyAppendsNothing();
    if path != [] {
      var head, rest := path[0], path[1..];
      PrintedParses(rest);
      assert path == [head] + rest;
      hide Appended, Spellable, Item, Boxed;
      if head.Field? {
        FieldParses(head, rest);
        DotAppends("", Printed(path));
        assert "" + "." + Printed(path) == "." + Printed(path);
        assert [] + path == path;
      } else {
        ItemReads(head);
        BoxAppends(Item(head), Continued(rest));
      }
    }
  }

  lemma PrintedBox(path: seq<Segment>)
    requires path != [] && !path[0].Field?
    ensures Continued(path) == Printed(path) == Boxed(Item(path[0]), Continued(path[1..]))
  {
    hide Item, Boxed;
  }

  lemma PrintedName(path: seq<Segment>)
    requires path != [] && path[0].Field?
    ensures Continued(path) == "." + Printed(path)
  {
    hide Item, Boxed;
  }

  lemma SpellableName(head: Segment)
    requires head.Field? && Spellable(head)
    ensures head.name != "" && '.' !in head.name && '[' !in head.name
  {
  }

  lemma FieldParses(head: Segment, rest: seq<Segment>)
    requires head.Field? && Spellable(head) && (forall segment <- rest :: Spellable(segment))
    requires Appended(Printed(rest)) == rest && Appended(Continued(rest)) == rest
    ensures Appended(head.name + Continued(rest)) == [head] + rest
  {
    SpellableName(head);
    PlainName(head.name);
    if rest == [] {
      LastName(head);
    } else {
      hide *;
      if rest[0].Field? {
        PrintedName(rest);
        DotAppends(head.name, Printed(rest));
        ConcatAssociates(head.name, ".", Printed(rest));
      } else {
        BoxParses(head, rest);
      }
    }
  }

  lemma LastName(head: Segment)
    requires head.Field? && Spellable(head)
    ensures Appended(head.name + Continued([])) == [head] + []
  {
    SpellableName(head);
    PlainName(head.name);
    NameAppends(head.name);
    hide Appended, Spellable;
    assert Continued([]) == "" && head.name + "" == head.name;
  }

  lemma BoxParses(head: Segment, rest: seq<Segment>)
    requires head.Field? && Spellable(head) && rest != [] && !rest[0].Field? && Spellable(rest[0])
    requires Appended(Printed(rest)) == rest
    ensures Appended(head.name + Continued(rest)) == [head] + rest
  {
    hide *;
    var item, more := Item(rest[0]), Continued(rest[1..]);
    SpellableName(head);
    ItemReads(rest[0]);
    PrintedBox(rest);
    NameThenBox(head.name, item, more);
    BoxAppends(item, more);
    assert [head, Bracketed(item)] + Appended(more) == [head] + ([Bracketed(item)] + Appended(more));
  }
}
