/** Strings, as the Go standard library specifies them. A char is one code point of a valid
    UTF-8 string; ByteLength is what Go's len reports for it. */
module Text {

  datatype Option<+T> = None | Some(value: T)

  function Utf8Width(c: char): nat {
    if c as int < 0x80 then 1
    else if c as int < 0x800 then 2
    else if c as int < 0x1_0000 then 3
    else 4
  }

  function ByteLength(s: string): (n: nat)
    ensures |s| <= n
  {
    if s == "" then 0 else Utf8Width(s[0]) + ByteLength(s[1..])
  }

  /** The length of the longest prefix of s whose characters all satisfy p. */
  function Run(s: string, p: char -> bool): (n: nat)
    ensures n <= |s|
    ensures forall i :: 0 <= i < n ==> p(s[i])
    ensures n < |s| ==> !p(s[n])
  {
    if s == "" || !p(s[0]) then 0 else 1 + Run(s[1..], p)
  }

  /** The maximal run is determined by where it stops. */
  lemma RunStops(s: string, p: char -> bool, n: nat)
    requires n <= |s|
    requires forall i :: 0 <= i < n ==> p(s[i])
    requires n < |s| ==> !p(s[n])
    ensures Run(s, p) == n
  {
  }

  lemma ConcatAssociates<T>(a: seq<T>, b: seq<T>, c: seq<T>)
    ensures (a + b) + c == a + (b + c)
  {
  }

  // ---------------------------------------------------------------- decimal numerals

  predicate IsDigit(c: char) { '0' <= c <= '9' }

  function DigitChar(d: nat): char
    requires d < 10
  {
    ('0' as int + d) as char
  }

  /** fmt's %d on a natural number. */
  function Decimal(n: nat): (s: string)
    ensures s != "" && forall i :: 0 <= i < |s| ==> IsDigit(s[i])
  {
    if n < 10 then [DigitChar(n)] else Decimal(n / 10) + [DigitChar(n % 10)]
  }

  function NumeralValue(s: string): nat
    requires forall i :: 0 <= i < |s| ==> IsDigit(s[i])
  {
    if s == "" then 0
    else
      assert IsDigit(s[|s| - 1]);
      10 * NumeralValue(s[..|s| - 1]) + (s[|s| - 1] as int - '0' as int)
  }

  lemma {:induction false} DecimalRoundTrip(n: nat)
    ensures NumeralValue(Decimal(n)) == n
  {
    if n < 10 {
      assert Decimal(n)[..0] == "";
    } else {
      DecimalRoundTrip(n / 10);
      assert Decimal(n)[..|Decimal(n)| - 1] == Decimal(n / 10);
    }
  }

  // ---------------------------------------------------------------- separated lists

  /** strings.Join. */
  function Join(parts: seq<string>, separator: string): string {
    if parts == [] then ""
    else if |parts| == 1 then parts[0]
    else parts[0] + separator + Join(parts[1..], separator)
  }

  lemma JoinCons(head: string, tail: seq<string>, separator: string)
    requires tail != []
    ensures Join([head] + tail, separator) == head + separator + Join(tail, separator)
  {
    assert ([head] + tail)[1..] == tail;
  }

  /** strings.Split on a one-character separator. */
  function Split(s: string, separator: char): (parts: seq<string>)
    ensures parts != []
    decreases |s|
  {
    var n := Run(s, c => c != separator);
    if n == |s| then [s] else [s[..n]] + Split(s[n + 1..], separator)
  }

  lemma SplitCons(head: string, rest: string, separator: char)
    requires separator !in head
    ensures Split(head + [separator] + rest, separator) == [head] + Split(rest, separator)
  {
    var s := head + [separator] + rest;
    RunStops(s, c => c != separator, |head|);
    assert s[..|head|] == head && s[|head| + 1..] == rest;
  }

  lemma SplitWhole(s: string, separator: char)
    requires separator !in s
    ensures Split(s, separator) == [s]
  {
    RunStops(s, c => c != separator, |s|);
  }

  lemma SplitStep(s: string, separator: char) returns (n: nat)
    requires separator in s
    ensures n < |s| && s[n] == separator && separator !in s[..n]
    ensures Split(s, separator) == [s[..n]] + Split(s[n + 1..], separator)
    ensures s == s[..n] + [separator] + s[n + 1..]
  {
    n := Run(s, c => c != separator);
    CutAt(s, n);
  }

  lemma CutAt<T>(s: seq<T>, n: nat)
    requires n < |s|
    ensures s == s[..n] + [s[n]] + s[n + 1..]
  {
  }

  /** Splitting recovers exactly the separator-free parts that were joined. */
  lemma {:induction false} SplitJoin(parts: seq<string>, separator: char)
    requires parts != [] && forall p <- parts :: separator !in p
    ensures Split(Join(parts, [separator]), separator) == parts
  {
    if |parts| == 1 {
      SplitWhole(parts[0], separator);
    } else {
      hide Join, Split;
      SplitJoin(parts[1..], separator);
      assert parts == [parts[0]] + parts[1..];
      JoinCons(parts[0], parts[1..], [separator]);
      SplitCons(parts[0], Join(parts[1..], [separator]), separator);
    }
  }

  /** Joining what Split returned gives the string back, and no part contains the separator. */
  lemma {:induction false} JoinSplit(s: string, separator: char)
    ensures Join(Split(s, separator), [separator]) == s
    ensures forall p <- Split(s, separator) :: separator !in p
    decreases |s|
  {
    if separator !in s {
      SplitWhole(s, separator);
    } else {
      hide Join, Split;
      var n := SplitStep(s, separator);
      JoinSplit(s[n + 1..], separator);
      JoinCons(s[..n], Split(s[n + 1..], separator), [separator]);
    }
  }
}
