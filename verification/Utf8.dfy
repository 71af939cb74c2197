/** The bytes behind a string: UTF-8, by the octet ranges of section 4 of RFC 3629. */
module Utf8 {
  import opened Text

  type Octet = b: int | 0 <= b < 256

  /** Section 3: the bits of a code point, six to each octet after the first. */
  function Octets(c: char): (r: seq<Octet>) {
    var n := c as int;
    if n <= 0x7F then [n]
    else if n <= 0x7FF then [0xC0 + n / 64, 0x80 + n % 64]
    else if n <= 0xFFFF then [0xE0 + n / 4096, 0x80 + n / 64 % 64, 0x80 + n % 64]
    else [0xF0 + n / 262144, 0x80 + n / 4096 % 64, 0x80 + n / 64 % 64, 0x80 + n % 64]
  }

  function Written(s: string): seq<Octet> {
    if s == "" then [] else Octets(s[0]) + Written(s[1..])
  }

  /** How many octets a character has, from its first one (section 4). */
  function LengthFrom(first: Octet): nat {
    if first <= 0x7F then 1
    else if 0xC2 <= first <= 0xDF then 2
    else if 0xE0 <= first <= 0xEF then 3
    else if 0xF0 <= first <= 0xF4 then 4
    else 0
  }

  function Tail(b: Octet): Option<int> { if 0x80 <= b <= 0xBF then Some(b - 0x80) else None }

  /** The code point of these octets. */
  function PointOf(b: seq<Octet>): Option<int> {
    if |b| == 1 then Some(b[0])
    else if |b| == 2 && Tail(b[1]).Some? then Some((b[0] - 0xC0) * 64 + Tail(b[1]).value)
    else if |b| == 3 && Tail(b[1]).Some? && Tail(b[2]).Some?
    then Some((b[0] - 0xE0) * 4096 + Tail(b[1]).value * 64 + Tail(b[2]).value)
    else if |b| == 4 && Tail(b[1]).Some? && Tail(b[2]).Some? && Tail(b[3]).Some?
    then Some((b[0] - 0xF0) * 262144 + Tail(b[1]).value * 4096 + Tail(b[2]).value * 64 + Tail(b[3]).value)
    else None
  }

  /** The code points written in these octets. */
  function Read(b: seq<Octet>): Option<seq<int>>
    decreases |b|
  {
    if b == [] then Some([])
    else
      var n := LengthFrom(b[0]);
      if n == 0 || n > |b| || PointOf(b[..n]).None? then None
      else
        match Read(b[n..])
        case None => None
        case Some(rest) => Some([PointOf(b[..n]).value] + rest)
  }

  function Points(s: string): (r: seq<int>)
    ensures |r| == |s|
  {
    seq(|s|, i requires 0 <= i < |s| => s[i] as int)
  }

  lemma OctetsRead(c: char)
    ensures |Octets(c)| == Utf8Width(c) == LengthFrom(Octets(c)[0]) && PointOf(Octets(c)) == Some(c as int)
  {
    var n := c as int;
    assert n / 64 == (n / 4096) * 64 + n / 64 % 64;
    assert n / 4096 == (n / 262144) * 64 + n / 4096 % 64;
  }

  /** The length of a string is the number of octets from which it can be read back. */
  lemma {:induction false} LengthIsOctets(s: string)
    ensures ByteLength(s) == |Written(s)| && Read(Written(s)) == Some(Points(s))
  {
    if s == "" {
      assert Points(s) == [];
    } else {
      LengthIsOctets(s[1..]);
      OctetsRead(s[0]);
      var b, n := Written(s), |Octets(s[0])|;
      assert b[..n] == Octets(s[0]) && b[n..] == Written(s[1..]);
      assert Points(s) == [s[0] as int] + Points(s[1..]);
      hide Octets, LengthFrom, PointOf;
    }
  }
}
