/** The UTF-8 encoding (RFC 3629), to say what the byte counts of the budgets count. */
module Utf8 {
  import opened Text
  import opened InputBudget

  /** The octets of one character (section 3 of RFC 3629). */
  function Octets(c: char): seq<int> {
    var n := c as int;
    if n <= 0x7F then [n]
    else if n <= 0x7FF then [0xC0 + n / 0x40, 0x80 + n % 0x40]
    else if n <= 0xFFFF then [0xE0 + n / 0x1000, 0x80 + n / 0x40 % 0x40, 0x80 + n % 0x40]
    else [0xF0 + n / 0x40000, 0x80 + n / 0x1000 % 0x40, 0x80 + n / 0x40 % 0x40, 0x80 + n % 0x40]
  }

  function Encoded(s: string): seq<int> {
    if s == "" then [] else Octets(s[0]) + Encoded(s[1..])
  }

  /** How many octets a leading octet announces. */
  function Announced(octet: int): nat {
    if octet < 0x80 then 1 else if octet < 0xE0 then 2 else if octet < 0xF0 then 3 else 4
  }

  /** The payload of a leading octet, and of one that follows. */
  function Head(octet: int): int {
    if octet < 0x80 then octet else if octet < 0xE0 then octet - 0xC0 else if octet < 0xF0 then octet - 0xE0
    else octet - 0xF0
  }

  function Value(octets: seq<int>): int {
    if octets == [] then 0
    else if |octets| == 1 then Head(octets[0])
    else Value(octets[..|octets| - 1]) * 0x40 + (octets[|octets| - 1] - 0x80)
  }

  /** The octets give the character back, are octets, and the first one tells how many they are. */
  lemma OctetsReadBack(c: char)
    ensures var o := Octets(c);
      && Value(o) == c as int && o != [] && |o| == Announced(o[0]) == CharBytes(c)
      && forall i :: 0 <= i < |o| ==> 0 <= o[i] < 0x100 && (i > 0 <==> 0x80 <= o[i] < 0xC0)
  {
    hide Value;
    var o, n := Octets(c), c as int;
    Sixty4s(n, n / 0x40);
    assert n / 0x1000 == n / 0x40 / 0x40 && n / 0x40000 == n / 0x1000 / 0x40;
    Sixty4s(n / 0x40, n / 0x1000);
    Sixty4s(n / 0x1000, n / 0x40000);
    if |o| == 1 {
      OneOctet(o[0]);
    } else if |o| == 2 {
      assert o == [o[0]] + [o[1]];
      MoreOctets([o[0]], o[1]);
      OneOctet(o[0]);
    } else if |o| == 3 {
      assert o == [o[0], o[1]] + [o[2]] && [o[0], o[1]] == [o[0]] + [o[1]];
      MoreOctets([o[0], o[1]], o[2]);
      MoreOctets([o[0]], o[1]);
      OneOctet(o[0]);
    } else {
      assert o == [o[0], o[1], o[2]] + [o[3]] && [o[0], o[1], o[2]] == [o[0], o[1]] + [o[2]];
      assert [o[0], o[1]] == [o[0]] + [o[1]];
      MoreOctets([o[0], o[1], o[2]], o[3]);
      MoreOctets([o[0], o[1]], o[2]);
      MoreOctets([o[0]], o[1]);
      OneOctet(o[0]);
    }
  }

  lemma OneOctet(octet: int)
    ensures Value([octet]) == Head(octet)
  {}

  lemma MoreOctets(before: seq<int>, octet: int)
    requires before != []
    ensures Value(before + [octet]) == Value(before) * 0x40 + (octet - 0x80)
  {
    assert (before + [octet])[..|before|] == before;
  }

  lemma Sixty4s(n: int, q: int)
    requires n >= 0 && q == n / 0x40
    ensures n == q * 0x40 + n % 0x40
  {}

  /** The bytes that the budgets count are those of the encoding. */
  lemma {:induction false} BytesAreOctets(s: string)
    ensures Bytes(s) == |Encoded(s)|
  {
    if s != "" {
      OctetsReadBack(s[0]);
      BytesAreOctets(s[1..]);
    }
  }
}
