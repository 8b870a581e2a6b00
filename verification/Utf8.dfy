/** Well-formed UTF-8 (RFC 3629, section 4), which strings on the wire must be. */
module Utf8 {
  import opened Types

  predicate Tail(b: byte) {
    0x80 <= b <= 0xBF
  }

  predicate Second(lead: byte, b: byte) {
    if lead == 0xE0 then 0xA0 <= b <= 0xBF
    else if lead == 0xED then 0x80 <= b <= 0x9F
    else if lead == 0xF0 then 0x90 <= b <= 0xBF
    else if lead == 0xF4 then 0x80 <= b <= 0x8F
    else Tail(b)
  }

  predicate ValidUtf8(s: Text) {
    if s == [] then true
    else if s[0] <= 0x7F then ValidUtf8(s[1..])
    else if 0xC2 <= s[0] <= 0xDF then |s| >= 2 && Tail(s[1]) && ValidUtf8(s[2..])
    else if 0xE0 <= s[0] <= 0xEF then |s| >= 3 && Second(s[0], s[1]) && Tail(s[2]) && ValidUtf8(s[3..])
    else if 0xF0 <= s[0] <= 0xF4 then
      |s| >= 4 && Second(s[0], s[1]) && Tail(s[2]) && Tail(s[3]) && ValidUtf8(s[4..])
    else false
  }

  // ----- exactly the encodings of characters -----

  /** A character: a code point that is not a surrogate. */
  predicate Scalar(c: nat) {
    c <= 0x10FFFF && !(0xD800 <= c <= 0xDFFF)
  }

  /** The table of RFC 3629, section 3. */
  function Encoded(c: nat): (s: Text)
    requires Scalar(c)
    ensures 1 <= |s| <= 4
  {
    if c <= 0x7F then [c]
    else if c <= 0x7FF then [0xC0 + c / 0x40, 0x80 + c % 0x40]
    else if c <= 0xFFFF then [0xE0 + c / 0x1000, 0x80 + c / 0x40 % 0x40, 0x80 + c % 0x40]
    else [0xF0 + c / 0x4_0000, 0x80 + c / 0x1000 % 0x40, 0x80 + c / 0x40 % 0x40, 0x80 + c % 0x40]
  }

  function EncodedAll(cs: seq<nat>): Text
    requires forall i | 0 <= i < |cs| :: Scalar(cs[i])
  {
    if cs == [] then [] else Encoded(cs[0]) + EncodedAll(cs[1..])
  }

  lemma OneMoreCharacter(c: nat, rest: Text)
    requires Scalar(c)
    ensures ValidUtf8(Encoded(c) + rest) <==> ValidUtf8(rest)
  {
    var e := Encoded(c);
    assert (e + rest)[|e|..] == rest;
    assert forall i | 0 <= i < |e| :: (e + rest)[i] == e[i];
  }

  lemma {:induction false} EncodedIsValid(cs: seq<nat>)
    requires forall i | 0 <= i < |cs| :: Scalar(cs[i])
    ensures ValidUtf8(EncodedAll(cs))
  {
    if cs != [] {
      EncodedIsValid(cs[1..]);
      OneMoreCharacter(cs[0], EncodedAll(cs[1..]));
    }
  }

  /** Groups of six bits and what division makes of them. */
  lemma Groups(a: nat, b: nat, c: nat, d: nat)
    requires b < 0x40 && c < 0x40 && d < 0x40
    ensures var n := a * 0x4_0000 + b * 0x1000 + c * 0x40 + d;
      n / 0x4_0000 == a && n / 0x1000 == a * 0x40 + b && n / 0x1000 % 0x40 == b && n / 0x40 % 0x40 == c && n % 0x40 == d
  {
    Quotient40(a * 0x1000 + b * 0x40 + c, d);
    Quotient40(a * 0x40 + b, c);
    Quotient40(a, b);
    Quotient1000(a * 0x40 + b, c * 0x40 + d);
    Quotient40000(a, b * 0x1000 + c * 0x40 + d);
  }

  lemma Quotient40(q: nat, r: nat)
    requires r < 0x40
    ensures (q * 0x40 + r) / 0x40 == q && (q * 0x40 + r) % 0x40 == r
  {
  }

  lemma Quotient1000(q: nat, r: nat)
    requires r < 0x1000
    ensures (q * 0x1000 + r) / 0x1000 == q
  {
  }

  lemma Quotient40000(q: nat, r: nat)
    requires r < 0x4_0000
    ensures (q * 0x4_0000 + r) / 0x4_0000 == q
  {
  }

  function Low(b: byte): nat {
    if b < 0x80 then 0 else b as int - 0x80
  }

  lemma FirstCharacter(s: Text) returns (c: nat)
    requires s != [] && ValidUtf8(s)
    ensures Scalar(c) && Encoded(c) <= s
  {
    if s[0] <= 0x7F {
      c := s[0];
    } else if s[0] <= 0xDF {
      c := TwoBytes(s[0], s[1]);
    } else if s[0] <= 0xEF {
      c := ThreeBytes(s[0], s[1], s[2]);
    } else {
      c := FourBytes(s[0], s[1], s[2], s[3]);
    }
  }

  lemma TwoBytes(lead: byte, a: byte) returns (c: nat)
    requires 0xC2 <= lead <= 0xDF && Tail(a)
    ensures Scalar(c) && Encoded(c) == [lead, a]
  {
    c := (lead as int - 0xC0) * 0x40 + Low(a);
    assert c / 0x40 == lead as int - 0xC0 && c % 0x40 == Low(a);
  }

  lemma ThreeBytes(lead: byte, a: byte, b: byte) returns (c: nat)
    requires 0xE0 <= lead <= 0xEF && Second(lead, a) && Tail(b)
    ensures Scalar(c) && Encoded(c) == [lead, a, b]
  {
    var x := lead as int - 0xE0;
    c := x * 0x1000 + Low(a) * 0x40 + Low(b);
    Groups(0, x, Low(a), Low(b));
  }

  lemma FourBytes(lead: byte, a: byte, b: byte, d: byte) returns (c: nat)
    requires 0xF0 <= lead <= 0xF4 && Second(lead, a) && Tail(b) && Tail(d)
    ensures Scalar(c) && Encoded(c) == [lead, a, b, d]
  {
    var x := lead as int - 0xF0;
    c := x * 0x4_0000 + Low(a) * 0x1000 + Low(b) * 0x40 + Low(d);
    Groups(x, Low(a), Low(b), Low(d));
  }

  lemma {:induction false} ValidIsEncoded(s: Text) returns (cs: seq<nat>)
    requires ValidUtf8(s)
    ensures (forall i | 0 <= i < |cs| :: Scalar(cs[i])) && EncodedAll(cs) == s
    decreases |s|
  {
    cs := [];
    if s != [] {
      var c := FirstCharacter(s);
      var rest := s[|Encoded(c)|..];
      assert s == Encoded(c) + rest;
      OneMoreCharacter(c, rest);
      var others := ValidIsEncoded(rest);
      cs := [c] + others;
      assert cs[1..] == others;
    }
  }

  /** Well-formed are exactly the texts that characters encode to. */
  lemma ValidUtf8Iff(s: Text)
    ensures ValidUtf8(s) <==> exists cs: seq<nat> :: (forall i | 0 <= i < |cs| :: Scalar(cs[i])) && EncodedAll(cs) == s
  {
    if ValidUtf8(s) {
      var cs := ValidIsEncoded(s);
    }
    if cs: seq<nat> :| (forall i | 0 <= i < |cs| :: Scalar(cs[i])) && EncodedAll(cs) == s {
      EncodedIsValid(cs);
    }
  }
}
