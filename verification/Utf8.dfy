/**
 Strings as sequences of Unicode scalar values, and their UTF-8 bytes. Decoding is strict,
 as in section 4 of RFC 3629: no overlong forms, no surrogates, nothing past U+10FFFF, no
 truncated sequence. Both directions of the round trip hold, so a string has exactly one
 encoding and a valid byte sequence exactly one meaning.
 */
module Utf8 {
  import opened Wrappers

  type byte = b: int | 0 <= b < 256

  type scalar = c: int | 0 <= c < 0xD800 || 0xE000 <= c < 0x110000

  type Str = seq<scalar>

  function EncodeScalar(c: scalar): seq<byte> {
    if c < 0x80 then [c]
    else if c < 0x800 then [0xC0 + c / 64, 0x80 + c % 64]
    else if c < 0x10000 then [0xE0 + c / 4096, 0x80 + c / 64 % 64, 0x80 + c % 64]
    else [0xF0 + c / 262144, 0x80 + c / 4096 % 64, 0x80 + c / 64 % 64, 0x80 + c % 64]
  }

  function Encode(s: Str): seq<byte> {
    if s == [] then [] else EncodeScalar(s[0]) + Encode(s[1..])
  }

  /** A continuation byte. */
  predicate IsTail(b: byte) {
    0x80 <= b < 0xC0
  }

  /** The length of the sequence a lead byte opens; 0 for a byte that opens none. */
  function LeadLength(lead: byte): nat {
    if lead < 0x80 then 1
    else if 0xC2 <= lead < 0xE0 then 2
    else if 0xE0 <= lead < 0xF0 then 3
    else if 0xF0 <= lead < 0xF5 then 4
    else 0
  }

  /** The second byte a lead byte admits: this is what rules out overlong forms and surrogates. */
  predicate SecondAllowed(lead: byte, second: byte) {
    && IsTail(second)
    && (lead == 0xE0 ==> second >= 0xA0)
    && (lead == 0xED ==> second < 0xA0)
    && (lead == 0xF0 ==> second >= 0x90)
    && (lead == 0xF4 ==> second < 0x90)
  }

  predicate StartsValid(b: seq<byte>) {
    && b != []
    && var n := LeadLength(b[0]);
       && 0 < n <= |b|
       && (n >= 2 ==> SecondAllowed(b[0], b[1]))
       && (n >= 3 ==> IsTail(b[2]))
       && (n >= 4 ==> IsTail(b[3]))
  }

  /** Four base-64 digits, and the number they spell. */
  function Spell(a: int, b: int, c: int, d: int): int {
    a * 262144 + b * 4096 + c * 64 + d
  }

  /** The scalar at the front of `b`. */
  function FirstScalar(b: seq<byte>): scalar
    requires StartsValid(b)
  {
    var n := LeadLength(b[0]);
    var lead: int := b[0];
    var second: int := if n >= 2 then b[1] else 0x80;
    var third: int := if n >= 3 then b[2] else 0x80;
    var fourth: int := if n >= 4 then b[3] else 0x80;
    if n == 1 then lead
    else if n == 2 then Spell(0, 0, lead - 0xC0, second - 0x80)
    else if n == 3 then Spell(0, lead - 0xE0, second - 0x80, third - 0x80)
    else Spell(lead - 0xF0, second - 0x80, third - 0x80, fourth - 0x80)
  }

  function Decode(b: seq<byte>): Option<Str> {
    if b == [] then Some([])
    else if !StartsValid(b) then None
    else match Decode(b[LeadLength(b[0])..])
      case None => None
      case Some(rest) => Some([FirstScalar(b)] + rest)
  }

  /** The digits of a number spell it, and spelled digits are read back. */
  lemma SpellsDigits(v: int)
    requires v >= 0
    ensures Spell(v / 262144, v / 4096 % 64, v / 64 % 64, v % 64) == v
    ensures Spell(0, v / 4096, v / 64 % 64, v % 64) == v
    ensures Spell(0, 0, v / 64, v % 64) == v
  {
    assert v == 64 * (v / 64) + v % 64;
    var w := v / 64;
    assert w == 64 * (w / 64) + w % 64 && w / 64 == v / 4096;
    var x := w / 64;
    assert x == 64 * (x / 64) + x % 64 && x / 64 == v / 262144;
  }

  lemma DigitsOfSpelling(a: int, b: int, c: int, d: int)
    requires 0 <= a && 0 <= b < 64 && 0 <= c < 64 && 0 <= d < 64
    ensures Spell(a, b, c, d) % 64 == d
    ensures Spell(a, b, c, d) / 64 % 64 == c && Spell(a, b, c, d) / 64 == a * 4096 + b * 64 + c
    ensures Spell(a, b, c, d) / 4096 % 64 == b && Spell(a, b, c, d) / 4096 == a * 64 + b
    ensures Spell(a, b, c, d) / 262144 == a
  {
    var v := Spell(a, b, c, d);
    assert v == 64 * (a * 4096 + b * 64 + c) + d;
    var w := a * 4096 + b * 64 + c;
    assert v / 64 == w && w == 64 * (a * 64 + b) + c;
    var x := a * 64 + b;
    assert w / 64 == x && x / 64 == a;
  }

  lemma FirstOfShort(c: scalar, b: seq<byte>)
    requires 0x80 <= c < 0x800 && |b| >= 2
    requires b[0] == 0xC0 + c / 64 && b[1] == 0x80 + c % 64
    ensures StartsValid(b) && LeadLength(b[0]) == 2 && FirstScalar(b) == c
  {
    SpellsDigits(c);
  }

  lemma FirstOfMiddle(c: scalar, b: seq<byte>)
    requires 0x800 <= c < 0x10000 && |b| >= 3
    requires b[0] == 0xE0 + c / 4096 && b[1] == 0x80 + c / 64 % 64 && b[2] == 0x80 + c % 64
    ensures StartsValid(b) && LeadLength(b[0]) == 3 && FirstScalar(b) == c
  {
    SpellsDigits(c);
  }

  lemma FirstOfLong(c: scalar, b: seq<byte>)
    requires 0x10000 <= c && |b| >= 4
    requires b[0] == 0xF0 + c / 262144 && b[1] == 0x80 + c / 4096 % 64
    requires b[2] == 0x80 + c / 64 % 64 && b[3] == 0x80 + c % 64
    ensures StartsValid(b) && LeadLength(b[0]) == 4 && FirstScalar(b) == c
  {
    SpellsDigits(c);
  }

  lemma FirstOfEncoding(c: scalar, rest: seq<byte>)
    ensures StartsValid(EncodeScalar(c) + rest)
    ensures LeadLength((EncodeScalar(c) + rest)[0]) == |EncodeScalar(c)|
    ensures FirstScalar(EncodeScalar(c) + rest) == c
  {
    var b := EncodeScalar(c) + rest;
    if c < 0x80 {
      assert b[0] == c;
    } else if c < 0x800 {
      FirstOfShort(c, b);
    } else if c < 0x10000 {
      FirstOfMiddle(c, b);
    } else {
      FirstOfLong(c, b);
    }
  }

  lemma EncodingOfFirst(b: seq<byte>)
    requires StartsValid(b)
    ensures EncodeScalar(FirstScalar(b)) == b[..LeadLength(b[0])]
  {
    var n := LeadLength(b[0]);
    var lead: int := b[0];
    if n == 2 {
      DigitsOfSpelling(0, 0, lead - 0xC0, b[1] - 0x80);
    } else if n == 3 {
      DigitsOfSpelling(0, lead - 0xE0, b[1] - 0x80, b[2] - 0x80);
    } else if n == 4 {
      DigitsOfSpelling(lead - 0xF0, b[1] - 0x80, b[2] - 0x80, b[3] - 0x80);
    }
  }

  /** Every string survives encoding. */
  lemma {:induction false} DecodeInvertsEncode(s: Str)
    ensures Decode(Encode(s)) == Some(s)
  {
    if s != [] {
      var rest := Encode(s[1..]);
      FirstOfEncoding(s[0], rest);
      assert Encode(s)[|EncodeScalar(s[0])|..] == rest;
      DecodeInvertsEncode(s[1..]);
      assert [s[0]] + s[1..] == s;
    }
  }

  lemma EncodeCons(c: scalar, rest: Str, b: seq<byte>, n: nat)
    requires n <= |b| && EncodeScalar(c) == b[..n] && Encode(rest) == b[n..]
    ensures Encode([c] + rest) == b
  {
    assert ([c] + rest)[1..] == rest;
    assert b == b[..n] + b[n..];
  }

  lemma EncodeFirst(b: seq<byte>, rest: Str)
    requires StartsValid(b) && Encode(rest) == b[LeadLength(b[0])..]
    ensures Encode([FirstScalar(b)] + rest) == b
  {
    EncodingOfFirst(b);
    EncodeCons(FirstScalar(b), rest, b, LeadLength(b[0]));
  }

  /** Every byte sequence that decodes is the encoding of what it decodes to. */
  lemma {:induction false} EncodeInvertsDecode(b: seq<byte>)
    requires Decode(b).Some?
    ensures Encode(Decode(b).value) == b
  {
    if b != [] {
      var tail := b[LeadLength(b[0])..];
      EncodeInvertsDecode(tail);
      EncodeFirst(b, Decode(tail).value);
    }
  }
}
