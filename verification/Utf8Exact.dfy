/** The text check of the line reader accepts exactly the UTF-8 encodings of Unicode
    scalar values (section 3 of RFC 3629). */
module Utf8Exact {
  import opened Basics
  import opened Chunked

  /** A Unicode scalar value: any code point but a surrogate. */
  type scalar = v: nat | v < 0xD800 || 0xE000 <= v < 0x110000

  function EncodeScalar(v: scalar): seq<byte> {
    if v < 0x80 then [v as byte]
    else if v < 0x800 then [(0xC0 + v / 64) as byte, (0x80 + v % 64) as byte]
    else if v < 0x10000 then [(0xE0 + v / 4096) as byte, (0x80 + v / 64 % 64) as byte, (0x80 + v % 64) as byte]
    else [(0xF0 + v / 262144) as byte, (0x80 + v / 4096 % 64) as byte, (0x80 + v / 64 % 64) as byte, (0x80 + v % 64) as byte]
  }

  function EncodeScalars(text: seq<scalar>): seq<byte> {
    if text == [] then [] else EncodeScalar(text[0]) + EncodeScalars(text[1..])
  }

  lemma ThreeRecognized(a: nat, b: nat, c: nat, rest: seq<byte>)
    requires a < 16 && b < 64 && c < 64 && (a == 0 ==> b >= 32) && (a == 13 ==> b < 32)
    ensures Utf8Step([(0xE0 + a) as byte, (0x80 + b) as byte, (0x80 + c) as byte] + rest) == 3
  {
  }

  lemma FourRecognized(a: nat, b: nat, c: nat, d: nat, rest: seq<byte>)
    requires a <= 4 && b < 64 && c < 64 && d < 64 && (a == 0 ==> b >= 16) && (a == 4 ==> b < 16)
    ensures Utf8Step([(0xF0 + a) as byte, (0x80 + b) as byte, (0x80 + c) as byte, (0x80 + d) as byte] + rest) == 4
  {
  }

  /** No overlong form and no surrogate among the values of three and four octets. */
  lemma LeadingBits(v: scalar)
    ensures 0x800 <= v < 0x10000 ==>
              v / 4096 < 16 && (v / 4096 == 0 ==> v / 64 % 64 >= 32) && (v / 4096 == 13 ==> v / 64 % 64 < 32)
    ensures v >= 0x10000 ==>
              v / 262144 <= 4 && (v / 262144 == 0 ==> v / 4096 % 64 >= 16) && (v / 262144 == 4 ==> v / 4096 % 64 < 16)
  {
  }

  /** An encoded value is recognized whatever follows it. */
  lemma EncodedIsRecognized(v: scalar, rest: seq<byte>)
    ensures var s := EncodeScalar(v) + rest;
            Utf8Step(s) == |EncodeScalar(v)| && s[Utf8Step(s)..] == rest
  {
    LeadingBits(v);
    assert (EncodeScalar(v) + rest)[|EncodeScalar(v)|..] == rest;
    if 0x800 <= v < 0x10000 {
      ThreeRecognized(v / 4096, v / 64 % 64, v % 64, rest);
    } else if v >= 0x10000 {
      FourRecognized(v / 262144, v / 4096 % 64, v / 64 % 64, v % 64, rest);
    }
  }

  lemma TwoOctets(a: nat, b: nat)
    requires b < 64
    ensures (64 * a + b) / 64 == a && (64 * a + b) % 64 == b
  {
  }

  lemma ThreeOctets(a: nat, b: nat, c: nat)
    requires b < 64 && c < 64
    ensures var v := 4096 * a + 64 * b + c; v / 4096 == a && v / 64 % 64 == b && v % 64 == c
  {
    var v := 4096 * a + 64 * b + c;
    TwoOctets(64 * a + b, c);
    assert v == 64 * (64 * a + b) + c;
    TwoOctets(a, b);
    assert v / 4096 == v / 64 / 64;
  }

  lemma FourOctets(a: nat, b: nat, c: nat, d: nat)
    requires b < 64 && c < 64 && d < 64
    ensures var v := 262144 * a + 4096 * b + 64 * c + d;
            v / 262144 == a && v / 4096 % 64 == b && v / 64 % 64 == c && v % 64 == d
  {
    var v := 262144 * a + 4096 * b + 64 * c + d;
    ThreeOctets(64 * a + b, c, d);
    assert v == 4096 * (64 * a + b) + 64 * c + d;
    TwoOctets(a, b);
    assert v / 262144 == v / 4096 / 64;
  }

  /** A recognized sequence encodes a scalar value. */
  lemma RecognizedIsEncoded(s: seq<byte>) returns (v: scalar)
    requires s != [] && Utf8Step(s) > 0
    ensures s[..Utf8Step(s)] == EncodeScalar(v)
  {
    var n, a := Utf8Step(s), s[0] as nat;
    if n == 1 {
      v := a;
    } else if n == 2 {
      var b := s[1] as nat - 0x80;
      TwoOctets(a - 0xC0, b);
      v := 64 * (a - 0xC0) + b;
    } else if n == 3 {
      var b, c := s[1] as nat - 0x80, s[2] as nat - 0x80;
      ThreeOctets(a - 0xE0, b, c);
      v := 4096 * (a - 0xE0) + 64 * b + c;
    } else {
      var b, c, d := s[1] as nat - 0x80, s[2] as nat - 0x80, s[3] as nat - 0x80;
      FourOctets(a - 0xF0, b, c, d);
      v := 262144 * (a - 0xF0) + 4096 * b + 64 * c + d;
    }
  }

  lemma {:induction false} EncodedIsUtf8(text: seq<scalar>)
    ensures Utf8(EncodeScalars(text))
    decreases |text|
  {
    if text != [] {
      EncodedIsRecognized(text[0], EncodeScalars(text[1..]));
      EncodedIsUtf8(text[1..]);
    }
  }

  lemma {:induction false} Utf8IsEncoded(s: seq<byte>) returns (text: seq<scalar>)
    requires Utf8(s)
    ensures EncodeScalars(text) == s
    decreases |s|
  {
    text := [];
    if s != [] {
      var v := RecognizedIsEncoded(s);
      var rest := Utf8IsEncoded(s[Utf8Step(s)..]);
      text := [v] + rest;
      assert text[1..] == rest && s == s[..Utf8Step(s)] + s[Utf8Step(s)..];
    }
  }

  lemma Utf8Exactly(s: seq<byte>)
    ensures Utf8(s) <==> exists text :: EncodeScalars(text) == s
  {
    if Utf8(s) {
      var text := Utf8IsEncoded(s);
    }
    if text :| EncodeScalars(text) == s {
      EncodedIsUtf8(text);
    }
  }
}
