/** Padded base64 (section 4 of RFC 4648) in its two encoders and one decoder, and
    the 64-column PEM body built from it. */
module Base64Text {
  import opened Basics
  import Base64Url

  type sextet = Base64Url.sextet

  const PAD: byte := 61
  const LF: byte := 10

  function StandardChar(v: sextet): byte {
    if v < 26 then (65 + v) as byte
    else if v < 52 then (71 + v) as byte
    else if v < 62 then (v - 4) as byte
    else if v == 62 then 43 else 47
  }

  function StandardValue(b: byte): Option<sextet> {
    if 65 <= b <= 90 then Some(b as nat - 65)
    else if 97 <= b <= 122 then Some(b as nat - 71)
    else if 48 <= b <= 57 then Some(b as nat + 4)
    else if b == 43 then Some(62)
    else if b == 47 then Some(63)
    else None
  }

  lemma StandardCharHasValue(v: sextet)
    ensures StandardValue(StandardChar(v)) == Some(v) && StandardChar(v) != PAD
    ensures StandardChar(v) != LF && !Whitespace(StandardChar(v))
  {
  }

  /** Table 1 of RFC 4648. */
  const STANDARD_ALPHABET: string := Base64Url.UPPER + Base64Url.LOWER + Base64Url.DIGITS + "+/"

  lemma StandardAlphabet(v: sextet, b: byte)
    ensures |STANDARD_ALPHABET| == 64 && StandardChar(v) as int == STANDARD_ALPHABET[v] as int
    ensures StandardValue(b) == Some(v) <==> b as int == STANDARD_ALPHABET[v] as int
    ensures PAD as int == '=' as int
  {
    Base64Url.AlphabetAt("+/", v);
  }

  // ----- encoders

  function CharAt(packed: nat, i: nat): byte {
    StandardChar(Base64Url.SextetAt(packed, i))
  }

  /** Four characters for one to three octets. */
  function Quantum(chunk: seq<byte>): seq<byte> {
    var p := Base64Url.Packed(chunk);
    Characters(|chunk|, Base64Url.SextetAt(p, 0), Base64Url.SextetAt(p, 1), Base64Url.SextetAt(p, 2), Base64Url.SextetAt(p, 3))
  }

  function Characters(n: nat, s0: sextet, s1: sextet, s2: sextet, s3: sextet): seq<byte> {
    [StandardChar(s0), StandardChar(s1),
     if n >= 2 then StandardChar(s2) else PAD,
     if n >= 3 then StandardChar(s3) else PAD]
  }

  /** Whole triples and what is left after the first. */
  function First(input: seq<byte>): seq<byte> {
    if |input| <= 3 then input else input[..3]
  }

  function Rest(input: seq<byte>): seq<byte> {
    if |input| <= 3 then [] else input[3..]
  }

  function EncodeBy(quantum: seq<byte> -> seq<byte>, input: seq<byte>): seq<byte>
    decreases |input|
  {
    if input == [] then [] else quantum(First(input)) + EncodeBy(quantum, Rest(input))
  }

  function Encode(input: seq<byte>): seq<byte> {
    EncodeBy(Quantum, input)
  }

  lemma EncodeStep(quantum: seq<byte> -> seq<byte>, out: seq<byte>, rest: seq<byte>)
    requires rest != []
    ensures out + EncodeBy(quantum, rest) == out + quantum(First(rest)) + EncodeBy(quantum, Rest(rest))
  {
  }

  /** The shared encoder: every chunk yields four slots, filled or padded. */
  method EncodeChunks(input: seq<byte>) returns (out: seq<byte>)
    ensures out == Encode(input)
  {
    out := [];
    var rest := input;
    while rest != []
      invariant EncodeBy(Quantum, input) == out + EncodeBy(Quantum, rest)
      decreases |rest|
    {
      EncodeStep(Quantum, out, rest);
      var characters := ChunkCharacters(First(rest));
      out, rest := out + characters, Rest(rest);
    }
  }

  method ChunkCharacters(chunk: seq<byte>) returns (characters: seq<byte>)
    requires 1 <= |chunk| <= 3
    ensures characters == Quantum(chunk)
  {
    var packed := Base64Url.PackChunk(chunk);
    characters := [];
    for index := 0 to 4
      invariant |characters| == index
      invariant forall k :: 0 <= k < index ==> characters[k] == Quantum(chunk)[k]
    {
      characters := characters + [if index <= |chunk| then CharAt(packed, index) else PAD];
    }
  }

  /** The key exporter's encoder: whole triples first, then the remainder by cases. */
  method EncodeTriples(input: seq<byte>) returns (out: seq<byte>)
    ensures out == Encode(input)
  {
    out := [];
    var rest := input;
    while |rest| >= 3
      invariant EncodeBy(Quantum, input) == out + EncodeBy(Quantum, rest)
      decreases |rest|
    {
      EncodeStep(Quantum, out, rest);
      var characters := TripleCharacters(rest[0], rest[1], rest[2]);
      assert First(rest) == [rest[0], rest[1], rest[2]];
      out, rest := out + characters, Rest(rest);
    }
    var last := RemainderCharacters(rest);
    EncodeShort(Quantum, rest);
    out := out + last;
  }

  lemma EncodeShort(quantum: seq<byte> -> seq<byte>, rest: seq<byte>)
    requires |rest| <= 3
    ensures EncodeBy(quantum, rest) == if rest == [] then [] else quantum(rest)
  {
    if rest != [] {
      assert EncodeBy(quantum, rest) == quantum(rest) + [];
    }
  }

  method TripleCharacters(b0: byte, b1: byte, b2: byte) returns (characters: seq<byte>)
    ensures characters == Quantum([b0, b1, b2])
  {
    var n := 65536 * b0 as nat + 256 * b1 as nat + b2 as nat;
    characters := [CharAt(n, 0), CharAt(n, 1), CharAt(n, 2), CharAt(n, 3)];
  }

  method RemainderCharacters(remainder: seq<byte>) returns (characters: seq<byte>)
    requires |remainder| < 3
    ensures characters == if remainder == [] then [] else Quantum(remainder)
  {
    match |remainder|
    case 1 =>
      var n := 65536 * remainder[0] as nat;
      characters := [CharAt(n, 0), CharAt(n, 1), PAD, PAD];
    case 2 =>
      var n := 65536 * remainder[0] as nat + 256 * remainder[1] as nat;
      characters := [CharAt(n, 0), CharAt(n, 1), CharAt(n, 2), PAD];
    case _ => characters := [];
  }

  // ----- decoder

  function ValueOrPad(b: byte): Option<nat> {
    if b == PAD then Some(0) else match StandardValue(b) case Some(v) => Some(v) case None => None
  }

  function FirstOctet(v0: sextet, v1: sextet): byte {
    (v0 * 4 % 256 + v1 / 16) as byte
  }

  function SecondOctet(v1: sextet, v2: sextet): byte {
    (v1 * 16 % 256 + v2 / 4) as byte
  }

  function ThirdOctet(v2: sextet, v3: sextet): byte {
    (v2 * 64 % 256 + v3) as byte
  }

  /** The octets of one quantum; shifts that leave the octet drop their high bits. */
  function QuantumOctets(q: seq<byte>): Option<seq<byte>> {
    if |q| != 4 || StandardValue(q[0]).None? || StandardValue(q[1]).None? || ValueOrPad(q[2]).None? || ValueOrPad(q[3]).None?
    then None
    else
      var v0, v1 := StandardValue(q[0]).value, StandardValue(q[1]).value;
      var v2, v3 := ValueOrPad(q[2]).value, ValueOrPad(q[3]).value;
      Some([FirstOctet(v0, v1)]
           + (if q[2] != PAD then [SecondOctet(v1, v2)] else [])
           + (if q[3] != PAD then [ThirdOctet(v2, v3)] else []))
  }

  function DecodeBy(octets: seq<byte> -> Option<seq<byte>>, s: seq<byte>): Option<seq<byte>>
    requires |s| % 4 == 0
    decreases |s|
  {
    if s == [] then Some([])
    else
      match octets(s[..4])
      case None => None
      case Some(head) =>
        match DecodeBy(octets, s[4..])
        case None => None
        case Some(rest) => Some(head + rest)
  }

  function Decode(s: seq<byte>): Option<seq<byte>> {
    if |s| % 4 != 0 then None else DecodeBy(QuantumOctets, s)
  }

  ghost function Prepend(out: seq<byte>, rest: Option<seq<byte>>): Option<seq<byte>> {
    match rest case None => None case Some(r) => Some(out + r)
  }

  method DecodeText(s: seq<byte>) returns (r: Option<seq<byte>>)
    ensures r == Decode(s)
  {
    if |s| % 4 != 0 {
      return None;
    }
    r := DecodeQuanta(QuantumOctets, s);
  }

  method DecodeQuanta(octets: seq<byte> -> Option<seq<byte>>, s: seq<byte>) returns (r: Option<seq<byte>>)
    requires |s| % 4 == 0
    ensures r == DecodeBy(octets, s)
  {
    var out, rest := [], s;
    PrependNothing(DecodeBy(octets, s));
    while rest != []
      invariant |rest| % 4 == 0
      invariant DecodeBy(octets, s) == Prepend(out, DecodeBy(octets, rest))
      decreases |rest|
    {
      var head := octets(rest[..4]);
      if head.None? {
        return None;
      }
      PrependTwice(out, head.value, DecodeBy(octets, rest[4..]));
      out, rest := out + head.value, rest[4..];
    }
    assert out + [] == out;
    r := Some(out);
  }

  lemma PrependNothing(r: Option<seq<byte>>)
    ensures Prepend([], r) == r
  {
    if r.Some? {
      assert [] + r.value == r.value;
    }
  }

  lemma PrependTwice(a: seq<byte>, b: seq<byte>, r: Option<seq<byte>>)
    ensures Prepend(a + b, r) == Prepend(a, Prepend(b, r))
  {
    if r.Some? {
      assert a + b + r.value == a + (b + r.value);
    }
  }

  lemma CharactersDecode(n: nat, s0: sextet, s1: sextet, s2: sextet, s3: sextet)
    requires 1 <= n <= 3
    ensures QuantumOctets(Characters(n, s0, s1, s2, s3))
            == Some([FirstOctet(s0, s1), SecondOctet(s1, s2), ThirdOctet(s2, s3)][..n])
  {
    StandardCharHasValue(s0);
    StandardCharHasValue(s1);
    StandardCharHasValue(s2);
    StandardCharHasValue(s3);
    var all := [FirstOctet(s0, s1), SecondOctet(s1, s2), ThirdOctet(s2, s3)];
    assert all[..1] == [all[0]] + [] + [] && all[..2] == [all[0]] + [all[1]] + [] && all[..3] == [all[0]] + [all[1]] + [all[2]];
  }

  lemma QuantumInverts(chunk: seq<byte>)
    requires 1 <= |chunk| <= 3
    ensures |Quantum(chunk)| == 4 && QuantumOctets(Quantum(chunk)) == Some(chunk)
  {
    var p := Base64Url.Packed(chunk);
    var s0, s1 := Base64Url.SextetAt(p, 0), Base64Url.SextetAt(p, 1);
    var s2, s3 := Base64Url.SextetAt(p, 2), Base64Url.SextetAt(p, 3);
    CharactersDecode(|chunk|, s0, s1, s2, s3);
    OctetsOfSextets(Base64Url.Octet(chunk, 0), Base64Url.Octet(chunk, 1), Base64Url.Octet(chunk, 2));
    var all := [FirstOctet(s0, s1), SecondOctet(s1, s2), ThirdOctet(s2, s3)];
    assert forall i :: 0 <= i < |chunk| ==> all[i] == chunk[i];
    assert all[..|chunk|] == chunk;
  }

  /** The octets of a packed triple, from its four digits. */
  lemma OctetsOfSextets(a: nat, b: nat, c: nat)
    requires a < 256 && b < 256 && c < 256
    ensures var p := 65536 * a + 256 * b + c;
            && Base64Url.SextetAt(p, 0) * 4 % 256 + Base64Url.SextetAt(p, 1) / 16 == a
            && Base64Url.SextetAt(p, 1) * 16 % 256 + Base64Url.SextetAt(p, 2) / 4 == b
            && Base64Url.SextetAt(p, 2) * 64 % 256 + Base64Url.SextetAt(p, 3) == c
  {
    var p := 65536 * a + 256 * b + c;
    TopSextets(a, 256 * b + c);
    LowSextets(a, b, c);
    assert p / 4096 == 16 * a + (256 * b + c) / 4096;
    assert (256 * b + c) / 4096 == b / 16;
    RecombineTop(a, b / 16);
    RecombineMiddle(b, a % 4, c / 64);
    RecombineLow(c, b % 16);
  }

  lemma Mod64(k: nat, x: nat)
    requires x < 64
    ensures (64 * k + x) % 64 == x
  {
  }

  lemma Mod256(k: nat, x: nat)
    requires x < 256
    ensures (256 * k + x) % 256 == x
  {
  }

  lemma TopSextets(a: nat, rest: nat)
    requires a < 256 && rest < 65536
    ensures (65536 * a + rest) / 262144 % 64 == a / 4
    ensures (65536 * a + rest) / 4096 % 64 == 16 * (a % 4) + rest / 4096
  {
    var p := 65536 * a + rest;
    assert p / 262144 == a / 4;
    assert p / 4096 == 64 * (a / 4) + (16 * (a % 4) + rest / 4096);
    Mod64(a / 4, 16 * (a % 4) + rest / 4096);
  }

  lemma LowSextets(a: nat, b: nat, c: nat)
    requires a < 256 && b < 256 && c < 256
    ensures (65536 * a + 256 * b + c) / 64 % 64 == 4 * (b % 16) + c / 64
    ensures (65536 * a + 256 * b + c) % 64 == c % 64
  {
    var p, low, high := 65536 * a + 256 * b + c, c % 64, c / 64;
    assert c == 64 * high + low;
    var q := 1024 * a + 4 * b + high;
    assert p == 64 * q + low;
    Mod64(q, low);
    assert p / 64 == q;
    assert q == 64 * (16 * a + b / 16) + (4 * (b % 16) + high);
    Mod64(16 * a + b / 16, 4 * (b % 16) + high);
  }

  lemma RecombineTop(a: nat, high: nat)
    requires a < 256 && high < 16
    ensures a / 4 * 4 % 256 + (16 * (a % 4) + high) / 16 == a
  {
    assert (16 * (a % 4) + high) / 16 == a % 4;
  }

  lemma RecombineMiddle(b: nat, low: nat, high: nat)
    requires b < 256 && low < 4 && high < 4
    ensures (16 * low + b / 16) * 16 % 256 + (4 * (b % 16) + high) / 4 == b
  {
    var top := b / 16;
    assert (16 * low + top) * 16 == 256 * low + 16 * top;
    Mod256(low, 16 * top);
    assert (4 * (b % 16) + high) / 4 == b % 16;
  }

  lemma RecombineLow(c: nat, low: nat)
    requires c < 256 && low < 16
    ensures (4 * low + c / 64) * 64 % 256 + c % 64 == c
  {
    var top := c / 64;
    assert (4 * low + top) * 64 == 256 * low + 64 * top;
    Mod256(low, 64 * top);
  }

  lemma SplitAtFour(a: seq<byte>, b: seq<byte>)
    requires |a| == 4
    ensures (a + b)[..4] == a && (a + b)[4..] == b
  {
  }

  ghost predicate Inverts(octets: seq<byte> -> Option<seq<byte>>, quantum: seq<byte> -> seq<byte>) {
    forall c: seq<byte> :: 1 <= |c| <= 3 ==> |quantum(c)| == 4 && octets(quantum(c)) == Some(c)
  }

  lemma {:induction false} EncodedLength(quantum: seq<byte> -> seq<byte>, input: seq<byte>)
    requires forall c: seq<byte> :: 1 <= |c| <= 3 ==> |quantum(c)| == 4
    ensures |EncodeBy(quantum, input)| % 4 == 0
    decreases |input|
  {
    if input != [] {
      EncodedLength(quantum, Rest(input));
      assert |EncodeBy(quantum, input)| == 4 + |EncodeBy(quantum, Rest(input))|;
    }
  }

  lemma DecodeStep(octets: seq<byte> -> Option<seq<byte>>, head: seq<byte>, chunk: seq<byte>, rest: seq<byte>)
    requires |head| == 4 && octets(head) == Some(chunk) && |rest| % 4 == 0
    ensures |head + rest| % 4 == 0
    ensures DecodeBy(octets, head + rest) == Prepend(chunk, DecodeBy(octets, rest))
  {
    SplitAtFour(head, rest);
  }

  /** Quantum-wise codecs invert when their quanta do. */
  lemma {:induction false} QuantaInvert(quantum: seq<byte> -> seq<byte>, octets: seq<byte> -> Option<seq<byte>>, input: seq<byte>)
    requires Inverts(octets, quantum)
    ensures |EncodeBy(quantum, input)| % 4 == 0
    ensures DecodeBy(octets, EncodeBy(quantum, input)) == Some(input)
    decreases |input|
  {
    EncodedLength(quantum, input);
    if input != [] {
      var first, rest := First(input), Rest(input);
      QuantaInvert(quantum, octets, rest);
      DecodeStep(octets, quantum(first), first, EncodeBy(quantum, rest));
      assert input == first + rest;
    }
  }

  /** Every octet string survives encoding and decoding. */
  lemma RoundTrip(input: seq<byte>)
    ensures Decode(Encode(input)) == Some(input)
  {
    forall c: seq<byte> | 1 <= |c| <= 3
      ensures |Quantum(c)| == 4 && QuantumOctets(Quantum(c)) == Some(c)
    {
      QuantumInverts(c);
    }
    assert Inverts(QuantumOctets, Quantum);
    QuantaInvert(Quantum, QuantumOctets, input);
  }

  // ----- lines

  predicate Whitespace(b: byte) {
    9 <= b <= 13 || b == 32
  }

  predicate Printable(s: seq<byte>) {
    forall i :: 0 <= i < |s| ==> !Whitespace(s[i])
  }

  function Strip(s: seq<byte>): seq<byte> {
    if s == [] then [] else (if Whitespace(s[0]) then [] else [s[0]]) + Strip(s[1..])
  }

  function NextBreak(s: seq<byte>): (n: nat)
    ensures n <= |s| && (n < |s| ==> s[n] == LF)
  {
    if s == [] || s[0] == LF then 0 else 1 + NextBreak(s[1..])
  }

  /** The lines of a text, their breaks removed. */
  function Lines(s: seq<byte>): seq<seq<byte>>
    decreases |s|
  {
    if s == [] then []
    else
      var n := NextBreak(s);
      [s[..n]] + if n < |s| then Lines(s[n + 1..]) else []
  }

  lemma {:induction false} NextBreakOf(line: seq<byte>, rest: seq<byte>)
    requires LF !in line
    ensures NextBreak(line + [LF] + rest) == |line|
  {
    var s := line + [LF] + rest;
    if line != [] {
      assert s[1..] == line[1..] + [LF] + rest;
      NextBreakOf(line[1..], rest);
    }
  }

  lemma FirstLine(line: seq<byte>, rest: seq<byte>)
    requires LF !in line
    ensures Lines(line + [LF] + rest) == [line] + Lines(rest)
  {
    var s := line + [LF] + rest;
    NextBreakOf(line, rest);
    assert s[..|line|] == line && s[|line| + 1..] == rest;
  }

  // ----- PEM

  const COLUMNS: nat := 64

  function Wrap(s: seq<byte>): seq<byte> {
    if s == [] then []
    else if |s| < COLUMNS then s + [LF]
    else s[..COLUMNS] + [LF] + Wrap(s[COLUMNS..])
  }

  function Ascii(s: string): seq<byte> {
    seq(|s|, i requires 0 <= i < |s| => (s[i] as int % 256) as byte)
  }

  function Pem(der: seq<byte>): seq<byte> {
    Ascii("-----BEGIN PUBLIC KEY-----\n") + Wrap(Encode(der)) + Ascii("-----END PUBLIC KEY-----\n")
  }

  method EncodePemSpki(der: seq<byte>) returns (text: seq<byte>)
    ensures text == Pem(der)
  {
    var b64 := EncodeTriples(der);
    var body := WrapColumns(b64);
    text := Ascii("-----BEGIN PUBLIC KEY-----\n") + body + Ascii("-----END PUBLIC KEY-----\n");
  }

  method WrapColumns(b64: seq<byte>) returns (body: seq<byte>)
    ensures body == Wrap(b64)
  {
    body := [];
    var rest := b64;
    while |rest| >= COLUMNS
      invariant Wrap(b64) == body + Wrap(rest)
      decreases |rest|
    {
      body, rest := body + rest[..COLUMNS] + [LF], rest[COLUMNS..];
    }
    if rest != [] {
      body := body + rest + [LF];
    }
  }

  lemma {:induction false} StripPrintable(a: seq<byte>, rest: seq<byte>)
    requires Printable(a)
    ensures Strip(a + [LF] + rest) == a + Strip(rest)
  {
    var s := a + [LF] + rest;
    if a == [] {
      assert s[1..] == rest && [] + Strip(rest) == Strip(rest);
    } else {
      assert s[1..] == a[1..] + [LF] + rest;
      StripPrintable(a[1..], rest);
    }
  }

  lemma WrapUnfolds(s: seq<byte>)
    requires s != []
    ensures var n := if |s| < COLUMNS then |s| else COLUMNS;
            Wrap(s) == s[..n] + [LF] + Wrap(s[n..])
  {
    if |s| < COLUMNS {
      assert s[..|s|] == s && s + [LF] + [] == s + [LF];
    }
  }

  lemma {:induction false} WrapStrips(s: seq<byte>)
    requires Printable(s)
    ensures Strip(Wrap(s)) == s
    decreases |s|
  {
    if s != [] {
      var n := if |s| < COLUMNS then |s| else COLUMNS;
      WrapUnfolds(s);
      WrapStrips(s[n..]);
      StripPrintable(s[..n], Wrap(s[n..]));
      assert s == s[..n] + s[n..];
    }
  }

  ghost predicate FullLines(lines: seq<seq<byte>>) {
    forall i :: 0 <= i < |lines| ==> 1 <= |lines[i]| <= COLUMNS && (i < |lines| - 1 ==> |lines[i]| == COLUMNS)
  }

  lemma {:induction false} WrapIsFull(s: seq<byte>)
    requires LF !in s
    ensures FullLines(Lines(Wrap(s)))
    ensures |Lines(Wrap(s))| == (|s| + 63) / 64
    decreases |s|
  {
    if s != [] {
      var n := if |s| < COLUMNS then |s| else COLUMNS;
      var line, rest := s[..n], s[n..];
      WrapUnfolds(s);
      assert LF !in line && LF !in rest;
      WrapIsFull(rest);
      FirstLine(line, Wrap(rest));
      assert forall i :: 0 < i < |Lines(Wrap(s))| ==> Lines(Wrap(s))[i] == Lines(Wrap(rest))[i - 1];
      assert n < COLUMNS ==> rest == [];
    }
  }

  lemma {:induction false} EncodedIsPrintable(quantum: seq<byte> -> seq<byte>, input: seq<byte>)
    requires forall c: seq<byte> :: 1 <= |c| <= 3 ==> Printable(quantum(c))
    ensures Printable(EncodeBy(quantum, input))
    decreases |input|
  {
    if input != [] {
      EncodedIsPrintable(quantum, Rest(input));
      assert Printable(quantum(First(input)));
    }
  }

  lemma QuantumIsPrintable(chunk: seq<byte>)
    ensures Printable(Quantum(chunk))
  {
    var p := Base64Url.Packed(chunk);
    StandardCharHasValue(Base64Url.SextetAt(p, 0));
    StandardCharHasValue(Base64Url.SextetAt(p, 1));
    StandardCharHasValue(Base64Url.SextetAt(p, 2));
    StandardCharHasValue(Base64Url.SextetAt(p, 3));
  }

  lemma EncodeHasNoBreaks(input: seq<byte>)
    ensures Printable(Encode(input)) && LF !in Encode(input)
  {
    forall c: seq<byte> | 1 <= |c| <= 3
      ensures Printable(Quantum(c))
    {
      QuantumIsPrintable(c);
    }
    EncodedIsPrintable(Quantum, input);
  }

  /** Wrapping only adds breaks: stripping white space recovers the text, which
      decodes back to the key, and every line is full except possibly the last. */
  lemma PemBodyRoundTrip(der: seq<byte>)
    ensures Strip(Wrap(Encode(der))) == Encode(der)
    ensures Decode(Strip(Wrap(Encode(der)))) == Some(der)
    ensures FullLines(Lines(Wrap(Encode(der)))) && |Lines(Wrap(Encode(der)))| == (|Encode(der)| + 63) / 64
  {
    EncodeHasNoBreaks(der);
    WrapStrips(Encode(der));
    WrapIsFull(Encode(der));
    RoundTrip(der);
  }

  // ----- the whole PEM text

  lemma WrapBefore(s: seq<byte>, rest: seq<byte>)
    requires s != []
    ensures var n := if |s| < COLUMNS then |s| else COLUMNS;
            Wrap(s) + rest == s[..n] + [LF] + (Wrap(s[n..]) + rest)
  {
    var n := if |s| < COLUMNS then |s| else COLUMNS;
    WrapUnfolds(s);
    Reassociate(s[..n] + [LF], Wrap(s[n..]), rest);
  }

  lemma Reassociate<T>(a: seq<T>, b: seq<T>, c: seq<T>)
    ensures (a + b) + c == a + (b + c)
  {
  }

  lemma {:induction false} LinesAfterWrap(s: seq<byte>, rest: seq<byte>)
    requires LF !in s
    ensures Lines(Wrap(s) + rest) == Lines(Wrap(s)) + Lines(rest)
    decreases |s|
  {
    if s == [] {
      assert Wrap(s) == [] && [] + rest == rest;
    } else {
      var n := if |s| < COLUMNS then |s| else COLUMNS;
      var line, later := s[..n], s[n..];
      LinesAfterWrap(later, rest);
      WrapUnfolds(s);
      WrapBefore(s, rest);
      FirstLine(line, Wrap(later));
      FirstLine(line, Wrap(later) + rest);
      Reassociate([line], Lines(Wrap(later)), Lines(rest));
    }
  }

  /** A wrapped text between two lines. */
  lemma LinesBetween(begin: seq<byte>, s: seq<byte>, end: seq<byte>)
    requires LF !in begin && LF !in s && LF !in end
    ensures Lines(begin + [LF] + (Wrap(s) + (end + [LF]))) == [begin] + (Lines(Wrap(s)) + [end])
  {
    FirstLine(begin, Wrap(s) + (end + [LF]));
    LinesAfterWrap(s, end + [LF]);
    FirstLine(end, []);
    assert end + [LF] + [] == end + [LF];
  }

  /** The characters of a 7-bit text. */
  ghost predicate Spelled(s: seq<byte>, text: string) {
    |s| == |text| && forall i :: 0 <= i < |s| ==> s[i] as int == text[i] as int
  }

  ghost predicate OneLineText(text: string) {
    forall i :: 0 <= i < |text| ==> text[i] < 128 as char && text[i] as int != 10
  }

  lemma AsciiLine(text: string)
    requires OneLineText(text)
    ensures Ascii(text + "\n") == Ascii(text) + [LF]
    ensures Spelled(Ascii(text), text) && LF !in Ascii(text)
  {
    assert "\n"[0] as int == 10;
    assert forall i :: 0 <= i < |text| ==> (text + "\n")[i] == text[i];
  }

  lemma MiddleLines(begin: seq<byte>, body: seq<seq<byte>>, end: seq<byte>)
    ensures var lines := [begin] + (body + [end]);
            lines[0] == begin && lines[|lines| - 1] == end && lines[1..|lines| - 1] == body
  {
  }

  lemma HeaderLine()
    ensures Ascii("-----BEGIN PUBLIC KEY-----\n") == Ascii("-----BEGIN PUBLIC KEY-----") + [LF]
    ensures Spelled(Ascii("-----BEGIN PUBLIC KEY-----"), "-----BEGIN PUBLIC KEY-----") && LF !in Ascii("-----BEGIN PUBLIC KEY-----")
  {
    AsciiLine("-----BEGIN PUBLIC KEY-----");
    assert "-----BEGIN PUBLIC KEY-----" + "\n" == "-----BEGIN PUBLIC KEY-----\n";
  }

  lemma FooterLine()
    ensures Ascii("-----END PUBLIC KEY-----\n") == Ascii("-----END PUBLIC KEY-----") + [LF]
    ensures Spelled(Ascii("-----END PUBLIC KEY-----"), "-----END PUBLIC KEY-----") && LF !in Ascii("-----END PUBLIC KEY-----")
  {
    AsciiLine("-----END PUBLIC KEY-----");
    assert "-----END PUBLIC KEY-----" + "\n" == "-----END PUBLIC KEY-----\n";
  }

  lemma PemParts(der: seq<byte>, begin: seq<byte>, end: seq<byte>)
    requires begin == Ascii("-----BEGIN PUBLIC KEY-----") && end == Ascii("-----END PUBLIC KEY-----")
    ensures Pem(der) == begin + [LF] + (Wrap(Encode(der)) + (end + [LF]))
    ensures Spelled(begin, "-----BEGIN PUBLIC KEY-----") && Spelled(end, "-----END PUBLIC KEY-----")
    ensures LF !in begin && LF !in end
  {
    HeaderLine();
    FooterLine();
    Reassociate(begin + [LF], Wrap(Encode(der)), end + [LF]);
  }

  /** A PEM public key is a header line, the base64 text in lines of 64 with only the
      last one possibly shorter, and a footer line. */
  lemma PemLines(der: seq<byte>)
    ensures var lines := Lines(Pem(der));
            var n := |lines| - 1;
            && n >= 1
            && Spelled(lines[0], "-----BEGIN PUBLIC KEY-----") && Spelled(lines[n], "-----END PUBLIC KEY-----")
            && FullLines(lines[1..n]) && n - 1 == (|Encode(der)| + 63) / 64
            && lines[1..n] == Lines(Wrap(Encode(der)))
  {
    var begin, end := Ascii("-----BEGIN PUBLIC KEY-----"), Ascii("-----END PUBLIC KEY-----");
    var body := Lines(Wrap(Encode(der)));
    PemParts(der, begin, end);
    EncodeHasNoBreaks(der);
    WrapIsFull(Encode(der));
    LinesBetween(begin, Encode(der), end);
    MiddleLines(begin, body, end);
  }
}
