/** URL-safe base64 without padding (section 5 of RFC 4648): the chunked encoder and
    the streaming decoder, related through the numbers their digits spell.  Shifts
    and ors of disjoint bits are written as multiplication, division and addition. */
module Base64Url {
  import opened Basics

  // ----- digit strings as numbers

  /** Big-endian value of an octet string. */
  function Number(s: seq<byte>): nat {
    if s == [] then 0 else 256 * Number(s[..|s| - 1]) + s[|s| - 1] as nat
  }

  type sextet = x: nat | x < 64

  /** Big-endian value of a string of 6-bit digits. */
  function SextetNumber(v: seq<sextet>): nat {
    if v == [] then 0 else 64 * SextetNumber(v[..|v| - 1]) + v[|v| - 1]
  }

  lemma NumberSnoc(s: seq<byte>, b: byte)
    ensures Number(s + [b]) == 256 * Number(s) + b as nat
  {
    assert (s + [b])[..|s|] == s;
  }

  lemma SextetNumberSnoc(v: seq<sextet>, d: sextet)
    ensures SextetNumber(v + [d]) == 64 * SextetNumber(v) + d
  {
    assert (v + [d])[..|v|] == v;
  }

  /** Octet strings of one length are determined by their value. */
  lemma {:induction false} NumberIsInjective(a: seq<byte>, b: seq<byte>)
    requires |a| == |b| && Number(a) == Number(b)
    ensures a == b
    decreases |a|
  {
    if a != [] {
      var x, y := a[|a| - 1], b[|b| - 1];
      var c, d := a[..|a| - 1], b[..|b| - 1];
      SameDigit(Number(c), x as nat, Number(d), y as nat);
      NumberIsInjective(c, d);
      assert a == c + [x] && b == d + [y];
    }
  }

  lemma SameDigit(p: nat, x: nat, q: nat, y: nat)
    requires x < 256 && y < 256 && 256 * p + x == 256 * q + y
    ensures p == q && x == y
  {
  }

  // ----- alphabet

  const PAD: byte := 61

  function UrlChar(v: sextet): byte {
    if v < 26 then (65 + v) as byte
    else if v < 52 then (71 + v) as byte
    else if v < 62 then (v - 4) as byte
    else if v == 62 then 45 else 95
  }

  function UrlValue(b: byte): Option<sextet> {
    if 65 <= b <= 90 then Some(b as nat - 65)
    else if 97 <= b <= 122 then Some(b as nat - 71)
    else if 48 <= b <= 57 then Some(b as nat + 4)
    else if b == 45 then Some(62)
    else if b == 95 then Some(63)
    else None
  }

  lemma UrlCharHasValue(v: sextet)
    ensures UrlValue(UrlChar(v)) == Some(v) && UrlChar(v) != PAD
  {
  }

  const UPPER: string := "ABCDEFGHIJKLMNOPQRSTUVWXYZ"
  const LOWER: string := "abcdefghijklmnopqrstuvwxyz"
  const DIGITS: string := "0123456789"

  lemma UpperIsInOrder(v: nat)
    requires v < 26
    ensures |UPPER| == 26 && UPPER[v] as int == 65 + v
  {
  }

  lemma LowerIsInOrder(v: nat)
    requires v < 26
    ensures |LOWER| == 26 && LOWER[v] as int == 97 + v
  {
  }

  lemma DigitsAreInOrder(v: nat)
    requires v < 10
    ensures |DIGITS| == 10 && DIGITS[v] as int == 48 + v
  {
  }

  /** Table 2 of RFC 4648. */
  const URL_ALPHABET: string := UPPER + LOWER + DIGITS + "-_"

  /** A digit's character is its entry in the table, and a character has exactly the
      digit it is listed under. */
  lemma UrlAlphabet(v: sextet, b: byte)
    ensures |URL_ALPHABET| == 64 && UrlChar(v) as int == URL_ALPHABET[v] as int
    ensures UrlValue(b) == Some(v) <==> b as int == URL_ALPHABET[v] as int
    ensures PAD as int == '=' as int
  {
    AlphabetAt("-_", v);
  }

  /** Entry `v` of a table of letters, digits and two more. */
  lemma AlphabetAt(last: string, v: sextet)
    requires |last| == 2
    ensures var table := UPPER + LOWER + DIGITS + last;
            && |table| == 64
            && table[v] as int == if v < 26 then 65 + v else if v < 52 then 71 + v else if v < 62 then v - 4 else last[v - 62] as int
  {
    UpperIsInOrder(if v < 26 then v else 0);
    LowerIsInOrder(if 26 <= v < 52 then v - 26 else 0);
    DigitsAreInOrder(if 52 <= v < 62 then v - 52 else 0);
  }

  // ----- encoder

  function Octet(chunk: seq<byte>, i: nat): nat {
    if i < |chunk| then chunk[i] as nat else 0
  }

  /** A chunk packed into 24 bits, missing octets zero. */
  function Packed(chunk: seq<byte>): nat {
    65536 * Octet(chunk, 0) + 256 * Octet(chunk, 1) + Octet(chunk, 2)
  }

  function SextetAt(packed: nat, i: nat): sextet {
    if i == 0 then packed / 262144 % 64
    else if i == 1 then packed / 4096 % 64
    else if i == 2 then packed / 64 % 64
    else packed % 64
  }

  function OutChars(n: nat): nat {
    if n == 1 then 2 else if n == 2 then 3 else 4
  }

  function Quantum(chunk: seq<byte>): seq<byte> {
    seq(OutChars(|chunk|), i requires 0 <= i => UrlChar(SextetAt(Packed(chunk), i)))
  }

  /** Start of the last chunk of a string of length `n`. */
  function LastChunk(n: nat): nat
    requires n > 0
  {
    (n - 1) / 3 * 3
  }

  function Encode(input: seq<byte>): seq<byte>
    decreases |input|
  {
    if input == [] then []
    else Encode(input[..LastChunk(|input|)]) + Quantum(input[LastChunk(|input|)..])
  }

  method PackChunk(chunk: seq<byte>) returns (packed: nat)
    ensures packed == Packed(chunk)
  {
    packed := 0;
    for index := 0 to 3
      invariant index == 0 ==> packed == 0
      invariant index == 1 ==> packed == Octet(chunk, 0)
      invariant index == 2 ==> packed == 256 * Octet(chunk, 0) + Octet(chunk, 1)
      invariant index == 3 ==> packed == Packed(chunk)
    {
      packed := packed * 256 + Octet(chunk, index);
    }
  }

  method AppendQuantum(before: seq<byte>, chunk: seq<byte>) returns (out: seq<byte>)
    ensures out == before + Quantum(chunk)
  {
    out := before;
    var packed := PackChunk(chunk);
    for index := 0 to OutChars(|chunk|)
      invariant out == before + Quantum(chunk)[..index]
    {
      out := out + [UrlChar(SextetAt(packed, index))];
    }
  }

  lemma EncodeNext(input: seq<byte>, i: nat, end: nat)
    requires i % 3 == 0 && i < end <= |input| && end <= i + 3
    ensures Encode(input[..end]) == Encode(input[..i]) + Quantum(input[i..end])
  {
    assert LastChunk(end) == i;
    assert input[..end][..i] == input[..i] && input[..end][i..] == input[i..end];
  }

  method EncodeUrlUnpadded(input: seq<byte>) returns (out: seq<byte>)
    ensures out == Encode(input)
  {
    out := [];
    var i := 0;
    while i < |input|
      invariant 0 <= i <= |input|
      invariant i < |input| ==> i % 3 == 0
      invariant out == Encode(input[..i])
    {
      var end := if i + 3 <= |input| then i + 3 else |input|;
      EncodeNext(input, i, end);
      out := AppendQuantum(out, input[i..end]);
      i := end;
    }
    assert input[..|input|] == input;
  }

  // ----- streaming decoder

  const WORD: nat := 0x1_0000_0000

  /** The decoder's variables: a 32-bit accumulator, the bits waiting in it, the output. */
  datatype Stream = Stream(buf: nat, bits: nat, out: seq<byte>)

  function Power(bits: nat): nat {
    if bits == 0 then 1 else if bits == 2 then 4 else if bits == 4 then 16 else 64
  }

  /** Absorb one digit; the shift drops what leaves the 32-bit word. */
  function Absorb(s: Stream, v: sextet): Stream {
    var buf := s.buf * 64 % WORD + v;
    if s.bits + 6 >= 8 then
      Stream(buf, s.bits - 2, s.out + [(buf / Power(s.bits - 2) % 256) as byte])
    else Stream(buf, s.bits + 6, s.out)
  }

  function Streamed(input: seq<byte>): Option<Stream> {
    if input == [] then Some(Stream(0, 0, []))
    else
      match Streamed(input[..|input| - 1])
      case None => None
      case Some(s) =>
        var b := input[|input| - 1];
        if b == PAD then Some(s)
        else match UrlValue(b)
          case None => None
          case Some(v) => Some(Absorb(s, v))
  }

  function Decode(input: seq<byte>): Option<seq<byte>> {
    match Streamed(input)
    case None => None
    case Some(s) => Some(s.out)
  }

  predicate Alphabetic(input: seq<byte>) {
    forall i :: 0 <= i < |input| ==> input[i] == PAD || UrlValue(input[i]).Some?
  }

  /** The digits of a string, padding characters skipped. */
  function Digits(input: seq<byte>): seq<sextet> {
    if input == [] then []
    else
      var b := input[|input| - 1];
      Digits(input[..|input| - 1]) + if b != PAD && UrlValue(b).Some? then [UrlValue(b).value] else []
  }

  method DecodeUrlUnpadded(input: seq<byte>) returns (r: Option<seq<byte>>)
    ensures r == Decode(input)
  {
    var s := Stream(0, 0, []);
    for i := 0 to |input|
      invariant Streamed(input[..i]) == Some(s)
    {
      assert input[..i + 1][..i] == input[..i];
      var b := input[i];
      if b == PAD {
        continue;
      }
      var v := UrlValue(b);
      if v.None? {
        StreamedFails(input, i + 1);
        return None;
      }
      s := Absorb(s, v.value);
    }
    assert input[..|input|] == input;
    r := Some(s.out);
  }

  lemma {:induction false} StreamedFails(input: seq<byte>, n: nat)
    requires n <= |input| && Streamed(input[..n]).None?
    ensures Streamed(input).None?
    decreases |input| - n
  {
    if n < |input| {
      assert input[..n + 1][..n] == input[..n];
      StreamedFails(input, n + 1);
    } else {
      assert input[..n] == input;
    }
  }

  // ----- the decoder's output is the leading bits of the digit stream

  lemma ModDrops(a: nat, b: nat)
    ensures (256 * a + b) % 256 == b % 256
  {
  }

  lemma WordKeepsLowBits(value: nat, bits: nat)
    requires bits == 0 || bits == 2 || bits == 4
    ensures value % WORD / Power(bits) % 256 == value / Power(bits) % 256
  {
    var q, r := value / WORD, value % WORD;
    assert value == WORD * q + r;
    if bits == 0 {
      ModDrops(16777216 * q, r);
    } else if bits == 2 {
      assert value / 4 == 256 * (4194304 * q) + r / 4;
      ModDrops(4194304 * q, r / 4);
    } else {
      assert value / 16 == 256 * (1048576 * q) + r / 16;
      ModDrops(1048576 * q, r / 16);
    }
  }

  ghost predicate Faithful(s: Stream, v: seq<sextet>) {
    && s.buf == SextetNumber(v) % WORD
    && s.bits == 6 * |v| % 8
    && |s.out| == 6 * |v| / 8
    && Number(s.out) == SextetNumber(v) / Power(s.bits)
  }

  /** Reading one more digit, in numbers: the leading octets are either unchanged or
      extended by the octet just completed. */
  lemma LeadingOctets(n: nat, d: sextet, bits: nat)
    requires bits == 0 || bits == 2 || bits == 4 || bits == 6
    ensures var m := 64 * n + d;
            if bits == 0 then m / Power(6) == n / Power(0)
            else m / Power(bits - 2) == 256 * (n / Power(bits)) + m / Power(bits - 2) % 256
  {
    if bits == 2 {
      Remainder(n / 4, 64 * (n % 4) + d);
    } else if bits == 4 {
      QuarterShift(n / 16, 64 * (n % 16) + d);
    } else if bits == 6 {
      SixteenthShift(n / 64, 64 * (n % 64) + d);
    }
  }

  lemma Remainder(q: nat, x: nat)
    requires x < 256
    ensures (256 * q + x) % 256 == x
  {
    ModDrops(q, x);
  }

  lemma QuarterShift(q: nat, x: nat)
    requires x < 1024
    ensures (1024 * q + x) / 4 == 256 * q + (1024 * q + x) / 4 % 256
  {
    assert (1024 * q + x) / 4 == 256 * q + x / 4;
    Remainder(q, x / 4);
  }

  lemma SixteenthShift(q: nat, x: nat)
    requires x < 4096
    ensures (4096 * q + x) / 16 == 256 * q + (4096 * q + x) / 16 % 256
  {
    assert (4096 * q + x) / 16 == 256 * q + x / 16;
    Remainder(q, x / 16);
  }

  lemma AbsorbIsFaithful(s: Stream, v: seq<sextet>, d: sextet)
    requires Faithful(s, v)
    ensures Faithful(Absorb(s, d), v + [d])
  {
    var n := SextetNumber(v);
    SextetNumberSnoc(v, d);
    BitsAreEven(|v|);
    BitsAdvance(|v|);
    AbsorbsNumber(s, n, d);
  }

  /** The accumulator after the shift, in numbers. */
  lemma AbsorbedWord(buf: nat, n: nat, d: sextet)
    requires buf == n % WORD
    ensures buf * 64 % WORD + d == (64 * n + d) % WORD
  {
    ShiftWraps(n / WORD, n % WORD, d);
  }

  lemma AbsorbsWaiting(s: Stream, n: nat, d: sextet)
    requires s.bits == 0 && s.buf == n % WORD && Number(s.out) == n
    ensures var after, m := Absorb(s, d), 64 * n + d;
            after.buf == m % WORD && Number(after.out) == m / Power(after.bits)
  {
    AbsorbedWord(s.buf, n, d);
    LeadingOctets(n, d, 0);
  }

  lemma AbsorbsAtTwo(s: Stream, n: nat, d: sextet)
    requires s.bits == 2 && s.buf == n % WORD && Number(s.out) == n / 4
    ensures var after := Absorb(s, d);
            after.bits == 0 && after.buf == (64 * n + d) % WORD && Number(after.out) == 64 * n + d
  {
    var word := s.buf * 64 % WORD + d;
    var octet := word % 256;
    AbsorbedWord(s.buf, n, d);
    WordKeepsLowBits(64 * n + d, 0);
    LeadingOctets(n, d, 2);
    NumberSnoc(s.out, octet as byte);
  }

  lemma AbsorbsAtFour(s: Stream, n: nat, d: sextet)
    requires s.bits == 4 && s.buf == n % WORD && Number(s.out) == n / 16
    ensures var after := Absorb(s, d);
            after.bits == 2 && after.buf == (64 * n + d) % WORD && Number(after.out) == (64 * n + d) / 4
  {
    var word := s.buf * 64 % WORD + d;
    var octet := word / 4 % 256;
    AbsorbedWord(s.buf, n, d);
    WordKeepsLowBits(64 * n + d, 2);
    LeadingOctets(n, d, 4);
    NumberSnoc(s.out, octet as byte);
  }

  lemma AbsorbsAtSix(s: Stream, n: nat, d: sextet)
    requires s.bits == 6 && s.buf == n % WORD && Number(s.out) == n / 64
    ensures var after := Absorb(s, d);
            after.bits == 4 && after.buf == (64 * n + d) % WORD && Number(after.out) == (64 * n + d) / 16
  {
    var word := s.buf * 64 % WORD + d;
    var octet := word / 16 % 256;
    AbsorbedWord(s.buf, n, d);
    WordKeepsLowBits(64 * n + d, 4);
    LeadingOctets(n, d, 6);
    NumberSnoc(s.out, octet as byte);
  }

  lemma AbsorbsNumber(s: Stream, n: nat, d: sextet)
    requires s.bits == 0 || s.bits == 2 || s.bits == 4 || s.bits == 6
    requires s.buf == n % WORD && Number(s.out) == n / Power(s.bits)
    ensures var after, m := Absorb(s, d), 64 * n + d;
            after.buf == m % WORD && Number(after.out) == m / Power(after.bits)
  {
    match s.bits
    case 0 => AbsorbsWaiting(s, n, d);
    case 2 => AbsorbsAtTwo(s, n, d);
    case 4 => AbsorbsAtFour(s, n, d);
    case _ => AbsorbsAtSix(s, n, d);
  }

  lemma BitsAreEven(k: nat)
    ensures 6 * k % 8 == 0 || 6 * k % 8 == 2 || 6 * k % 8 == 4 || 6 * k % 8 == 6
  {
    assert 6 * k % 8 == 2 * (3 * k % 4);
  }

  lemma BitsAdvance(k: nat)
    ensures 6 * k % 8 >= 2 ==> 6 * (k + 1) % 8 == 6 * k % 8 - 2 && 6 * (k + 1) / 8 == 6 * k / 8 + 1
    ensures 6 * k % 8 < 2 ==> 6 * (k + 1) % 8 == 6 * k % 8 + 6 && 6 * (k + 1) / 8 == 6 * k / 8
  {
  }

  lemma ShiftWraps(q: nat, r: nat, d: sextet)
    requires r < WORD
    ensures r * 64 % WORD + d == (64 * (WORD * q + r) + d) % WORD
  {
    var k, low := r * 64 / WORD, r * 64 % WORD;
    assert r * 64 == WORD * k + low;
    assert low % 64 == 0;
    assert 64 * (WORD * q + r) + d == WORD * (64 * q + k) + (low + d);
    assert low + d < WORD;
  }

  /** On any string over the alphabet with n digits the decoder yields floor(6n/8)
      octets that spell the leading bits of the digit stream, although the
      accumulator loses its high bits; on any other string it fails. */
  lemma {:induction false} StreamIsFaithful(input: seq<byte>)
    ensures Streamed(input).Some? <==> Alphabetic(input)
    ensures Streamed(input).Some? ==> Faithful(Streamed(input).value, Digits(input))
    decreases |input|
  {
    if input != [] {
      var shorter, b := input[..|input| - 1], input[|input| - 1];
      StreamIsFaithful(shorter);
      AlphabeticSnoc(input);
      DigitsLast(input);
      if Streamed(shorter).Some? && b != PAD && UrlValue(b).Some? {
        AbsorbIsFaithful(Streamed(shorter).value, Digits(shorter), UrlValue(b).value);
      }
    }
  }

  lemma AlphabeticSnoc(input: seq<byte>)
    requires input != []
    ensures var b := input[|input| - 1];
            Alphabetic(input) <==> Alphabetic(input[..|input| - 1]) && (b == PAD || UrlValue(b).Some?)
  {
  }

  lemma DigitsLast(input: seq<byte>)
    requires input != []
    ensures var shorter, b := input[..|input| - 1], input[|input| - 1];
            Digits(input) == if b != PAD && UrlValue(b).Some? then Digits(shorter) + [UrlValue(b).value] else Digits(shorter)
  {
  }

  lemma DecodedBits(input: seq<byte>)
    ensures Decode(input).Some? <==> Alphabetic(input)
    ensures Decode(input).Some? ==>
              var v := Digits(input);
              |Decode(input).value| == 6 * |v| / 8 && Number(Decode(input).value) == SextetNumber(v) / Power(6 * |v| % 8)
  {
    StreamIsFaithful(input);
  }

  // ----- round trip

  lemma DigitsSnoc(input: seq<byte>, v: sextet)
    ensures Digits(input + [UrlChar(v)]) == Digits(input) + [v]
    ensures Alphabetic(input) ==> Alphabetic(input + [UrlChar(v)])
  {
    UrlCharHasValue(v);
    assert (input + [UrlChar(v)])[..|input|] == input;
  }

  lemma PackedSplits(p: nat)
    requires p < 16777216
    ensures p / 4096 == 64 * SextetAt(p, 0) + SextetAt(p, 1)
    ensures p / 64 == 64 * (64 * SextetAt(p, 0) + SextetAt(p, 1)) + SextetAt(p, 2)
    ensures p == 64 * (64 * (64 * SextetAt(p, 0) + SextetAt(p, 1)) + SextetAt(p, 2)) + SextetAt(p, 3)
  {
    assert p / 4096 == p / 64 / 64 && p / 262144 == p / 4096 / 64;
  }

  lemma TwoDigits(input: seq<byte>, a: sextet, b: sextet)
    ensures Digits(input + [UrlChar(a), UrlChar(b)]) == Digits(input) + [a] + [b]
    ensures Alphabetic(input) ==> Alphabetic(input + [UrlChar(a), UrlChar(b)])
    ensures SextetNumber(Digits(input) + [a] + [b]) == 4096 * SextetNumber(Digits(input)) + 64 * a + b
  {
    DigitsSnoc(input, a);
    DigitsSnoc(input + [UrlChar(a)], b);
    assert input + [UrlChar(a), UrlChar(b)] == input + [UrlChar(a)] + [UrlChar(b)];
    SextetNumberSnoc(Digits(input), a);
    SextetNumberSnoc(Digits(input) + [a], b);
  }

  lemma QuantumChars(chunk: seq<byte>)
    requires 1 <= |chunk| <= 3
    ensures var p := Packed(chunk);
            && Packed(chunk) < 16777216
            && Quantum(chunk)[..2] == [UrlChar(SextetAt(p, 0)), UrlChar(SextetAt(p, 1))]
            && (|chunk| == 1 ==> Quantum(chunk)[2..] == [])
            && (|chunk| == 2 ==> Quantum(chunk)[2..] == [UrlChar(SextetAt(p, 2))])
            && (|chunk| == 3 ==> Quantum(chunk)[2..] == [UrlChar(SextetAt(p, 2)), UrlChar(SextetAt(p, 3))])
  {
  }

  /** The digits after appending a quantum. */
  lemma QuantumDigits(input: seq<byte>, chunk: seq<byte>)
    requires 1 <= |chunk| <= 3 && Alphabetic(input)
    ensures Alphabetic(input + Quantum(chunk))
    ensures var v, w := Digits(input), Digits(input + Quantum(chunk));
            var n, p := SextetNumber(v), Packed(chunk);
            && |w| == |v| + |chunk| + 1
            && (|chunk| == 1 ==> SextetNumber(w) == 4096 * n + p / 4096)
            && (|chunk| == 2 ==> SextetNumber(w) == 262144 * n + p / 64)
            && (|chunk| == 3 ==> SextetNumber(w) == 16777216 * n + p)
  {
    var p := Packed(chunk);
    QuantumChars(chunk);
    PackedSplits(p);
    var two := input + Quantum(chunk)[..2];
    assert input + Quantum(chunk) == two + Quantum(chunk)[2..];
    TwoDigits(input, SextetAt(p, 0), SextetAt(p, 1));
    if |chunk| == 1 {
      assert two + [] == two;
    } else if |chunk| == 2 {
      DigitsSnoc(two, SextetAt(p, 2));
      SextetNumberSnoc(Digits(two), SextetAt(p, 2));
    } else {
      TwoDigits(two, SextetAt(p, 2), SextetAt(p, 3));
    }
  }

  lemma ChunkNumberOne(s: seq<byte>, b: byte)
    ensures Number(s + [b]) == 256 * Number(s) + Packed([b]) / 65536
  {
    NumberSnoc(s, b);
    assert Packed([b]) == 65536 * b as nat;
  }

  lemma ChunkNumberTwo(s: seq<byte>, b: byte, c: byte)
    ensures Number(s + [b, c]) == 65536 * Number(s) + Packed([b, c]) / 256
  {
    NumberSnoc(s, b);
    NumberSnoc(s + [b], c);
    assert s + [b, c] == s + [b] + [c];
    assert Packed([b, c]) == 256 * (256 * b as nat + c as nat);
  }

  lemma ChunkNumberThree(s: seq<byte>, b: byte, c: byte, d: byte)
    ensures Number(s + [b, c, d]) == 16777216 * Number(s) + Packed([b, c, d])
  {
    NumberSnoc(s, b);
    NumberSnoc(s + [b], c);
    NumberSnoc(s + [b] + [c], d);
    assert s + [b, c, d] == s + [b] + [c] + [d];
  }

  /** `digits` digits spelling `spelled` carry `octets` octets spelling `number`. */
  ghost predicate Carries(octets: nat, number: nat, digits: nat, spelled: nat) {
    && 6 * digits / 8 == octets
    && number == spelled / Power(6 * digits % 8)
    && (octets % 3 == 0 ==> digits == octets / 3 * 4 && spelled == number)
  }

  /** Appending the last quantum of one, two or three octets, in numbers. */
  lemma CarriesOne(k: nat, number: nat, packed: nat)
    ensures Carries(3 * k + 1, 256 * number + packed / 65536, 4 * k + 2, 4096 * number + packed / 4096)
  {
    var q := packed / 4096;
    assert q / 16 == packed / 65536;
    assert (4096 * number + q) / 16 == 256 * number + q / 16;
    assert (3 * k + 1) % 3 == 1 && 6 * (4 * k + 2) % 8 == 4 && 6 * (4 * k + 2) / 8 == 3 * k + 1;
  }

  lemma CarriesTwo(k: nat, number: nat, packed: nat)
    ensures Carries(3 * k + 2, 65536 * number + packed / 256, 4 * k + 3, 262144 * number + packed / 64)
  {
    var q := packed / 64;
    assert q / 4 == packed / 256;
    assert (262144 * number + q) / 4 == 65536 * number + q / 4;
    assert (3 * k + 2) % 3 == 2 && 6 * (4 * k + 3) % 8 == 2 && 6 * (4 * k + 3) / 8 == 3 * k + 2;
  }

  lemma CarriesThree(k: nat, number: nat)
    ensures Carries(3 * k + 3, number, 4 * k + 4, number)
  {
    assert 6 * (4 * k + 4) % 8 == 0 && 6 * (4 * k + 4) / 8 == 3 * k + 3 && (3 * k + 3) / 3 == k + 1;
  }

  /** The digits of `text` spell `input`, shifted by the unused low bits. */
  ghost predicate Spells(text: seq<byte>, input: seq<byte>) {
    Alphabetic(text) && Carries(|input|, Number(input), |Digits(text)|, SextetNumber(Digits(text)))
  }

  lemma SpellsOne(text: seq<byte>, head: seq<byte>, chunk: seq<byte>, k: nat)
    requires Alphabetic(text) && |head| == 3 * k && |Digits(text)| == 4 * k && SextetNumber(Digits(text)) == Number(head)
    requires |chunk| == 1
    ensures Spells(text + Quantum(chunk), head + chunk)
  {
    QuantumDigits(text, chunk);
    assert chunk == [chunk[0]];
    ChunkNumberOne(head, chunk[0]);
    CarriesOne(k, Number(head), Packed(chunk));
  }

  lemma SpellsTwo(text: seq<byte>, head: seq<byte>, chunk: seq<byte>, k: nat)
    requires Alphabetic(text) && |head| == 3 * k && |Digits(text)| == 4 * k && SextetNumber(Digits(text)) == Number(head)
    requires |chunk| == 2
    ensures Spells(text + Quantum(chunk), head + chunk)
  {
    QuantumDigits(text, chunk);
    assert chunk == [chunk[0], chunk[1]];
    ChunkNumberTwo(head, chunk[0], chunk[1]);
    CarriesTwo(k, Number(head), Packed(chunk));
  }

  lemma SpellsThree(text: seq<byte>, head: seq<byte>, chunk: seq<byte>, k: nat)
    requires Alphabetic(text) && |head| == 3 * k && |Digits(text)| == 4 * k && SextetNumber(Digits(text)) == Number(head)
    requires |chunk| == 3
    ensures Spells(text + Quantum(chunk), head + chunk)
  {
    QuantumDigits(text, chunk);
    assert chunk == [chunk[0], chunk[1], chunk[2]];
    ChunkNumberThree(head, chunk[0], chunk[1], chunk[2]);
    CarriesThree(k, 16777216 * Number(head) + Packed(chunk));
  }

  lemma SpellsExtends(text: seq<byte>, head: seq<byte>, chunk: seq<byte>)
    ensures Spells(text, head) && |head| % 3 == 0 && 1 <= |chunk| <= 3 ==> Spells(text + Quantum(chunk), head + chunk)
  {
    if Spells(text, head) && |head| % 3 == 0 && 1 <= |chunk| <= 3 {
      var k := |head| / 3;
      assert |head| == 3 * k && |Digits(text)| == 4 * k;
      match |chunk|
      case 1 => SpellsOne(text, head, chunk, k);
      case 2 => SpellsTwo(text, head, chunk, k);
      case _ => SpellsThree(text, head, chunk, k);
    }
  }

  lemma ChunksOf(input: seq<byte>)
    requires input != []
    ensures var t := LastChunk(|input|);
            t % 3 == 0 && t < |input| <= t + 3 && Encode(input) == Encode(input[..t]) + Quantum(input[t..])
  {
  }

  /** What the encoder writes spells its input. */
  lemma {:induction false} EncodedSpells(input: seq<byte>)
    ensures Spells(Encode(input), input)
    decreases |input|
  {
    if input != [] {
      ChunksOf(input);
      var t := LastChunk(|input|);
      var head, chunk := input[..t], input[t..];
      EncodedSpells(head);
      SpellsExtends(Encode(head), head, chunk);
      assert input == head + chunk;
    }
  }

  /** Decoding inverts encoding on every octet string. */
  lemma RoundTrip(input: seq<byte>)
    ensures Decode(Encode(input)) == Some(input)
  {
    EncodedSpells(input);
    DecodedBits(Encode(input));
    NumberIsInjective(Decode(Encode(input)).value, input);
  }

  /** The text is unpadded: nothing but digits, two to four for each started chunk. */
  lemma {:induction false} EncodedIsUnpadded(input: seq<byte>)
    ensures PAD !in Encode(input)
    ensures |Encode(input)| == |input| / 3 * 4 + (if |input| % 3 == 0 then 0 else |input| % 3 + 1)
    decreases |input|
  {
    if input != [] {
      ChunksOf(input);
      var t := LastChunk(|input|);
      EncodedIsUnpadded(input[..t]);
      var chunk := input[t..];
      forall i | 0 <= i < |Quantum(chunk)|
        ensures Quantum(chunk)[i] != PAD
      {
        UrlCharHasValue(SextetAt(Packed(chunk), i));
      }
      assert |Quantum(chunk)| == OutChars(|chunk|);
    }
  }
}
