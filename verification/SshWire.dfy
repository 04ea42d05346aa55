/** OpenSSH public-key lines: the wire `string` and `mpint` of section 5 of RFC 4251,
    the `ssh-rsa` blob, and files of several keys. */
module SshWire {
  import opened Basics
  import Base64Url
  import Base64Text

  const U32: nat := 0x1_0000_0000
  const LF: byte := 10

  function Number(s: seq<byte>): nat {
    Base64Url.Number(s)
  }

  // ----- string

  function BigEndian32(n: nat): seq<byte>
    requires n < U32
  {
    [(n / 16777216) as byte, (n / 65536 % 256) as byte, (n / 256 % 256) as byte, (n % 256) as byte]
  }

  /** The length is four octets, most significant first. */
  lemma LengthIsBigEndian(n: nat, b: seq<byte>)
    requires n < U32 && |b| >= 4
    ensures |BigEndian32(n)| == 4 && Number(BigEndian32(n)) == n
    ensures ReadLength(b) == Number(b[..4])
  {
    NumberOfFour(BigEndian32(n));
    NumberOfFour(b[..4]);
    BigEndianReads(n);
  }

  lemma NumberOfTwo(a: byte, b: byte)
    ensures Number([a, b]) == 256 * a as nat + b as nat
  {
    Base64Url.NumberSnoc([], a);
    Base64Url.NumberSnoc([a], b);
    assert [] + [a] == [a] && [a] + [b] == [a, b];
  }

  lemma NumberOfThree(a: byte, b: byte, c: byte)
    ensures Number([a, b, c]) == 65536 * a as nat + 256 * b as nat + c as nat
  {
    NumberOfTwo(a, b);
    Base64Url.NumberSnoc([a, b], c);
    assert [a, b] + [c] == [a, b, c];
  }

  lemma NumberOfFour(s: seq<byte>)
    requires |s| == 4
    ensures Number(s) == 16777216 * s[0] as nat + 65536 * s[1] as nat + 256 * s[2] as nat + s[3] as nat
  {
    var head := [s[0], s[1], s[2]];
    NumberOfThree(s[0], s[1], s[2]);
    Base64Url.NumberSnoc(head, s[3]);
    assert head + [s[3]] == s;
  }

  function WireString(s: seq<byte>): seq<byte>
    requires |s| < U32
  {
    BigEndian32(|s|) + s
  }

  method WriteString(out: seq<byte>, s: seq<byte>) returns (r: seq<byte>)
    requires |s| < U32
    ensures r == out + WireString(s)
  {
    r := out + BigEndian32(|s|);
    r := r + s;
  }

  function ReadLength(b: seq<byte>): nat
    requires |b| >= 4
  {
    16777216 * b[0] as nat + 65536 * b[1] as nat + 256 * b[2] as nat + b[3] as nat
  }

  /** The first wire string of a blob and what follows it. */
  function ReadString(b: seq<byte>): Option<(seq<byte>, seq<byte>)> {
    if |b| < 4 || |b| - 4 < ReadLength(b) then None
    else Some((b[4..4 + ReadLength(b)], b[4 + ReadLength(b)..]))
  }

  lemma BigEndianReads(n: nat)
    requires n < U32
    ensures ReadLength(BigEndian32(n)) == n
  {
    assert n / 65536 == 256 * (n / 16777216) + n / 65536 % 256;
    assert n / 256 == 256 * (n / 65536) + n / 256 % 256;
  }

  lemma StringReadsBack(s: seq<byte>, rest: seq<byte>)
    requires |s| < U32
    ensures ReadString(WireString(s) + rest) == Some((s, rest))
  {
    BigEndianReads(|s|);
    var b := WireString(s) + rest;
    assert b[..4] == BigEndian32(|s|) && b[4..4 + |s|] == s && b[4 + |s|..] == rest;
    assert b[0] == BigEndian32(|s|)[0] && b[1] == BigEndian32(|s|)[1] && b[2] == BigEndian32(|s|)[2] && b[3] == BigEndian32(|s|)[3];
  }

  // ----- mpint

  /** Leading zero octets removed, but never the last octet. */
  function Trim(value: seq<byte>): seq<byte> {
    if |value| > 1 && value[0] == 0 then Trim(value[1..]) else value
  }

  predicate NeedsPad(trimmed: seq<byte>) {
    trimmed != [] && trimmed[0] >= 128
  }

  /** The two's-complement octets of the integer. */
  function Content(value: seq<byte>): seq<byte> {
    if NeedsPad(Trim(value)) then [0] + Trim(value) else Trim(value)
  }

  lemma {:induction false} TrimShortens(value: seq<byte>)
    ensures |Trim(value)| <= |value| && (value == [] <==> Trim(value) == [])
    ensures Number(Trim(value)) == Number(value)
    ensures |Trim(value)| > 1 ==> Trim(value)[0] != 0
  {
    if |value| > 1 && value[0] == 0 {
      TrimShortens(value[1..]);
      LeadingZero(value[1..]);
      assert value == [0] + value[1..];
    }
  }

  lemma {:induction false} LeadingZero(s: seq<byte>)
    ensures Number([0] + s) == Number(s)
    decreases |s|
  {
    var t := [0] + s;
    if s == [] {
      assert t[..0] == [];
    } else {
      assert t[..|t| - 1] == [0] + s[..|s| - 1];
      LeadingZero(s[..|s| - 1]);
    }
  }

  function Mpint(value: seq<byte>): seq<byte>
    requires |value| + 1 < U32
  {
    TrimShortens(value);
    WireString(Content(value))
  }

  method WriteMpint(out: seq<byte>, value: seq<byte>) returns (r: seq<byte>)
    requires |value| + 1 < U32
    ensures r == out + Mpint(value)
  {
    TrimShortens(value);
    var trimmed := value;
    while |trimmed| > 1 && trimmed[0] == 0
      invariant Trim(trimmed) == Trim(value)
      decreases |trimmed|
    {
      trimmed := trimmed[1..];
    }
    var needsPad := NeedsPad(trimmed);
    var len := if needsPad then |trimmed| + 1 else |trimmed|;
    r := out + BigEndian32(len);
    if needsPad {
      r := r + [0];
    }
    r := r + trimmed;
    assert r == out + WireString(Content(value));
  }

  function Power256(n: nat): nat {
    if n == 0 then 1 else 256 * Power256(n - 1)
  }

  /** Two's-complement value of an octet string. */
  function Signed(s: seq<byte>): int {
    if s != [] && s[0] >= 128 then Number(s) - Power256(|s|) else Number(s)
  }

  /** No octet could be dropped without changing the value. */
  predicate Minimal(s: seq<byte>) {
    && s != [0]
    && (|s| > 1 ==> !(s[0] == 0 && s[1] < 128) && !(s[0] == 255 && s[1] >= 128))
  }

  lemma {:induction false} NumberBounds(s: seq<byte>)
    ensures Number(s) < Power256(|s|)
    ensures s != [] && s[0] > 0 ==> Number(s) >= Power256(|s| - 1)
    decreases |s|
  {
    if s != [] {
      var shorter := s[..|s| - 1];
      NumberBounds(shorter);
      if |s| == 1 {
        assert shorter == [];
      }
    }
  }

  /** The encoded content spells the value as a non-negative two's-complement
      integer, and is minimal exactly when the value is not a written-out zero. */
  lemma MpintIsCanonical(value: seq<byte>)
    ensures Signed(Content(value)) == Number(value) as int
    ensures Minimal(Content(value)) <==> value == [] || Number(value) > 0
  {
    TrimShortens(value);
    var t := Trim(value);
    LeadingZero(t);
    if t != [] {
      NumberBounds(t);
      if |t| == 1 {
        assert t == [t[0]] && t[..0] == [];
        assert Number(t) == t[0] as nat;
      }
    }
  }

  lemma Power256Grows(m: nat, n: nat)
    requires m <= n
    ensures Power256(m) <= Power256(n)
    decreases n
  {
    if m < n {
      Power256Grows(m, n - 1);
    }
  }

  /** Equal values have equal contents: leading zeros do not matter. */
  lemma ContentIsFunctionOfValue(a: seq<byte>, b: seq<byte>)
    requires Number(a) == Number(b) > 0
    ensures Content(a) == Content(b)
  {
    TrimShortens(a);
    TrimShortens(b);
    var s, t := Trim(a), Trim(b);
    NonZeroFirst(s);
    NonZeroFirst(t);
    NumberBounds(s);
    NumberBounds(t);
    if |s| < |t| {
      Power256Grows(|s|, |t| - 1);
      assert false;
    }
    if |t| < |s| {
      Power256Grows(|t|, |s| - 1);
      assert false;
    }
    Base64Url.NumberIsInjective(s, t);
  }

  lemma NonZeroFirst(t: seq<byte>)
    requires Number(t) > 0 && (|t| > 1 ==> t[0] != 0)
    ensures t != [] && t[0] > 0
  {
    if |t| == 1 {
      assert t[..|t| - 1] == [] && Base64Url.Number([]) == 0;
      assert Base64Url.Number(t) == 256 * Base64Url.Number(t[..|t| - 1]) + t[|t| - 1] as nat;
    }
  }

  // ----- the ssh-rsa blob

  const SSH_RSA: seq<byte> := [115, 115, 104, 45, 114, 115, 97]

  function RsaBlob(exponent: seq<byte>, modulus: seq<byte>): seq<byte>
    requires |exponent| + 1 < U32 && |modulus| + 1 < U32
  {
    WireString(SSH_RSA) + Mpint(exponent) + Mpint(modulus)
  }

  datatype RsaKey = RsaKey(name: seq<byte>, exponent: int, modulus: int)

  lemma NameIsSshRsa()
    ensures Base64Text.Spelled(SSH_RSA, "ssh-rsa")
  {
  }

  /** A blob holding exactly three wire strings: a name and two integers. */
  function ParseRsa(blob: seq<byte>): Option<RsaKey> {
    match ReadString(blob)
    case None => None
    case Some((name, afterName)) =>
      match ReadString(afterName)
      case None => None
      case Some((e, afterExponent)) =>
        match ReadString(afterExponent)
        case None => None
        case Some((n, rest)) => if rest == [] then Some(RsaKey(name, Signed(e), Signed(n))) else None
  }

  /** The blob parses back to exactly the key's exponent and modulus. */
  lemma RsaBlobParses(exponent: seq<byte>, modulus: seq<byte>)
    requires |exponent| + 1 < U32 && |modulus| + 1 < U32
    ensures ParseRsa(RsaBlob(exponent, modulus)) == Some(RsaKey(SSH_RSA, Number(exponent), Number(modulus)))
  {
    TrimShortens(exponent);
    TrimShortens(modulus);
    var e, n := Content(exponent), Content(modulus);
    var tail := WireString(n) + [];
    assert RsaBlob(exponent, modulus) == WireString(SSH_RSA) + (WireString(e) + tail);
    StringReadsBack(SSH_RSA, WireString(e) + tail);
    StringReadsBack(e, tail);
    StringReadsBack(n, []);
    MpintIsCanonical(exponent);
    MpintIsCanonical(modulus);
  }

  /** Two keys have the same blob exactly when they have the same numbers. */
  lemma RsaBlobIsCanonical(e1: seq<byte>, n1: seq<byte>, e2: seq<byte>, n2: seq<byte>)
    requires |e1| + 1 < U32 && |n1| + 1 < U32 && |e2| + 1 < U32 && |n2| + 1 < U32
    requires Number(e1) > 0 && Number(n1) > 0
    ensures RsaBlob(e1, n1) == RsaBlob(e2, n2) <==> Number(e1) == Number(e2) && Number(n1) == Number(n2)
  {
    RsaBlobParses(e1, n1);
    RsaBlobParses(e2, n2);
    if Number(e1) == Number(e2) && Number(n1) == Number(n2) {
      ContentIsFunctionOfValue(e1, e2);
      ContentIsFunctionOfValue(n1, n2);
    }
  }

  // ----- key lines and files

  const MAX_COMMENT: nat := 1024

  datatype CommentError = TooLong(length: nat) | EmbeddedNewline

  /** A comment accepted at the boundary: short, without line breaks. */
  predicate CommentOk(comment: seq<byte>) {
    |comment| <= MAX_COMMENT && forall i :: 0 <= i < |comment| ==> comment[i] != 10 && comment[i] != 13
  }

  /** The boundary itself. */
  method ParseComment(text: seq<byte>) returns (r: Result<seq<byte>, CommentError>)
    ensures r.Ok? <==> |text| <= 1024 && LF !in text && 13 !in text
    ensures r.Ok? ==> r.value == text && CommentOk(text)
    ensures r.Err? ==> r.error == if |text| > 1024 then TooLong(|text|) else EmbeddedNewline
  {
    if |text| > MAX_COMMENT {
      return Err(TooLong(|text|));
    }
    for i := 0 to |text|
      invariant forall j :: 0 <= j < i ==> text[j] != 10 && text[j] != 13
    {
      if text[i] == 10 || text[i] == 13 {
        return Err(EmbeddedNewline);
      }
    }
    r := Ok(text);
  }

  function KeyLine(keyType: seq<byte>, blob: seq<byte>, comment: seq<byte>): seq<byte> {
    keyType + [32] + Base64Text.Encode(blob) + if comment == [] then [] else [32] + comment
  }

  method EncodeSshRsa(exponent: seq<byte>, modulus: seq<byte>, comment: seq<byte>) returns (line: seq<byte>)
    requires |exponent| + 1 < U32 && |modulus| + 1 < U32
    ensures line == KeyLine(SSH_RSA, RsaBlob(exponent, modulus), comment) + [LF]
  {
    var blob := WriteString([], SSH_RSA);
    blob := WriteMpint(blob, exponent);
    blob := WriteMpint(blob, modulus);
    assert blob == RsaBlob(exponent, modulus);
    var b64 := Base64Text.EncodeTriples(blob);
    if comment == [] {
      line := SSH_RSA + [32] + b64 + [LF];
    } else {
      line := SSH_RSA + [32] + b64 + [32] + comment + [LF];
    }
    assert line == KeyLine(SSH_RSA, RsaBlob(exponent, modulus), comment) + [LF];
  }

  lemma KeyLineIsOneLine(keyType: seq<byte>, blob: seq<byte>, comment: seq<byte>)
    requires LF !in keyType && CommentOk(comment)
    ensures LF !in KeyLine(keyType, blob, comment)
  {
    Base64Text.EncodeHasNoBreaks(blob);
    assert LF !in comment;
  }

  function Concatenated(lines: seq<seq<byte>>): seq<byte> {
    if lines == [] then [] else lines[0] + [LF] + Concatenated(lines[1..])
  }

  method ConcatenateReports(lines: seq<seq<byte>>) returns (file: seq<byte>)
    ensures file == Concatenated(lines)
  {
    file := [];
    for i := 0 to |lines|
      invariant Concatenated(lines) == file + Concatenated(lines[i..])
    {
      assert lines[i..][1..] == lines[i + 1..];
      file := file + (lines[i] + [LF]);
    }
  }

  /** A file of k key blocks has exactly k lines, the blocks in order. */
  lemma {:induction false} FileSplitsIntoItsKeys(lines: seq<seq<byte>>)
    requires forall i :: 0 <= i < |lines| ==> LF !in lines[i]
    ensures Base64Text.Lines(Concatenated(lines)) == lines
    decreases |lines|
  {
    if lines != [] {
      FileSplitsIntoItsKeys(lines[1..]);
      Base64Text.FirstLine(lines[0], Concatenated(lines[1..]));
    }
  }
}
