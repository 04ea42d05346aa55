/** What the padded text decoder accepts and what it makes of it.  It takes padding
    inside a text as well as at its end; only canonical texts are encoder output. */
module Base64Canonical {
  import opened Basics
  import opened Base64Text

  // ----- the accepted texts and their value

  /** Padding may stand in the last two places of any quantum. */
  predicate AcceptedAt(b: byte, i: nat) {
    StandardValue(b).Some? || (b == PAD && i % 4 >= 2)
  }

  predicate Accepted(s: seq<byte>) {
    |s| % 4 == 0 && forall i :: 0 <= i < |s| ==> AcceptedAt(s[i], i)
  }

  /** A character's digit; padding counts as zero. */
  function Digit(b: byte): sextet {
    match StandardValue(b) case Some(v) => v case None => 0
  }

  /** The 24-bit number four characters spell. */
  function Word(q: seq<byte>): nat
    requires |q| == 4
  {
    262144 * Digit(q[0]) + 4096 * Digit(q[1]) + 64 * Digit(q[2]) + Digit(q[3])
  }

  function TopByte(w: nat): byte {
    (w / 65536 % 256) as byte
  }

  function MiddleByte(w: nat): byte {
    (w / 256 % 256) as byte
  }

  function BottomByte(w: nat): byte {
    (w % 256) as byte
  }

  /** Three octets, without those whose character is padding. */
  function Unpadded(q: seq<byte>, o0: byte, o1: byte, o2: byte): seq<byte>
    requires |q| == 4
  {
    [o0] + (if q[2] != PAD then [o1] else []) + (if q[3] != PAD then [o2] else [])
  }

  function Octets(q: seq<byte>): seq<byte>
    requires |q| == 4
  {
    Unpadded(q, TopByte(Word(q)), MiddleByte(Word(q)), BottomByte(Word(q)))
  }

  function Value(s: seq<byte>): seq<byte>
    requires |s| % 4 == 0
  {
    if s == [] then [] else Octets(s[..4]) + Value(s[4..])
  }

  lemma TopOctet(v0: sextet, v1: sextet, low: nat)
    requires low < 4096
    ensures (262144 * v0 + 4096 * v1 + low) / 65536 % 256 == v0 * 4 % 256 + v1 / 16
  {
    var high, rest := 4 * v0 + v1 / 16, 4096 * (v1 % 16) + low;
    assert 262144 * v0 + 4096 * v1 + low == 65536 * high + rest;
    assert rest < 65536 && high < 256;
  }

  lemma MiddleOctet(v0: sextet, v1: sextet, v2: sextet, v3: sextet)
    ensures (262144 * v0 + 4096 * v1 + 64 * v2 + v3) / 256 % 256 == v1 * 16 % 256 + v2 / 4
  {
    var a, b, c, d := v1 / 16, v1 % 16, v2 / 4, v2 % 4;
    var w := 262144 * v0 + 4096 * v1 + 64 * v2 + v3;
    assert w == 256 * (1024 * v0 + 16 * v1 + c) + (64 * d + v3);
    assert w / 256 == 256 * (4 * v0 + a) + (16 * b + c);
    Mod256(4 * v0 + a, 16 * b + c);
    assert v1 * 16 == 256 * a + 16 * b;
    Mod256(a, 16 * b);
  }

  lemma BottomOctet(v0: sextet, v1: sextet, v2: sextet, v3: sextet)
    ensures (262144 * v0 + 4096 * v1 + 64 * v2 + v3) % 256 == v2 * 64 % 256 + v3
  {
    var a, b := v2 / 4, v2 % 4;
    assert 262144 * v0 + 4096 * v1 + 64 * v2 + v3 == 256 * (1024 * v0 + 16 * v1 + a) + (64 * b + v3);
    Mod256(1024 * v0 + 16 * v1 + a, 64 * b + v3);
    assert v2 * 64 == 256 * a + 64 * b;
    Mod256(a, 64 * b);
  }

  lemma QuantumAccepted(q: seq<byte>)
    requires |q| == 4
    ensures Accepted(q) <==> QuantumOctets(q).Some?
    ensures Accepted(q) <==> StandardValue(q[0]).Some? && StandardValue(q[1]).Some? && ValueOrPad(q[2]).Some? && ValueOrPad(q[3]).Some?
  {
    assert Accepted(q) <==> AcceptedAt(q[0], 0) && AcceptedAt(q[1], 1) && AcceptedAt(q[2], 2) && AcceptedAt(q[3], 3);
  }

  /** The decoder's shifts pick the octets of the word. */
  lemma ShiftsPickOctets(v0: sextet, v1: sextet, v2: sextet, v3: sextet, w: nat)
    requires w == 262144 * v0 + 4096 * v1 + 64 * v2 + v3
    ensures TopByte(w) == FirstOctet(v0, v1)
    ensures MiddleByte(w) == SecondOctet(v1, v2)
    ensures BottomByte(w) == ThirdOctet(v2, v3)
  {
    TopOctet(v0, v1, 64 * v2 + v3);
    MiddleOctet(v0, v1, v2, v3);
    BottomOctet(v0, v1, v2, v3);
  }

  lemma QuantumDecodes(q: seq<byte>)
    requires |q| == 4 && Accepted(q)
    ensures QuantumOctets(q)
            == Some(Unpadded(q, FirstOctet(Digit(q[0]), Digit(q[1])), SecondOctet(Digit(q[1]), Digit(q[2])),
                             ThirdOctet(Digit(q[2]), Digit(q[3]))))
  {
    QuantumAccepted(q);
  }

  lemma QuantumValue(q: seq<byte>)
    requires |q| == 4
    ensures QuantumOctets(q) == if Accepted(q) then Some(Octets(q)) else None
  {
    QuantumAccepted(q);
    if Accepted(q) {
      QuantumDecodes(q);
      ShiftsPickOctets(Digit(q[0]), Digit(q[1]), Digit(q[2]), Digit(q[3]), Word(q));
    }
  }

  lemma AcceptedSplits(s: seq<byte>)
    requires |s| % 4 == 0 && s != []
    ensures Accepted(s) <==> Accepted(s[..4]) && Accepted(s[4..])
  {
    var head, tail := s[..4], s[4..];
    if Accepted(s) {
      forall i | 0 <= i < |tail|
        ensures AcceptedAt(tail[i], i)
      {
        assert AcceptedAt(s[i + 4], i + 4);
      }
    }
    if Accepted(head) && Accepted(tail) {
      forall i | 0 <= i < |s|
        ensures AcceptedAt(s[i], i)
      {
        if i < 4 {
          assert AcceptedAt(head[i], i);
        } else {
          assert AcceptedAt(tail[i - 4], i - 4);
        }
      }
    }
  }

  lemma {:induction false} QuantaValue(s: seq<byte>)
    requires |s| % 4 == 0
    ensures DecodeBy(QuantumOctets, s) == if Accepted(s) then Some(Value(s)) else None
    decreases |s|
  {
    if s != [] {
      AcceptedSplits(s);
      QuantumValue(s[..4]);
      QuantaValue(s[4..]);
    }
  }

  /** The decoder on every text: it accepts exactly whole quanta over the alphabet
      with padding only in their last two places, and yields quantum by quantum the
      octets of the 24-bit number spelled, those under padding left out. */
  lemma DecodedText(s: seq<byte>)
    ensures Decode(s) == if Accepted(s) then Some(Value(s)) else None
  {
    if |s| % 4 == 0 {
      QuantaValue(s);
    }
  }

  // ----- when encoding gives the text back

  /** Padding only behind everything else, and no stray bits under it. */
  predicate CanonicalQuantum(q: seq<byte>)
    requires |q| == 4
  {
    && (q[2] == PAD ==> q[3] == PAD && Digit(q[1]) % 16 == 0)
    && (q[3] == PAD ==> Digit(q[2]) % 4 == 0)
  }

  predicate Canonical(s: seq<byte>) {
    && Accepted(s)
    && (forall i :: 0 <= i < |s| - 4 ==> s[i] != PAD)
    && (s != [] ==> CanonicalQuantum(s[|s| - 4..]))
  }

  lemma CanonicalSplits(s: seq<byte>)
    requires |s| % 4 == 0 && |s| > 4
    ensures Canonical(s) <==> Accepted(s[..4]) && PAD !in s[..4] && Canonical(s[4..])
  {
    AcceptedSplits(s);
    var head, tail := s[..4], s[4..];
    assert tail[|tail| - 4..] == s[|s| - 4..];
    if Accepted(head) && PAD !in head && Canonical(tail) {
      forall i | 0 <= i < |s| - 4
        ensures s[i] != PAD
      {
        if i < 4 {
          assert s[i] == head[i] && head[i] in head;
        } else {
          assert s[i] == tail[i - 4];
        }
      }
    }
    if Canonical(s) {
      assert forall i :: 0 <= i < 4 ==> head[i] == s[i];
      assert forall i :: 0 <= i < |tail| - 4 ==> tail[i] == s[i + 4];
    }
  }

  lemma CharOfDigit(b: byte)
    requires StandardValue(b).Some?
    ensures StandardChar(Digit(b)) == b
  {
  }

  /** The digits of a number below 2^24. */
  lemma DigitsOfWord(v0: sextet, v1: sextet, v2: sextet, v3: sextet)
    ensures var w := 262144 * v0 + 4096 * v1 + 64 * v2 + v3;
            && Base64Url.SextetAt(w, 0) == v0 && Base64Url.SextetAt(w, 1) == v1
            && Base64Url.SextetAt(w, 2) == v2 && Base64Url.SextetAt(w, 3) == v3
  {
    var w := 262144 * v0 + 4096 * v1 + 64 * v2 + v3;
    assert w == 64 * (4096 * v0 + 64 * v1 + v2) + v3;
    Mod64(4096 * v0 + 64 * v1 + v2, v3);
    assert w / 64 == 64 * (64 * v0 + v1) + v2;
    Mod64(64 * v0 + v1, v2);
    assert w / 4096 == 64 * v0 + v1;
    Mod64(v0, v1);
    assert w / 262144 == v0;
  }

  /** The last octets of a word are zero when nothing is left under the padding. */
  lemma NothingUnderPadding(v0: sextet, v1: sextet, v2: sextet, v3: sextet)
    requires v3 == 0 && v2 % 4 == 0
    ensures var w := 262144 * v0 + 4096 * v1 + 64 * v2 + v3;
            w % 256 == 0 && (v2 == 0 && v1 % 16 == 0 ==> w / 256 % 256 == 0)
  {
    var w, c := 262144 * v0 + 4096 * v1 + 64 * v2 + v3, v2 / 4;
    assert v2 == 4 * c;
    assert w == 256 * (1024 * v0 + 16 * v1 + c) + 0;
    Mod256(1024 * v0 + 16 * v1 + c, 0);
    if v2 == 0 && v1 % 16 == 0 {
      var a := v1 / 16;
      assert v1 == 16 * a;
      assert w / 256 == 256 * (4 * v0 + a) + 0;
      Mod256(4 * v0 + a, 0);
    }
  }

  lemma PackedIsWord(q: seq<byte>)
    requires |q| == 4 && Accepted(q) && CanonicalQuantum(q)
    ensures Base64Url.Packed(Octets(q)) == Word(q)
    ensures |Octets(q)| == if q[2] == PAD then 1 else if q[3] == PAD then 2 else 3
  {
    WordIsOctets(Digit(q[0]), Digit(q[1]), Digit(q[2]), Digit(q[3]));
    if q[3] == PAD {
      NothingUnderPadding(Digit(q[0]), Digit(q[1]), Digit(q[2]), Digit(q[3]));
    }
  }

  lemma WordIsOctets(v0: sextet, v1: sextet, v2: sextet, v3: sextet)
    ensures var w := 262144 * v0 + 4096 * v1 + 64 * v2 + v3;
            w == 65536 * (w / 65536 % 256) + 256 * (w / 256 % 256) + w % 256
  {
    var w := 262144 * v0 + 4096 * v1 + 64 * v2 + v3;
    assert w < 16777216;
    assert w / 65536 == w / 256 / 256;
  }

  lemma CanonicalQuantumReencodes(q: seq<byte>)
    requires |q| == 4 && Accepted(q) && CanonicalQuantum(q)
    ensures 1 <= |Octets(q)| <= 3 && Quantum(Octets(q)) == q
  {
    PackedIsWord(q);
    assert q == [q[0], q[1], q[2], q[3]];
    DigitsOfWord(Digit(q[0]), Digit(q[1]), Digit(q[2]), Digit(q[3]));
    assert AcceptedAt(q[0], 0) && AcceptedAt(q[1], 1) && AcceptedAt(q[2], 2) && AcceptedAt(q[3], 3);
    CharOfDigit(q[0]);
    CharOfDigit(q[1]);
    if q[2] != PAD {
      CharOfDigit(q[2]);
    }
    if q[3] != PAD {
      CharOfDigit(q[3]);
    }
  }

  lemma EncodeStepBack(head: seq<byte>, rest: seq<byte>)
    requires |head| == 3 || (|head| > 0 && |head| <= 3 && rest == [])
    ensures Encode(head + rest) == Quantum(head) + Encode(rest)
  {
    var input := head + rest;
    if rest == [] {
      assert input == head;
      EncodeShort(Quantum, head);
      assert Quantum(head) + [] == Quantum(head);
    } else {
      assert input[..3] == head && input[3..] == rest;
      assert First(input) == head && Rest(input) == rest;
    }
  }

  lemma FullQuantumIsCanonical(q: seq<byte>)
    requires |q| == 4 && PAD !in q
    ensures CanonicalQuantum(q) && q[2] != PAD && q[3] != PAD
  {
    assert q[2] in q && q[3] in q;
  }

  lemma CanonicalExtends(q: seq<byte>, s: seq<byte>)
    requires |q| == 4 && Accepted(q) && CanonicalQuantum(q) && Canonical(s)
    requires s == [] || PAD !in q
    ensures Canonical(q + s)
  {
    if s == [] {
      assert q + s == q && q[|q| - 4..] == q;
    } else {
      SplitAtFour(q, s);
      CanonicalSplits(q + s);
    }
  }

  lemma {:induction false} CanonicalReencodes(s: seq<byte>)
    requires Canonical(s)
    ensures Encode(Value(s)) == s
    decreases |s|
  {
    if |s| == 4 {
      assert s[|s| - 4..] == s && s[..4] == s;
      CanonicalQuantumReencodes(s);
      EncodeStepBack(Octets(s), []);
      assert Octets(s) + [] == Octets(s);
    } else if |s| > 4 {
      var q, tail := s[..4], s[4..];
      CanonicalSplits(s);
      FullQuantumIsCanonical(q);
      CanonicalQuantumReencodes(q);
      CanonicalReencodes(tail);
      EncodeStepBack(Octets(q), Value(tail));
      assert s == q + tail;
    }
  }

  /** The encoder pads only its last quantum and leaves no bits under the padding. */
  lemma QuantumIsCanonical(chunk: seq<byte>)
    requires 1 <= |chunk| <= 3
    ensures |Quantum(chunk)| == 4 && Accepted(Quantum(chunk)) && CanonicalQuantum(Quantum(chunk))
    ensures |chunk| == 3 ==> PAD !in Quantum(chunk)
  {
    var p := Base64Url.Packed(chunk);
    var s0, s1 := Base64Url.SextetAt(p, 0), Base64Url.SextetAt(p, 1);
    var s2, s3 := Base64Url.SextetAt(p, 2), Base64Url.SextetAt(p, 3);
    StandardCharHasValue(s0);
    StandardCharHasValue(s1);
    StandardCharHasValue(s2);
    StandardCharHasValue(s3);
    var q := Quantum(chunk);
    assert q == Characters(|chunk|, s0, s1, s2, s3);
    if |chunk| < 3 {
      UnusedBits(Base64Url.Octet(chunk, 0), Base64Url.Octet(chunk, 1), |chunk|);
    }
  }

  lemma UnusedBits(a: nat, b: nat, n: nat)
    requires a < 256 && b < 256 && 1 <= n <= 2 && (n == 1 ==> b == 0)
    ensures var p := 65536 * a + 256 * b;
            Base64Url.SextetAt(p, 2) % 4 == 0 && (n == 1 ==> Base64Url.SextetAt(p, 1) % 16 == 0)
  {
    var p := 65536 * a + 256 * b;
    LowSextets(a, b, 0);
    TopSextets(a, 256 * b);
    assert p / 64 % 64 == 4 * (b % 16);
  }

  lemma {:induction false} EncodedIsCanonical(input: seq<byte>)
    ensures Canonical(Encode(input))
    decreases |input|
  {
    if input != [] {
      var chunk, rest := First(input), Rest(input);
      assert input == chunk + rest;
      EncodeStepBack(chunk, rest);
      QuantumIsCanonical(chunk);
      EncodedIsCanonical(rest);
      CanonicalExtends(Quantum(chunk), Encode(rest));
    }
  }

  /** Encoding gives an accepted text back exactly when it is canonical. */
  lemma CanonicalExactly(s: seq<byte>)
    requires Accepted(s)
    ensures Decode(s) == Some(Value(s))
    ensures Encode(Value(s)) == s <==> Canonical(s)
  {
    DecodedText(s);
    if Canonical(s) {
      CanonicalReencodes(s);
    }
    EncodedIsCanonical(Value(s));
  }
}
