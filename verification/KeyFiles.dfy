/** Files of OpenSSH key lines, written by the exporter and read back whole. */
module KeyFiles {
  import opened Basics
  import opened SshWire

  const SPACE: byte := 32

  /** What one exported line is made from. */
  datatype KeyFields = KeyFields(exponent: seq<byte>, modulus: seq<byte>, comment: seq<byte>)

  /** Sizes the wire format can express, and a comment accepted at the boundary. */
  predicate Exportable(k: KeyFields) {
    |k.exponent| + 1 < U32 && |k.modulus| + 1 < U32 && CommentOk(k.comment)
  }

  type Key = k: KeyFields | Exportable(k) witness KeyFields([], [], [])

  function LineOf(k: Key): seq<byte> {
    KeyLine(SSH_RSA, RsaBlob(k.exponent, k.modulus), k.comment)
  }

  function LinesOf(keys: seq<Key>): (r: seq<seq<byte>>)
    ensures |r| == |keys|
  {
    if keys == [] then [] else LinesOf(keys[..|keys| - 1]) + [LineOf(keys[|keys| - 1])]
  }

  lemma {:induction false} LinesOfAt(keys: seq<Key>, i: nat)
    requires i < |keys|
    ensures LinesOf(keys)[i] == LineOf(keys[i])
    decreases |keys|
  {
    if i < |keys| - 1 {
      LinesOfAt(keys[..|keys| - 1], i);
    }
  }

  lemma {:induction false} ConcatenatedSnoc(lines: seq<seq<byte>>, line: seq<byte>)
    ensures Concatenated(lines + [line]) == Concatenated(lines) + (line + [LF])
  {
    var longer := lines + [line];
    if lines == [] {
      assert longer[1..] == [];
      assert Concatenated(longer) == line + [LF] + [];
    } else {
      assert longer[1..] == lines[1..] + [line];
      ConcatenatedSnoc(lines[1..], line);
    }
  }

  lemma ExportStep(keys: seq<Key>, i: nat)
    requires i < |keys|
    ensures Concatenated(LinesOf(keys[..i + 1])) == Concatenated(LinesOf(keys[..i])) + (LineOf(keys[i]) + [LF])
  {
    assert keys[..i + 1][..i] == keys[..i];
    ConcatenatedSnoc(LinesOf(keys[..i]), LineOf(keys[i]));
  }

  method ExportKeys(keys: seq<Key>) returns (file: seq<byte>)
    ensures file == Concatenated(LinesOf(keys))
  {
    file := [];
    for i := 0 to |keys|
      invariant file == Concatenated(LinesOf(keys[..i]))
    {
      var block := EncodeSshRsa(keys[i].exponent, keys[i].modulus, keys[i].comment);
      ExportStep(keys, i);
      file := file + block;
    }
    assert keys[..|keys|] == keys;
  }

  // ----- reading a file back

  /** Length of the field a line starts with. */
  function FieldEnd(s: seq<byte>): (n: nat)
    ensures n <= |s|
  {
    if s == [] || s[0] == SPACE then 0 else 1 + FieldEnd(s[1..])
  }

  lemma {:induction false} FieldEndOf(field: seq<byte>, rest: seq<byte>)
    requires SPACE !in field
    ensures FieldEnd(field) == |field|
    ensures FieldEnd(field + [SPACE] + rest) == |field|
  {
    var s := field + [SPACE] + rest;
    if field != [] {
      assert s[1..] == field[1..] + [SPACE] + rest;
      FieldEndOf(field[1..], rest);
    }
  }

  datatype ReadKey = ReadKey(key: RsaKey, comment: seq<byte>)

  /** A key type, a base64 blob that names the same type, and an optional comment. */
  function ParseLine(line: seq<byte>): Option<ReadKey> {
    var i := FieldEnd(line);
    if i == |line| then None
    else
      var rest := line[i + 1..];
      var j := FieldEnd(rest);
      match Base64Text.Decode(rest[..j])
      case None => None
      case Some(blob) =>
        match ParseRsa(blob)
        case None => None
        case Some(key) =>
          if key.name != line[..i] then None
          else Some(ReadKey(key, if j == |rest| then [] else rest[j + 1..]))
  }

  function Meaning(k: Key): ReadKey {
    ReadKey(RsaKey(SSH_RSA, Number(k.exponent), Number(k.modulus)), k.comment)
  }

  lemma SplitField(field: seq<byte>, rest: seq<byte>)
    ensures var s := field + [SPACE] + rest;
            |field| < |s| && s[..|field|] == field && s[|field| + 1..] == rest
  {
  }

  lemma BlobField(blob: seq<byte>, comment: seq<byte>)
    ensures var rest := Base64Text.Encode(blob) + if comment == [] then [] else [SPACE] + comment;
            var j := FieldEnd(rest);
            && rest[..j] == Base64Text.Encode(blob)
            && (if j == |rest| then [] else rest[j + 1..]) == comment
  {
    var text := Base64Text.Encode(blob);
    Base64Text.EncodeHasNoBreaks(blob);
    assert SPACE !in text by {
      assert Base64Text.Whitespace(SPACE);
    }
    FieldEndOf(text, comment);
    if comment == [] {
      assert text + [] == text;
    } else {
      assert text + ([SPACE] + comment) == text + [SPACE] + comment;
      SplitField(text, comment);
    }
  }

  lemma LineFields(keyType: seq<byte>, blob: seq<byte>, comment: seq<byte>)
    requires SPACE !in keyType
    ensures var line := KeyLine(keyType, blob, comment);
            var i := FieldEnd(line);
            i < |line| && line[..i] == keyType
            && line[i + 1..] == Base64Text.Encode(blob) + if comment == [] then [] else [SPACE] + comment
  {
    var rest := Base64Text.Encode(blob) + if comment == [] then [] else [SPACE] + comment;
    assert KeyLine(keyType, blob, comment) == keyType + [SPACE] + rest;
    FieldEndOf(keyType, rest);
    SplitField(keyType, rest);
  }

  /** Any key line reads back as its blob does, with its comment. */
  lemma LineParses(keyType: seq<byte>, blob: seq<byte>, comment: seq<byte>)
    requires SPACE !in keyType && ParseRsa(blob).Some? && ParseRsa(blob).value.name == keyType
    ensures ParseLine(KeyLine(keyType, blob, comment)) == Some(ReadKey(ParseRsa(blob).value, comment))
  {
    LineFields(keyType, blob, comment);
    BlobField(blob, comment);
    Base64Text.RoundTrip(blob);
  }

  lemma LineReadsBack(k: Key)
    ensures ParseLine(LineOf(k)) == Some(Meaning(k))
  {
    RsaBlobParses(k.exponent, k.modulus);
    LineParses(SSH_RSA, RsaBlob(k.exponent, k.modulus), k.comment);
  }

  /** The file written for k keys has exactly k lines, and line by line reads back
      as the number pair and the comment each was written from. */
  lemma KeyFileReadsBack(keys: seq<Key>)
    ensures var lines := Base64Text.Lines(Concatenated(LinesOf(keys)));
            |lines| == |keys| && forall i :: 0 <= i < |keys| ==> ParseLine(lines[i]) == Some(Meaning(keys[i]))
  {
    var lines := LinesOf(keys);
    forall i | 0 <= i < |lines|
      ensures LF !in lines[i] && ParseLine(lines[i]) == Some(Meaning(keys[i]))
    {
      LinesOfAt(keys, i);
      KeyLineIsOneLine(SSH_RSA, RsaBlob(keys[i].exponent, keys[i].modulus), keys[i].comment);
      LineReadsBack(keys[i]);
    }
    FileSplitsIntoItsKeys(lines);
  }
}
