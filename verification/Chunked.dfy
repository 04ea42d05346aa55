/** HTTP/1.1 body framing: the chunked decoder against the grammar of section 7.1
    of RFC 9112. */
module Chunked {
  import opened Basics

  const CR: byte := 13
  const LF: byte := 10
  const SEMICOLON: byte := 59
  const PLUS: byte := 43
  const CRLF: seq<byte> := [13, 10]
  const USIZE_MAX: nat := 0xFFFF_FFFF_FFFF_FFFF

  datatype ReadError = Io | BadChunkSize | BodyTooLarge

  // ----- text of one line

  predicate Continuation(b: byte) {
    0x80 <= b <= 0xBF
  }

  /** Length of the well-formed UTF-8 sequence `s` starts with; 0 if there is none. */
  function Utf8Step(s: seq<byte>): (n: nat)
    requires s != []
    ensures n <= |s|
  {
    if s[0] < 0x80 then 1
    else if 0xC2 <= s[0] <= 0xDF && |s| >= 2 && Continuation(s[1]) then 2
    else if |s| >= 3 && Continuation(s[1]) && Continuation(s[2])
            && (0xE0 <= s[0] <= 0xEF) && (s[0] == 0xE0 ==> s[1] >= 0xA0) && (s[0] == 0xED ==> s[1] <= 0x9F) then 3
    else if |s| >= 4 && Continuation(s[1]) && Continuation(s[2]) && Continuation(s[3])
            && (0xF0 <= s[0] <= 0xF4) && (s[0] == 0xF0 ==> s[1] >= 0x90) && (s[0] == 0xF4 ==> s[1] <= 0x8F) then 4
    else 0
  }

  predicate Utf8(s: seq<byte>) {
    s == [] || (Utf8Step(s) > 0 && Utf8(s[Utf8Step(s)..]))
  }

  /** Index just past the first LF, or the end of the stream. */
  function LineEnd(s: seq<byte>): (n: nat)
    ensures n <= |s| && (s != [] ==> n > 0)
  {
    if s == [] then 0 else if s[0] == LF then 1 else 1 + LineEnd(s[1..])
  }

  function TrimEnd(s: seq<byte>): seq<byte> {
    if s != [] && (s[|s| - 1] == CR || s[|s| - 1] == LF) then TrimEnd(s[..|s| - 1]) else s
  }

  function BeforeSemicolon(s: seq<byte>): seq<byte> {
    if s == [] || s[0] == SEMICOLON then [] else [s[0]] + BeforeSemicolon(s[1..])
  }

  function HexDigit(b: byte): Option<nat> {
    if 48 <= b <= 57 then Some(b as nat - 48)
    else if 97 <= b <= 102 then Some(b as nat - 87)
    else if 65 <= b <= 70 then Some(b as nat - 55)
    else None
  }

  /** The sixteen digits, letters in either case. */
  lemma HexDigitExactly(b: byte, v: nat)
    requires v < 16
    ensures HexDigit(b) == Some(v) <==> b as int == "0123456789abcdef"[v] as int || b as int == "0123456789ABCDEF"[v] as int
    ensures HexDigit(b).Some? ==> HexDigit(b).value < 16
  {
  }

  /** Checked accumulation of hexadecimal digits into a machine word. */
  function ParseDigits(s: seq<byte>, acc: nat): Option<nat> {
    if s == [] then Some(acc)
    else if HexDigit(s[0]).None? then None
    else
      var next := 16 * acc + HexDigit(s[0]).value;
      if next > USIZE_MAX then None else ParseDigits(s[1..], next)
  }

  function ParseSize(s: seq<byte>): Option<nat> {
    if s == [] || s == [PLUS] then None
    else if s[0] == PLUS then ParseDigits(s[1..], 0)
    else ParseDigits(s, 0)
  }

  function SizeOfLine(line: seq<byte>): Option<nat> {
    ParseSize(BeforeSemicolon(TrimEnd(line)))
  }

  // ----- the decoder as a function of the whole stream

  datatype Decoded = Decoded(body: seq<byte>, rest: seq<byte>)

  function SkipTrailers(s: seq<byte>): Result<seq<byte>, ReadError>
    decreases |s|
  {
    var n := LineEnd(s);
    if n == 0 then Ok(s)
    else if !Utf8(s[..n]) then Err(Io)
    else if TrimEnd(s[..n]) == [] then Ok(s[n..])
    else SkipTrailers(s[n..])
  }

  function Decode(s: seq<byte>, sofar: seq<byte>, max: nat): Result<Decoded, ReadError>
    decreases |s|
  {
    var n := LineEnd(s);
    if !Utf8(s[..n]) then Err(Io)
    else
      match SizeOfLine(s[..n])
      case None => Err(BadChunkSize)
      case Some(size) =>
        var rest := s[n..];
        if size == 0 then
          match SkipTrailers(rest)
          case Err(e) => Err(e)
          case Ok(after) => Ok(Decoded(sofar, after))
        else if |sofar| + size > max then Err(BodyTooLarge)
        else if |rest| < size + 2 then Err(Io)
        else Decode(rest[size + 2..], sofar + rest[..size], max)
  }

  /** Reading a body whose length was announced. */
  function ReadFixed(s: seq<byte>, length: nat, max: nat): Result<Decoded, ReadError> {
    if length > max then Err(BodyTooLarge)
    else if |s| < length then Err(Io)
    else Ok(Decoded(s[..length], s[length..]))
  }

  /** A buffered reader over the bytes still to come. */
  class Reader {
    var rest: seq<byte>

    constructor (stream: seq<byte>)
      ensures rest == stream
    {
      rest := stream;
    }

    /** Reads through the next LF; fails on text that is not UTF-8. */
    method ReadLine() returns (r: Result<seq<byte>, ReadError>)
      modifies this
      ensures var n := LineEnd(old(rest));
              && rest == old(rest)[n..]
              && r == if Utf8(old(rest)[..n]) then Ok(old(rest)[..n]) else Err(Io)
    {
      var n := LineEnd(rest);
      var line := rest[..n];
      rest := rest[n..];
      r := if Utf8(line) then Ok(line) else Err(Io);
    }

    method ReadExact(n: nat) returns (r: Result<seq<byte>, ReadError>)
      modifies this
      ensures n <= |old(rest)| ==> r == Ok(old(rest)[..n]) && rest == old(rest)[n..]
      ensures n > |old(rest)| ==> r == Err(Io)
    {
      if n > |rest| {
        return Err(Io);
      }
      r := Ok(rest[..n]);
      rest := rest[n..];
    }

    /** Decode a chunked body.  The buffer never holds more than `max` bytes, and
        every finite stream is decoded or refused. */
    method ReadChunkedBody(max: nat) returns (r: Result<seq<byte>, ReadError>)
      modifies this
      ensures var d := Decode(old(rest), [], max);
              if d.Ok? then r == Ok(d.value.body) && rest == d.value.rest else r == Err(d.error)
      ensures r.Ok? ==> |r.value| <= max
    {
      var out: seq<byte> := [];
      ghost var d := Decode(rest, [], max);
      while true
        invariant |out| <= max
        invariant d == Decode(rest, out, max)
        decreases |rest|
      {
        ghost var before := rest;
        var sizeLine := ReadLine();
        if sizeLine.Err? {
          return Err(sizeLine.error);
        }
        var size := SizeOfLine(sizeLine.value);
        if size.None? {
          return Err(BadChunkSize);
        }
        if size.value == 0 {
          var trailers := SkipTrailerLines();
          if trailers.Err? {
            return Err(trailers.error);
          }
          return Ok(out);
        }
        var projected := |out| + size.value;
        if projected > max {
          return Err(BodyTooLarge);
        }
        ghost var rest0 := rest;
        var chunk := ReadExact(size.value);
        if chunk.Err? {
          return Err(chunk.error);
        }
        var crlf := ReadExact(2);
        if crlf.Err? {
          return Err(crlf.error);
        }
        assert rest0[size.value..][2..] == rest0[size.value + 2..];
        assert SizeOfLine([]).None?;
        out := out + chunk.value;
      }
    }

    method SkipTrailerLines() returns (r: Result<(), ReadError>)
      modifies this
      ensures var t := SkipTrailers(old(rest));
              if t.Ok? then r == Ok(()) && rest == t.value else r == Err(t.error)
    {
      ghost var t := SkipTrailers(rest);
      while true
        invariant t == SkipTrailers(rest)
        decreases |rest|
      {
        var line := ReadLine();
        if line.Err? {
          return Err(line.error);
        }
        if |line.value| == 0 {
          return Ok(());
        }
        if TrimEnd(line.value) == [] {
          return Ok(());
        }
      }
    }
  }

  // ----- the grammar

  datatype Chunk = Chunk(size: seq<byte>, ext: seq<byte>, data: seq<byte>)

  datatype Message = Message(chunks: seq<Chunk>, zeros: seq<byte>, lastExt: seq<byte>, trailers: seq<seq<byte>>)

  predicate OneLine(s: seq<byte>) {
    forall i :: 0 <= i < |s| ==> s[i] != CR && s[i] != LF
  }

  predicate Hex(s: seq<byte>) {
    forall i :: 0 <= i < |s| ==> HexDigit(s[i]).Some?
  }

  function HexValue(s: seq<byte>, acc: nat): nat
    requires Hex(s)
  {
    if s == [] then acc else HexValue(s[1..], 16 * acc + HexDigit(s[0]).value)
  }

  predicate Blank(s: seq<byte>) {
    forall i :: 0 <= i < |s| ==> s[i] == 32 || s[i] == 9
  }

  /** Empty, or optional white space and then a semicolon. */
  predicate ExtensionOk(ext: seq<byte>) {
    OneLine(ext) && (ext == [] || (SEMICOLON in ext && Blank(BeforeSemicolon(ext))))
  }

  predicate ChunkOk(c: Chunk) {
    c.size != [] && Hex(c.size) && c.data != [] && HexValue(c.size, 0) == |c.data| && ExtensionOk(c.ext)
  }

  predicate MessageOk(m: Message) {
    && (forall i :: 0 <= i < |m.chunks| ==> ChunkOk(m.chunks[i]))
    && m.zeros != [] && (forall i :: 0 <= i < |m.zeros| ==> m.zeros[i] == 48)
    && ExtensionOk(m.lastExt)
    && (forall i :: 0 <= i < |m.trailers| ==> m.trailers[i] != [] && OneLine(m.trailers[i]))
  }

  function Body(chunks: seq<Chunk>): seq<byte> {
    if chunks == [] then [] else chunks[0].data + Body(chunks[1..])
  }

  function EncodeTrailers(trailers: seq<seq<byte>>, tail: seq<byte>): seq<byte> {
    if trailers == [] then CRLF + tail else trailers[0] + CRLF + EncodeTrailers(trailers[1..], tail)
  }

  function Encode(m: Message, tail: seq<byte>): seq<byte>
    decreases |m.chunks|
  {
    if m.chunks == [] then m.zeros + m.lastExt + CRLF + EncodeTrailers(m.trailers, tail)
    else
      var c := m.chunks[0];
      c.size + c.ext + CRLF + (c.data + CRLF + Encode(m.(chunks := m.chunks[1..]), tail))
  }

  // ----- what the decoder needs beyond the grammar

  /** A size line it can read: UTF-8, and no white space before the semicolon. */
  predicate PlainSizeLine(size: seq<byte>, ext: seq<byte>) {
    Utf8(size + ext + CRLF) && BeforeSemicolon(ext) == []
  }

  predicate PlainTrailers(trailers: seq<seq<byte>>) {
    forall i :: 0 <= i < |trailers| ==> Utf8(trailers[i] + CRLF)
  }

  predicate Plain(m: Message) {
    && (forall i :: 0 <= i < |m.chunks| ==> PlainSizeLine(m.chunks[i].size, m.chunks[i].ext))
    && PlainSizeLine(m.zeros, m.lastExt)
    && PlainTrailers(m.trailers)
  }

  // ----- lemmas about one line

  lemma {:induction false} LineEndOf(x: seq<byte>, rest: seq<byte>)
    requires OneLine(x)
    ensures LineEnd(x + CRLF + rest) == |x| + 2
    ensures (x + CRLF + rest)[..|x| + 2] == x + CRLF
    ensures (x + CRLF + rest)[|x| + 2..] == rest
  {
    var s := x + CRLF + rest;
    if x == [] {
      assert s[1..][0] == LF;
    } else {
      assert s[1..] == x[1..] + CRLF + rest;
      LineEndOf(x[1..], rest);
    }
  }

  lemma TrimLine(x: seq<byte>)
    requires OneLine(x)
    ensures TrimEnd(x + CRLF) == x
  {
    var s := x + CRLF;
    assert s[..|s| - 1] == x + [CR] && s[|s| - 1] == LF;
    assert TrimEnd(s) == TrimEnd(x + [CR]);
    assert (x + [CR])[..|x|] == x;
    assert TrimEnd(x + [CR]) == TrimEnd(x);
  }

  lemma {:induction false} BeforeSemicolonSplits(size: seq<byte>, ext: seq<byte>)
    requires Hex(size)
    ensures BeforeSemicolon(size + ext) == size + BeforeSemicolon(ext)
  {
    if size == [] {
      assert size + ext == ext;
    } else {
      assert (size + ext)[1..] == size[1..] + ext;
      BeforeSemicolonSplits(size[1..], ext);
    }
  }

  lemma {:induction false} HexValueGrows(s: seq<byte>, acc: nat)
    requires Hex(s)
    ensures HexValue(s, acc) >= acc
  {
    if s != [] {
      HexValueGrows(s[1..], 16 * acc + HexDigit(s[0]).value);
    }
  }

  /** Overflow checks at every digit amount to one check of the value. */
  lemma {:induction false} ParseDigitsIsValue(s: seq<byte>, acc: nat)
    requires Hex(s) && acc <= USIZE_MAX
    ensures ParseDigits(s, acc) == if HexValue(s, acc) <= USIZE_MAX then Some(HexValue(s, acc)) else None
  {
    if s != [] {
      var next := 16 * acc + HexDigit(s[0]).value;
      HexValueGrows(s[1..], next);
      if next <= USIZE_MAX {
        ParseDigitsIsValue(s[1..], next);
      }
    }
  }

  lemma {:induction false} ParseDigitsStopsAtBlank(s: seq<byte>, blank: seq<byte>, acc: nat)
    requires Hex(s) && Blank(blank) && blank != []
    ensures ParseDigits(s + blank, acc).None?
    decreases |s|
  {
    if s == [] {
      assert s + blank == blank;
    } else {
      assert (s + blank)[1..] == s[1..] + blank;
      ParseDigitsStopsAtBlank(s[1..], blank, 16 * acc + HexDigit(s[0]).value);
    }
  }

  /** The size of a grammatical size line is read exactly when no white space
      precedes the semicolon. */
  lemma SizeLineIsRead(size: seq<byte>, ext: seq<byte>)
    requires size != [] && Hex(size) && ExtensionOk(ext)
    ensures OneLine(size + ext)
    ensures SizeOfLine(size + ext + CRLF)
            == if BeforeSemicolon(ext) == [] && HexValue(size, 0) <= USIZE_MAX then Some(HexValue(size, 0)) else None
  {
    assert forall i :: 0 <= i < |size| ==> HexDigit(size[i]).Some?;
    TrimLine(size + ext);
    BeforeSemicolonSplits(size, ext);
    var text := size + BeforeSemicolon(ext);
    assert HexDigit(text[0]).Some?;
    if BeforeSemicolon(ext) == [] {
      assert text == size;
      ParseDigitsIsValue(size, 0);
    } else {
      ParseDigitsStopsAtBlank(size, BeforeSemicolon(ext), 0);
    }
  }

  lemma {:induction false} ZerosAreZero(zeros: seq<byte>)
    requires forall i :: 0 <= i < |zeros| ==> zeros[i] == 48
    ensures Hex(zeros) && HexValue(zeros, 0) == 0
  {
    assert forall i :: 0 <= i < |zeros| ==> HexDigit(zeros[i]) == Some(0);
    if zeros != [] {
      ZerosAreZero(zeros[1..]);
    }
  }

  lemma {:induction false} TrailersAreSkipped(trailers: seq<seq<byte>>, tail: seq<byte>)
    requires forall i :: 0 <= i < |trailers| ==> trailers[i] != [] && OneLine(trailers[i])
    ensures var r := SkipTrailers(EncodeTrailers(trailers, tail));
            if PlainTrailers(trailers) then r == Ok(tail) else r == Err(Io)
  {
    if trailers == [] {
      var blank: seq<byte> := [];
      assert CRLF + tail == blank + CRLF + tail;
      LineEndOf(blank, tail);
      TrimLine(blank);
      assert blank + CRLF == CRLF;
      AsciiPair();
    } else {
      var rest := EncodeTrailers(trailers[1..], tail);
      LineEndOf(trailers[0], rest);
      TrimLine(trailers[0]);
      TrailersAreSkipped(trailers[1..], tail);
      assert PlainTrailers(trailers) <==> Utf8(trailers[0] + CRLF) && PlainTrailers(trailers[1..]) by {
        assert forall i :: 0 < i < |trailers| ==> trailers[i] == trailers[1..][i - 1];
      }
    }
  }

  lemma AsciiPair()
    ensures Utf8(CRLF)
  {
    assert Utf8Step(CRLF) == 1 && CRLF[1..] == [LF];
    assert Utf8Step([LF]) == 1 && [LF][1..] == [];
  }

  // ----- the decoder inverts the grammar

  lemma LastChunkDecodes(m: Message, tail: seq<byte>, sofar: seq<byte>, max: nat)
    requires MessageOk(m) && m.chunks == []
    ensures var r := Decode(Encode(m, tail), sofar, max);
            if Plain(m) then r == Ok(Decoded(sofar, tail)) else r.Err?
  {
    ZerosAreZero(m.zeros);
    SizeLineIsRead(m.zeros, m.lastExt);
    LineEndOf(m.zeros + m.lastExt, EncodeTrailers(m.trailers, tail));
    TrailersAreSkipped(m.trailers, tail);
  }

  /** One chunk: refused, too large, or appended. */
  lemma ChunkDecodes(c: Chunk, after: seq<byte>, sofar: seq<byte>, max: nat)
    requires ChunkOk(c) && max <= USIZE_MAX
    ensures var r := Decode(c.size + c.ext + CRLF + (c.data + CRLF + after), sofar, max);
            if PlainSizeLine(c.size, c.ext) && |sofar| + |c.data| <= max
            then r == Decode(after, sofar + c.data, max) else r.Err?
  {
    var block := c.data + CRLF + after;
    SizeLineIsRead(c.size, c.ext);
    LineEndOf(c.size + c.ext, block);
    assert block[..|c.data|] == c.data && block[|c.data| + 2..] == after;
  }

  lemma PlainSplits(m: Message)
    requires m.chunks != []
    ensures Plain(m) <==> PlainSizeLine(m.chunks[0].size, m.chunks[0].ext) && Plain(m.(chunks := m.chunks[1..]))
  {
    var rest := m.chunks[1..];
    assert forall i :: 0 < i < |m.chunks| ==> m.chunks[i] == rest[i - 1];
    assert forall i :: 0 <= i < |rest| ==> rest[i] == m.chunks[i + 1];
  }

  lemma Reassociate(a: seq<byte>, b: seq<byte>, c: seq<byte>)
    ensures a + (b + c) == (a + b) + c
  {
  }

  lemma {:induction false} MessageDecodes(m: Message, tail: seq<byte>, sofar: seq<byte>, max: nat)
    requires MessageOk(m) && |sofar| <= max <= USIZE_MAX
    ensures var r := Decode(Encode(m, tail), sofar, max);
            if Plain(m) && |sofar| + |Body(m.chunks)| <= max
            then r == Ok(Decoded(sofar + Body(m.chunks), tail)) else r.Err?
    decreases |m.chunks|
  {
    if m.chunks == [] {
      LastChunkDecodes(m, tail, sofar, max);
      assert sofar + Body(m.chunks) == sofar;
    } else {
      var c, rest := m.chunks[0], m.(chunks := m.chunks[1..]);
      ChunkDecodes(c, Encode(rest, tail), sofar, max);
      PlainSplits(m);
      if |sofar| + |c.data| <= max {
        MessageDecodes(rest, tail, sofar + c.data, max);
        Reassociate(sofar, c.data, Body(rest.chunks));
      }
    }
  }

  /** Chunked decoding inverts every grammatical chunking of a body within the
      limit exactly when each line is UTF-8 and no size line has white space before
      its semicolon (which section 7.1.1 of RFC 9112 permits); it then consumes the
      message and nothing more, and otherwise fails. */
  lemma ChunkedInverts(m: Message, tail: seq<byte>, max: nat)
    requires MessageOk(m) && max <= USIZE_MAX
    ensures var r := Decode(Encode(m, tail), [], max);
            && (r.Ok? <==> Plain(m) && |Body(m.chunks)| <= max)
            && (r.Ok? ==> r == Ok(Decoded(Body(m.chunks), tail)))
            && (r.Ok? ==> r == ReadFixed(Body(m.chunks) + tail, |Body(m.chunks)|, max))
  {
    MessageDecodes(m, tail, [], max);
    assert [] + Body(m.chunks) == Body(m.chunks);
    var s := Body(m.chunks) + tail;
    assert s[..|Body(m.chunks)|] == Body(m.chunks) && s[|Body(m.chunks)|..] == tail;
  }

  /** A chunking the grammar allows and the decoder refuses: one byte under the size
      line "1 ;". */
  lemma SpaceBeforeSemicolonIsRefused(tail: seq<byte>)
    ensures var m := Message([Chunk([49], [32, 59], [65])], [48], [], []);
            MessageOk(m) && Body(m.chunks) == [65] && Decode(Encode(m, tail), [], 1).Err?
  {
    var c := Chunk([49], [32, 59], [65]);
    var m := Message([c], [48], [], []);
    assert BeforeSemicolon(c.ext) == [32] by {
      assert c.ext[1..] == [59];
    }
    assert c.size[1..] == [] && HexDigit(49) == Some(1) && HexValue(c.size, 0) == 1;
    assert c.ext[1] == SEMICOLON;
    assert ChunkOk(c);
    assert m.chunks[1..] == [] && Body(m.chunks) == [65] + Body([]);
    assert !PlainSizeLine(m.chunks[0].size, m.chunks[0].ext);
    ChunkedInverts(m, tail, 1);
  }

  /** Whatever the stream, a decoded body is within the limit. */
  lemma {:induction false} DecodeIsBounded(s: seq<byte>, sofar: seq<byte>, max: nat)
    requires |sofar| <= max
    ensures var r := Decode(s, sofar, max);
            r.Ok? ==> |r.value.body| <= max && sofar <= r.value.body && |r.value.rest| <= |s|
    decreases |s|
  {
    var n := LineEnd(s);
    var rest := s[n..];
    SkipShrinks(rest);
    if Utf8(s[..n]) && SizeOfLine(s[..n]).Some? {
      var size := SizeOfLine(s[..n]).value;
      if size != 0 && |sofar| + size <= max && |rest| >= size + 2 {
        DecodeIsBounded(rest[size + 2..], sofar + rest[..size], max);
      }
    }
  }

  lemma {:induction false} SkipShrinks(s: seq<byte>)
    ensures SkipTrailers(s).Ok? ==> |SkipTrailers(s).value| <= |s|
    decreases |s|
  {
    var n := LineEnd(s);
    if n > 0 && Utf8(s[..n]) && TrimEnd(s[..n]) != [] {
      SkipShrinks(s[n..]);
    }
  }
}
