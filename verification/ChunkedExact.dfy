/** Exactly which streams the chunked decoder accepts and what it reads from them,
    grammatical or not. */
module ChunkedExact {
  import opened Basics
  import opened Chunked

  // ----- one line

  predicate IsBreak(b: byte) {
    b == 13 || b == 10
  }

  predicate AllBreaks(s: seq<byte>) {
    forall i :: 0 <= i < |s| ==> IsBreak(s[i])
  }

  predicate EndsPlainly(s: seq<byte>) {
    s != [] ==> !IsBreak(s[|s| - 1])
  }

  /** A line with its LF. */
  ghost predicate FullLine(line: seq<byte>) {
    line != [] && line[|line| - 1] == 10 && forall i :: 0 <= i < |line| - 1 ==> line[i] != 10
  }

  /** A first line of a stream: up to its LF, or all that is left if there is none. */
  ghost predicate FirstLine(line: seq<byte>, rest: seq<byte>) {
    FullLine(line) || (rest == [] && forall i :: 0 <= i < |line| ==> line[i] != 10)
  }

  lemma {:induction false} LineEndIs(line: seq<byte>, rest: seq<byte>)
    requires FirstLine(line, rest)
    ensures LineEnd(line + rest) == |line|
    decreases |line|
  {
    var s := line + rest;
    if |line| > 1 {
      assert s[1..] == line[1..] + rest && s[0] == line[0];
      LineEndIs(line[1..], rest);
    } else if |line| == 1 {
      assert s[0] == line[0] && s[1..] == rest;
    }
  }

  lemma {:induction false} LineEndSplits(s: seq<byte>)
    ensures FirstLine(s[..LineEnd(s)], s[LineEnd(s)..])
  {
    if s != [] && s[0] != 10 {
      var t := s[1..];
      LineEndSplits(t);
      var n := LineEnd(t);
      assert s[..n + 1] == [s[0]] + t[..n] && s[n + 1..] == t[n..];
    }
  }

  lemma {:induction false} TrimEndIs(x: seq<byte>, end: seq<byte>)
    requires EndsPlainly(x) && AllBreaks(end)
    ensures TrimEnd(x + end) == x
    decreases |end|
  {
    var s := x + end;
    if end == [] {
      assert s == x;
    } else {
      assert s[..|s| - 1] == x + end[..|end| - 1];
      TrimEndIs(x, end[..|end| - 1]);
    }
  }

  lemma {:induction false} TrimEndSplits(s: seq<byte>) returns (end: seq<byte>)
    ensures s == TrimEnd(s) + end && AllBreaks(end) && EndsPlainly(TrimEnd(s))
  {
    end := [];
    if s != [] && IsBreak(s[|s| - 1]) {
      var shorter := TrimEndSplits(s[..|s| - 1]);
      end := shorter + [s[|s| - 1]];
    }
  }

  lemma {:induction false} BeforeSemicolonIs(text: seq<byte>, junk: seq<byte>)
    requires 59 !in text && (junk == [] || junk[0] == 59)
    ensures BeforeSemicolon(text + junk) == text
  {
    if text == [] {
      assert text + junk == junk;
    } else {
      assert (text + junk)[1..] == text[1..] + junk;
      BeforeSemicolonIs(text[1..], junk);
    }
  }

  lemma {:induction false} BeforeSemicolonSplitsOff(s: seq<byte>)
    ensures var text := BeforeSemicolon(s);
            && |text| <= |s| && s[..|text|] == text && 59 !in text && (|text| < |s| ==> s[|text|] == 59)
  {
    if s != [] && s[0] != 59 {
      BeforeSemicolonSplitsOff(s[1..]);
      var text := BeforeSemicolon(s[1..]);
      assert s[..|text| + 1] == [s[0]] + s[1..][..|text|];
    }
  }

  // ----- the size on it

  /** Hexadecimal digits of a machine word, perhaps behind a plus sign. */
  ghost predicate SpellsSize(text: seq<byte>, digits: seq<byte>, size: nat) {
    && (text == digits || text == [43] + digits)
    && digits != [] && Hex(digits) && HexValue(digits, 0) == size && size <= 0xFFFF_FFFF_FFFF_FFFF
  }

  lemma {:induction false} OnlyDigitsParse(s: seq<byte>, acc: nat)
    ensures ParseDigits(s, acc).Some? ==> Hex(s)
  {
    if s != [] && HexDigit(s[0]).Some? {
      OnlyDigitsParse(s[1..], 16 * acc + HexDigit(s[0]).value);
      assert forall i :: 0 < i < |s| ==> s[i] == s[1..][i - 1];
    }
  }

  lemma ParsesTo(text: seq<byte>, digits: seq<byte>, size: nat)
    requires SpellsSize(text, digits, size)
    ensures ParseSize(text) == Some(size)
  {
    ParseDigitsIsValue(digits, 0);
    assert HexDigit(digits[0]).Some? && HexDigit(43).None?;
    if text != digits {
      assert text[1..] == digits && text[0] == 43 && |text| > 1;
    }
  }

  lemma ParsedSpells(text: seq<byte>) returns (digits: seq<byte>)
    ensures ParseSize(text).Some? ==> SpellsSize(text, digits, ParseSize(text).value)
  {
    digits := if text != [] && text[0] == 43 then text[1..] else text;
    if ParseSize(text).Some? {
      OnlyDigitsParse(digits, 0);
      ParseDigitsIsValue(digits, 0);
      assert text == digits || text == [43] + digits;
    }
  }

  /** A size line: the size, anything behind a semicolon, and line breaks. */
  ghost predicate SizeLine(line: seq<byte>, text: seq<byte>, junk: seq<byte>, end: seq<byte>, digits: seq<byte>, size: nat) {
    && line == text + junk + end
    && AllBreaks(end) && EndsPlainly(text + junk)
    && 59 !in text && (junk == [] || junk[0] == 59)
    && SpellsSize(text, digits, size)
  }

  ghost predicate Sizes(line: seq<byte>, size: nat) {
    exists text, junk, end, digits :: SizeLine(line, text, junk, end, digits, size)
  }

  /** The size read from a line is the one it states, and none exactly when it states none. */
  lemma SizeOfLineExactly(line: seq<byte>, size: nat)
    ensures SizeOfLine(line) == Some(size) <==> Sizes(line, size)
  {
    if Sizes(line, size) {
      var text, junk, end, digits :| SizeLine(line, text, junk, end, digits, size);
      TrimEndIs(text + junk, end);
      BeforeSemicolonIs(text, junk);
      ParsesTo(text, digits, size);
    }
    if SizeOfLine(line) == Some(size) {
      var end := TrimEndSplits(line);
      var trimmed := TrimEnd(line);
      BeforeSemicolonSplitsOff(trimmed);
      var text := BeforeSemicolon(trimmed);
      var junk := trimmed[|text|..];
      assert trimmed == text + junk;
      var digits := ParsedSpells(text);
      assert SizeLine(line, text, junk, end, digits, size);
    }
  }

  // ----- trailers

  ghost function Flat(lines: seq<seq<byte>>): seq<byte> {
    if lines == [] then [] else lines[0] + Flat(lines[1..])
  }

  lemma BlankTrims(line: seq<byte>)
    ensures TrimEnd(line) == [] <==> AllBreaks(line)
  {
    var end := TrimEndSplits(line);
    if AllBreaks(line) {
      TrimEndIs([], line);
      assert [] + line == line;
    }
    if TrimEnd(line) == [] {
      assert line == end;
    }
  }

  /** `s` is trailer lines, none of them blank, up to a blank line or the end of the
      stream; `rest` is what follows. */
  ghost predicate Trailers(s: seq<byte>, lines: seq<seq<byte>>, last: seq<byte>, rest: seq<byte>)
    decreases |lines|
  {
    if lines == [] then s == last + rest && Utf8(last) && AllBreaks(last) && FirstLine(last, rest) && (last == [] ==> rest == [])
    else
      && lines[0] != [] && |lines[0]| <= |s| && s[..|lines[0]|] == lines[0]
      && FirstLine(lines[0], s[|lines[0]|..]) && Utf8(lines[0]) && !AllBreaks(lines[0])
      && Trailers(s[|lines[0]|..], lines[1..], last, rest)
  }

  lemma {:induction false} TrailersSkip(s: seq<byte>, lines: seq<seq<byte>>, last: seq<byte>, rest: seq<byte>)
    requires Trailers(s, lines, last, rest)
    ensures SkipTrailers(s) == Ok(rest)
    decreases |lines|
  {
    if lines == [] {
      LineEndIs(last, rest);
      BlankTrims(last);
      assert s[..|last|] == last && s[|last|..] == rest;
    } else {
      LineEndIs(lines[0], s[|lines[0]|..]);
      assert s == lines[0] + s[|lines[0]|..];
      BlankTrims(lines[0]);
      TrailersSkip(s[|lines[0]|..], lines[1..], last, rest);
    }
  }

  lemma {:induction false} SkippedTrailers(s: seq<byte>) returns (lines: seq<seq<byte>>, last: seq<byte>)
    requires SkipTrailers(s).Ok?
    ensures Trailers(s, lines, last, SkipTrailers(s).value)
    decreases |s|
  {
    var n := LineEnd(s);
    LineEndSplits(s);
    BlankTrims(s[..n]);
    assert s == s[..n] + s[n..];
    lines, last := [], s[..n];
    if n > 0 && TrimEnd(s[..n]) != [] {
      var first := s[..n];
      lines, last := SkippedTrailers(s[n..]);
      assert ([first] + lines)[1..] == lines;
      lines := [first] + lines;
    }
  }

  // ----- the whole stream

  /** A chunk as it stands in the stream: its line, its data, and two octets. */
  datatype Piece = Piece(line: seq<byte>, data: seq<byte>, gap: seq<byte>)

  ghost predicate PieceOk(p: Piece) {
    FullLine(p.line) && Utf8(p.line) && p.data != [] && Sizes(p.line, |p.data|) && |p.gap| == 2
  }

  ghost function Joined(pieces: seq<Piece>, tail: seq<byte>): seq<byte> {
    if pieces == [] then tail else pieces[0].line + (pieces[0].data + pieces[0].gap + Joined(pieces[1..], tail))
  }

  ghost function Carried(pieces: seq<Piece>): seq<byte> {
    if pieces == [] then [] else pieces[0].data + Carried(pieces[1..])
  }

  /** The stream behind the chunks: a line of size zero, then trailers. */
  ghost predicate Closing(tail: seq<byte>, line: seq<byte>, lines: seq<seq<byte>>, last: seq<byte>, rest: seq<byte>) {
    && |line| <= |tail| && tail[..|line|] == line && FirstLine(line, tail[|line|..]) && Utf8(line) && Sizes(line, 0)
    && Trailers(tail[|line|..], lines, last, rest)
  }

  /** The stream `s` carries `body`, and `rest` follows it. */
  ghost predicate Carries(s: seq<byte>, pieces: seq<Piece>, tail: seq<byte>, line: seq<byte>, lines: seq<seq<byte>>, last: seq<byte>,
                          body: seq<byte>, rest: seq<byte>)
  {
    && s == Joined(pieces, tail) && body == Carried(pieces)
    && (forall i :: 0 <= i < |pieces| ==> PieceOk(pieces[i]))
    && Closing(tail, line, lines, last, rest)
  }

  lemma FirstLineOfFull(line: seq<byte>, rest: seq<byte>)
    requires FullLine(line)
    ensures LineEnd(line + rest) == |line| && (line + rest)[..|line|] == line && (line + rest)[|line|..] == rest
  {
    LineEndIs(line, rest);
  }

  /** One turn of the decoder at a size line that states a chunk. */
  lemma DecodeTurn(line: seq<byte>, block: seq<byte>, size: nat, sofar: seq<byte>, max: nat)
    requires FullLine(line) && Utf8(line) && SizeOfLine(line) == Some(size) && size > 0
    ensures Decode(line + block, sofar, max)
            == if |sofar| + size > max then Err(BodyTooLarge)
               else if |block| < size + 2 then Err(Io)
               else Decode(block[size + 2..], sofar + block[..size], max)
  {
    FirstLineOfFull(line, block);
  }

  lemma SplitBlock(data: seq<byte>, gap: seq<byte>, later: seq<byte>)
    requires |gap| == 2
    ensures var block := data + gap + later;
            |block| >= |data| + 2 && block[..|data|] == data && block[|data| + 2..] == later
  {
  }

  lemma PieceDecodes(p: Piece, later: seq<byte>, sofar: seq<byte>, max: nat)
    requires PieceOk(p) && |sofar| + |p.data| <= max
    ensures Decode(p.line + (p.data + p.gap + later), sofar, max) == Decode(later, sofar + p.data, max)
  {
    SizeOfLineExactly(p.line, |p.data|);
    SplitBlock(p.data, p.gap, later);
    DecodeTurn(p.line, p.data + p.gap + later, |p.data|, sofar, max);
  }

  lemma ClosingDecodes(tail: seq<byte>, line: seq<byte>, lines: seq<seq<byte>>, last: seq<byte>, rest: seq<byte>, sofar: seq<byte>, max: nat)
    requires Closing(tail, line, lines, last, rest)
    ensures Decode(tail, sofar, max) == Ok(Decoded(sofar, rest))
  {
    LineEndIs(line, tail[|line|..]);
    assert tail == line + tail[|line|..];
    SizeOfLineExactly(line, 0);
    TrailersSkip(tail[|line|..], lines, last, rest);
  }

  lemma {:induction false} JoinedDecodes(pieces: seq<Piece>, tail: seq<byte>, sofar: seq<byte>, max: nat)
    requires forall i :: 0 <= i < |pieces| ==> PieceOk(pieces[i])
    requires |sofar| + |Carried(pieces)| <= max
    ensures Decode(Joined(pieces, tail), sofar, max) == Decode(tail, sofar + Carried(pieces), max)
    decreases |pieces|
  {
    if pieces == [] {
      assert sofar + [] == sofar;
    } else {
      var p, rest := pieces[0], pieces[1..];
      PieceDecodes(p, Joined(rest, tail), sofar, max);
      JoinedDecodes(rest, tail, sofar + p.data, max);
      Reassociate(sofar, p.data, Carried(rest));
    }
  }

  lemma CutBlock(block: seq<byte>, size: nat)
    requires |block| >= size + 2
    ensures block == block[..size] + block[size..size + 2] + block[size + 2..]
  {
  }

  /** One chunk taken off a stream that decodes. */
  lemma TakePiece(s: seq<byte>, sofar: seq<byte>, max: nat) returns (p: Piece, later: seq<byte>)
    requires Decode(s, sofar, max).Ok? && SizeOfLine(s[..LineEnd(s)]) != Some(0)
    ensures PieceOk(p) && s == p.line + (p.data + p.gap + later)
    ensures |sofar| + |p.data| <= max && Decode(later, sofar + p.data, max) == Decode(s, sofar, max)
    ensures |later| < |s|
  {
    var n := LineEnd(s);
    var size, rest := SizeOfLine(s[..n]).value, s[n..];
    LineEndSplits(s);
    SizeOfLineExactly(s[..n], size);
    assert s == s[..n] + rest;
    assert FullLine(s[..n]) by {
      assert rest != [];
    }
    DecodeTurn(s[..n], rest, size, sofar, max);
    p, later := Piece(s[..n], rest[..size], rest[size..size + 2]), rest[size + 2..];
    CutBlock(rest, size);
  }

  /** The end of a stream that decodes. */
  lemma TakeClosing(s: seq<byte>, sofar: seq<byte>, max: nat) returns (line: seq<byte>, lines: seq<seq<byte>>, last: seq<byte>)
    requires Decode(s, sofar, max).Ok? && SizeOfLine(s[..LineEnd(s)]) == Some(0)
    ensures Decode(s, sofar, max).value.body == sofar
    ensures Closing(s, line, lines, last, Decode(s, sofar, max).value.rest)
  {
    var n := LineEnd(s);
    LineEndSplits(s);
    SizeOfLineExactly(s[..n], 0);
    line := s[..n];
    lines, last := SkippedTrailers(s[n..]);
  }

  lemma OneMorePiece(p: Piece, more: seq<Piece>, tail: seq<byte>)
    ensures Joined([p] + more, tail) == p.line + (p.data + p.gap + Joined(more, tail))
    ensures Carried([p] + more) == p.data + Carried(more)
    ensures PieceOk(p) && (forall i :: 0 <= i < |more| ==> PieceOk(more[i])) ==>
              forall i :: 0 <= i < |[p] + more| ==> PieceOk(([p] + more)[i])
  {
    assert ([p] + more)[1..] == more;
  }

  lemma {:induction false} DecodedIsJoined(s: seq<byte>, sofar: seq<byte>, max: nat)
      returns (pieces: seq<Piece>, tail: seq<byte>, line: seq<byte>, lines: seq<seq<byte>>, last: seq<byte>)
    requires Decode(s, sofar, max).Ok? && |sofar| <= max
    ensures s == Joined(pieces, tail) && forall i :: 0 <= i < |pieces| ==> PieceOk(pieces[i])
    ensures var d := Decode(s, sofar, max).value;
            d.body == sofar + Carried(pieces) && |d.body| <= max && Closing(tail, line, lines, last, d.rest)
    decreases |s|
  {
    if SizeOfLine(s[..LineEnd(s)]) == Some(0) {
      pieces, tail := [], s;
      line, lines, last := TakeClosing(s, sofar, max);
      assert sofar + Carried(pieces) == sofar;
    } else {
      var p, later := TakePiece(s, sofar, max);
      var more: seq<Piece>;
      more, tail, line, lines, last := DecodedIsJoined(later, sofar + p.data, max);
      pieces := [p] + more;
      OneMorePiece(p, more, tail);
      Reassociate(sofar, p.data, Carried(more));
    }
  }

  /** On any stream whatever: the decoder accepts exactly the streams that carry a
      body within the limit, returns that body, and leaves what follows it. */
  lemma DecodeExactly(s: seq<byte>, max: nat, body: seq<byte>, rest: seq<byte>)
    ensures Decode(s, [], max) == Ok(Decoded(body, rest)) <==>
            && |body| <= max
            && exists pieces, tail, line, lines, last :: Carries(s, pieces, tail, line, lines, last, body, rest)
  {
    if Decode(s, [], max) == Ok(Decoded(body, rest)) {
      var pieces, tail, line, lines, last := DecodedIsJoined(s, [], max);
      assert [] + Carried(pieces) == Carried(pieces);
      assert Carries(s, pieces, tail, line, lines, last, body, rest);
    }
    if |body| <= max {
      if pieces, tail, line, lines, last :| Carries(s, pieces, tail, line, lines, last, body, rest) {
        JoinedDecodes(pieces, tail, [], max);
        assert [] + body == body;
        ClosingDecodes(tail, line, lines, last, rest, body, max);
      }
    }
  }
}
