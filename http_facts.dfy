/** What the wire-level parsing of `URL.request` guarantees. */
module HttpFacts {

  import opened Common
  import opened Text
  import Numbers
  import Utf8
  import opened Http

  // ----- Headers -----

  /** The line declares the header `name`. */
  predicate Declares(line: string, name: string)
  {
    HeaderField(line).Some? && HeaderField(line).value.0 == name
  }

  /** What the last line does to one name: it sets it when it declares
      it, and leaves it alone otherwise. */
  lemma HeaderMapLast(lines: seq<string>, name: string)
    requires lines != []
    ensures var init, last := lines[..|lines| - 1], lines[|lines| - 1];
      && (name in HeaderMap(lines) <==> name in HeaderMap(init) || Declares(last, name))
      && (Declares(last, name) ==> HeaderMap(lines)[name] == HeaderField(last).value.1)
      && (!Declares(last, name) && name in HeaderMap(init) ==> HeaderMap(lines)[name] == HeaderMap(init)[name])
  {
  }

  /** The header map holds a name exactly when some line declares it
      (Browser.py:202-211). */
  lemma HeaderPresent(lines: seq<string>, name: string)
    ensures name in HeaderMap(lines) <==> exists i :: 0 <= i < |lines| && Declares(lines[i], name)
  {
    if name in HeaderMap(lines) {
      var i := HeaderDeclarer(lines, name);
    }
    if exists i :: 0 <= i < |lines| && Declares(lines[i], name) {
      var i :| 0 <= i < |lines| && Declares(lines[i], name);
      HeaderDeclared(lines, name, i);
    }
  }

  /** A declared name is in the map. */
  lemma {:induction false} HeaderDeclared(lines: seq<string>, name: string, i: nat)
    requires i < |lines| && Declares(lines[i], name)
    ensures name in HeaderMap(lines)
  {
    var init := lines[..|lines| - 1];
    HeaderMapLast(lines, name);
    if i < |lines| - 1 {
      assert init[i] == lines[i];
      HeaderDeclared(init, name, i);
    }
  }

  /** A name in the map was declared by some line. */
  lemma {:induction false} HeaderDeclarer(lines: seq<string>, name: string) returns (i: nat)
    requires name in HeaderMap(lines)
    ensures i < |lines| && Declares(lines[i], name)
  {
    var init := lines[..|lines| - 1];
    HeaderMapLast(lines, name);
    if Declares(lines[|lines| - 1], name) {
      i := |lines| - 1;
    } else {
      i := HeaderDeclarer(init, name);
      assert init[i] == lines[i];
    }
  }

  /** The value is that of the last line declaring the name: a later
      duplicate wins (Browser.py:208). */
  lemma {:induction false} HeaderLastWins(lines: seq<string>, name: string, i: nat)
    requires i < |lines| && Declares(lines[i], name)
    requires forall j :: i < j < |lines| ==> !Declares(lines[j], name)
    ensures name in HeaderMap(lines) && HeaderMap(lines)[name] == HeaderField(lines[i]).value.1
  {
    var init := lines[..|lines| - 1];
    HeaderMapLast(lines, name);
    if i < |lines| - 1 {
      assert init[i] == lines[i];
      HeaderLastWins(init, name, i);
    }
  }

  /** Header names are case-folded: none holds an upper-case ASCII letter. */
  lemma {:induction false} HeaderNamesFolded(lines: seq<string>)
    ensures forall name :: name in HeaderMap(lines) ==> forall k :: 0 <= k < |name| ==> !('A' <= name[k] <= 'Z')
  {
    if lines != [] {
      HeaderNamesFolded(lines[..|lines| - 1]);
    }
  }

  /** So the lookup of `"Connection"` on the redirect path
      (Browser.py:229) never finds anything. */
  lemma NoCapitalisedConnection(lines: seq<string>)
    ensures "Connection" !in HeaderMap(lines)
  {
    HeaderNamesFolded(lines);
    assert "Connection"[0] == 'C';
  }

  /** A header line without a colon is skipped. */
  lemma ColonlessLineSkipped(lines: seq<string>, line: string)
    requires ':' !in line
    ensures HeaderMap(lines + [line]) == HeaderMap(lines)
  {
    HeaderMapSnoc(lines, line);
    ContainsChar(line, ':');
  }

  // ----- Status line -----

  /** A status line `version status reason` parses back to its three parts
      when the version has no space (Browser.py:194-196). */
  lemma StatusLineRoundTrip(version: string, status: int, reason: string)
    requires ' ' !in version
    ensures ParseStatusLine(version + " " + Numbers.ShowInt(status) + " " + reason) ==
              Ok(StatusLine(version, status, reason))
  {
    var code := Numbers.ShowInt(status);
    var rest := code + " " + reason;
    var line := version + " " + code + " " + reason;
    assert line == version + " " + rest;
    FindAfterPrefix(version, " ", rest);
    assert SplitOnce(line, " ") == Some((version, rest)) by {
      assert line[..|version|] == version && line[|version| + 1..] == rest;
    }
    ShowIntHasNoSpace(status);
    FindAfterPrefix(code, " ", reason);
    assert SplitOnce(rest, " ") == Some((code, reason)) by {
      assert rest[..|code|] == code && rest[|code| + 1..] == reason;
    }
    Numbers.ParseShowInt(status);
  }

  /** A line `version code reason` with no space in the first two fields
      is split there; the status is whatever `int(code)` gives, in any
      form it accepts, and a code it refuses is BadStatusLine
      (Browser.py:194-200). */
  lemma StatusLineFields(version: string, code: string, reason: string)
    requires ' ' !in version && ' ' !in code
    ensures ParseStatusLine(version + " " + code + " " + reason) ==
            match Numbers.ParseInt(code)
            case None => Err(BadStatusLine)
            case Some(n) => Ok(StatusLine(version, n, reason))
  {
    var rest := code + " " + reason;
    var line := version + " " + code + " " + reason;
    assert line == version + " " + rest;
    FindAfterPrefix(version, " ", rest);
    assert SplitOnce(line, " ") == Some((version, rest)) by {
      assert line[..|version|] == version && line[|version| + 1..] == rest;
    }
    FindAfterPrefix(code, " ", reason);
    assert SplitOnce(rest, " ") == Some((code, reason)) by {
      assert rest[..|code|] == code && rest[|code| + 1..] == reason;
    }
  }

  /** A status line without a space cannot be split into its fields. */
  lemma NoSpaceRejected(line: string)
    requires ' ' !in line
    ensures ParseStatusLine(line) == Err(BadStatusLine)
  {
    ContainsChar(line, ' ');
  }

  /** A status field with a sign and a leading zero still gives its value. */
  lemma SignedStatusField()
    ensures ParseStatusLine("HTTP/1.1 +0200 OK") == Ok(StatusLine("HTTP/1.1", 200, "OK"))
  {
    assert "HTTP/1.1 +0200 OK" == "HTTP/1.1" + " " + "+0200" + " " + "OK";
    SignedLeadingZero();
    StatusLineFields("HTTP/1.1", "+0200", "OK");
  }

  /** `int("+0200") == 200` */
  lemma SignedLeadingZero()
    ensures Numbers.ParseInt("+0200") == Some(200)
  {
    var t := "+0200";
    assert Numbers.IntStrip(t) == t by {
      assert !Numbers.IntSpace(t[0]) && !Numbers.IntSpace(t[|t| - 1]);
    }
    var ds := "0200";
    assert t[1..] == ds;
    assert Numbers.AllDigits(ds, 10) && Numbers.Grouped(ds, 10) by {
      assert ds[0] == '0' && ds[1] == '2' && ds[2] == '0' && ds[3] == '0';
    }
    Numbers.RemoveUnderscoresNone(ds, 10);
    assert "0"[..0] == "" && "02"[..1] == "0" && "020"[..2] == "02" && ds[..3] == "020";
    assert Numbers.Value("0", 10) == 0;
    assert Numbers.Value("02", 10) == 2;
    assert Numbers.Value("020", 10) == 20;
    assert Numbers.Value(ds, 10) == 200;
  }

  lemma ShowIntHasNoSpace(n: int)
    ensures ' ' !in Numbers.ShowInt(n)
  {
    var m := if n < 0 then -n else n;
    var d := Numbers.Show(m, 10);
    assert forall k :: 0 <= k < |d| ==> Numbers.IsDigit(d[k], 10);
    assert forall k :: 0 <= k < |d| ==> d[k] != ' ';
  }

  /** A status line without a reason phrase is rejected, since the line is
      stripped before it is split (Browser.py:187, 195). */
  lemma StatusLineNeedsReason(version: string, status: int)
    requires ' ' !in version
    ensures ParseStatusLine(version + " " + Numbers.ShowInt(status)) == Err(BadStatusLine)
  {
    var code := Numbers.ShowInt(status);
    var line := version + " " + code;
    FindAfterPrefix(version, " ", code);
    assert SplitOnce(line, " ") == Some((version, code)) by {
      assert line[..|version|] == version && line[|version| + 1..] == code;
    }
    ShowIntHasNoSpace(status);
    ContainsChar(code, ' ');
  }

  // ----- The request -----

  /** Lines each followed by the separator are the pieces of the text
      split at it, with an empty last piece. */
  lemma {:induction false} JoinTerminated(lines: seq<string>, parts: seq<string>, sep: char)
    requires |parts| == |lines|
    requires forall k :: 0 <= k < |lines| ==> parts[k] == lines[k] + [sep]
    ensures Join(lines + [""], sep) == Concat(parts)
  {
    if lines != [] {
      JoinTerminated(lines[1..], parts[1..], sep);
      assert (lines + [""])[1..] == lines[1..] + [""];
    }
  }

  /** The request consists of exactly the request line, the Host,
      Connection, User-Agent and Accept-Encoding headers in that order and
      an empty line, each ended by CRLF (Browser.py:173-182), provided the
      host, path and user agent hold no line feed. */
  lemma RequestLayout(host: string, path: string, userAgent: string)
    requires '\n' !in host && '\n' !in path && '\n' !in userAgent
    ensures Split(RequestText(host, path, userAgent), '\n') == RequestLines(host, path, userAgent) + [""]
  {
    RequestJoined(host, path, userAgent);
    RequestLinesHaveNoLf(host, path, userAgent);
    SplitJoin(RequestLines(host, path, userAgent) + [""], '\n');
  }

  /** The request text is its lines joined by line feeds. */
  lemma RequestJoined(host: string, path: string, userAgent: string)
    ensures Join(RequestLines(host, path, userAgent) + [""], '\n') == RequestText(host, path, userAgent)
  {
    var parts := ["GET " + path + " HTTP/1.1\r\n"] + RequestHeaders(host, userAgent);
    assert parts[1..] == RequestHeaders(host, userAgent);
    assert Concat(parts) == RequestText(host, path, userAgent);
    JoinTerminated(RequestLines(host, path, userAgent), parts, '\n');
  }

  lemma RequestLinesHaveNoLf(host: string, path: string, userAgent: string)
    requires '\n' !in host && '\n' !in path && '\n' !in userAgent
    ensures forall k :: 0 <= k < |RequestLines(host, path, userAgent) + [""]| ==> '\n' !in (RequestLines(host, path, userAgent) + [""])[k]
  {
  }

  // ----- Chunked transfer coding -----

  /** The bytes of a string of ASCII characters, one per character. */
  function AsciiBytes(s: string): (r: seq<byte>)
    ensures |r| == |s|
  {
    seq(|s|, k requires 0 <= k < |s| => (s[k] as int % 256) as byte)
  }

  /** One chunk as section 7.1 of RFC 9112 frames it: its size line
      `hex`, CRLF, the data, CRLF. */
  function Frame(hex: string, chunk: seq<byte>): seq<byte>
  {
    AsciiBytes(hex) + [13, 10] + chunk + [13, 10]
  }

  /** `hex` is a size line that gives the length of `chunk`, a chunk that
      is not the last one. */
  predicate SizedBy(hex: string, chunk: seq<byte>)
  {
    chunk != [] && hex != [] && Numbers.AllDigits(hex, 16) && Numbers.ParseHex(hex) == Some(|chunk|)
  }

  /** Every frame's size line gives the length of its chunk. */
  predicate AllSizedBy(frames: seq<(string, seq<byte>)>)
  {
    frames == [] || (SizedBy(frames[0].0, frames[0].1) && AllSizedBy(frames[1..]))
  }

  /** The frames one after another, then the last chunk `0` and the empty
      line that ends the body. */
  function EncodeChunked(frames: seq<(string, seq<byte>)>): seq<byte>
  {
    if frames == [] then [48, 13, 10, 13, 10]
    else Frame(frames[0].0, frames[0].1) + EncodeChunked(frames[1..])
  }

  /** The data of the frames, concatenated. */
  function Payload(frames: seq<(string, seq<byte>)>): seq<byte>
  {
    if frames == [] then [] else frames[0].1 + Payload(frames[1..])
  }

  /** `readline` stops right after the first LF. */
  lemma {:induction false} LineEndAt(data: seq<byte>, pos: nat, n: nat)
    requires 0 < n && pos + n <= |data|
    requires forall k :: pos <= k < pos + n - 1 ==> data[k] != LF
    requires data[pos + n - 1] == LF
    ensures LineEnd(data, pos) == pos + n
    decreases n
  {
    if n > 1 {
      LineEndAt(data, pos + 1, n - 1);
    }
  }

  /** ASCII text is the same in UTF-8 as in ASCII. */
  lemma {:induction false} AsciiIsUtf8(t: string)
    requires forall k :: 0 <= k < |t| ==> t[k] as int < 0x80
    ensures Utf8.Encode(t) == AsciiBytes(t)
  {
    if t != [] {
      AsciiIsUtf8(t[1..]);
      assert Utf8.EncodeChar(t[0]) == [t[0] as int as byte];
      assert AsciiBytes(t) == [t[0] as int as byte] + AsciiBytes(t[1..]);
    }
  }

  /** Hexadecimal digits are ASCII, and none of them is a LF. */
  lemma DigitsAscii(text: string)
    requires Numbers.AllDigits(text, 16)
    ensures forall k :: 0 <= k < |text| ==> text[k] as int < 0x80 && AsciiBytes(text)[k] != LF
  {
    forall k | 0 <= k < |text|
      ensures text[k] as int < 0x80 && AsciiBytes(text)[k] != LF
    {
      assert Numbers.IsDigit(text[k], 16);
    }
  }

  /** A line of hexadecimal digits and CRLF is the same in UTF-8 as in
      ASCII, and only its last byte is a LF. */
  lemma DigitLine(text: string)
    requires Numbers.AllDigits(text, 16)
    ensures Utf8.Encode(text + "\r\n") == AsciiBytes(text) + [13, 10]
    ensures forall k :: 0 <= k < |text| ==> AsciiBytes(text)[k] != LF
  {
    var t := text + "\r\n";
    DigitsAscii(text);
    assert forall k :: 0 <= k < |t| ==> t[k] as int < 0x80 by {
      forall k | 0 <= k < |t|
        ensures t[k] as int < 0x80
      {
        if k < |text| {
          assert t[k] == text[k];
        }
      }
    }
    AsciiIsUtf8(t);
    AsciiAppend(text, "\r\n");
    CrLfAscii();
  }

  lemma CrLfAscii()
    ensures AsciiBytes("\r\n") == [13, 10]
  {
    var c := AsciiBytes("\r\n");
    assert c[0] == 13 && c[1] == 10;
  }

  lemma AsciiAppend(a: string, b: string)
    ensures AsciiBytes(a + b) == AsciiBytes(a) + AsciiBytes(b)
  {
    var l, r := AsciiBytes(a + b), AsciiBytes(a) + AsciiBytes(b);
    forall k | 0 <= k < |a + b|
      ensures l[k] == r[k]
    {
      if k < |a| {
        assert (a + b)[k] == a[k];
      } else {
        assert (a + b)[k] == b[k - |a|];
      }
    }
  }

  /** The two halves of a run of bytes found at `pos`. */
  lemma SliceSplit(data: seq<byte>, pos: nat, a: seq<byte>, b: seq<byte>)
    requires pos + |a + b| <= |data| && data[pos..pos + |a + b|] == a + b
    ensures pos + |a| + |b| == pos + |a + b|
    ensures data[pos..pos + |a|] == a
    ensures data[pos + |a|..pos + |a| + |b|] == b
  {
    var f := data[pos..pos + |a + b|];
    assert data[pos..pos + |a|] == f[..|a|];
    assert data[pos + |a|..pos + |a| + |b|] == f[|a|..];
  }

  /** The three pieces of a run of bytes found at `pos`. */
  lemma SliceParts(data: seq<byte>, pos: nat, a: seq<byte>, b: seq<byte>, c: seq<byte>)
    requires pos + |a + b + c| <= |data| && data[pos..pos + |a + b + c|] == a + b + c
    ensures data[pos..pos + |a|] == a
    ensures data[pos + |a|..pos + |a| + |b|] == b
    ensures data[pos + |a| + |b|..pos + |a + b + c|] == c
  {
    SliceSplit(data, pos, a + b, c);
    SliceSplit(data, pos, a, b);
  }

  /** Reading a size line `text` CRLF at `pos` gives `text`. */
  lemma SizeLine(data: seq<byte>, pos: nat, text: string, e: seq<byte>, end: nat)
    requires text != [] && Numbers.AllDigits(text, 16)
    requires e == AsciiBytes(text) + [13, 10]
    requires end == pos + |e| && end <= |data| && data[pos..end] == e
    ensures ReadLineText(data, pos) == Ok((text, end))
  {
    DigitLine(text);
    forall k | pos <= k < end - 1
      ensures data[k] != LF
    {
      assert data[k] == data[pos..end][k - pos];
    }
    assert data[end - 1] == data[pos..end][|e| - 1];
    LineEndAt(data, pos, |e|);
    Utf8.DecodeEncode(text + "\r\n");
    assert IsDigit16(text[0]) && IsDigit16(text[|text| - 1]);
    StripTrailingSpace(text, "\r\n");
    ReadLineTextOf(data, pos, end, text + "\r\n", text);
  }

  /** `readline` with its decoding and stripping, from what each gives. */
  lemma ReadLineTextOf(data: seq<byte>, pos: nat, end: nat, raw: string, text: string)
    requires pos <= end <= |data| && LineEnd(data, pos) == end
    requires Utf8.Decode(data[pos..end]) == Some(raw) && Strip(raw) == text
    ensures ReadLineText(data, pos) == Ok((text, end))
  {
  }

  predicate IsDigit16(c: char)
    ensures IsDigit16(c) ==> !IsSpace(c)
  {
    Numbers.IsDigit(c, 16)
  }

  lemma ReadExact(data: seq<byte>, pos: nat, chunk: seq<byte>, end: nat)
    requires end == pos + |chunk| && end <= |data| && data[pos..end] == chunk
    ensures ReadN(data, pos, |chunk|) == Ok((chunk, end))
  {
  }

  lemma ChunkedBodyNext(data: seq<byte>, pos: nat, chunk: seq<byte>, next: nat)
    requires pos <= |data| && NextChunk(data, pos) == Ok((Some(chunk), next))
    ensures ChunkedBody(data, pos) == PrependBytes(chunk, ChunkedBody(data, next))
  {
  }

  lemma ChunkedBodyLast(data: seq<byte>, pos: nat, next: nat)
    requires pos <= |data| && NextChunk(data, pos) == Ok((None, next))
    ensures ChunkedBody(data, pos) == Ok(([], next))
  {
  }

  /** A CRLF at `pos` is a line on its own. */
  lemma CrLfLine(data: seq<byte>, pos: nat, end: nat)
    requires end == pos + 2 && end <= |data| && data[pos..end] == [13, 10]
    ensures LineEnd(data, pos) == end
  {
    assert data[pos] == data[pos..pos + 2][0];
    assert data[pos + 1] == data[pos..pos + 2][1];
    LineEndAt(data, pos, 2);
  }

  /** The loop's step, from what each read in it gives. */
  lemma NextChunkOfParts(data: seq<byte>, pos: nat, sizeLine: string, p1: nat, size: int,
                         chunk: seq<byte>, p2: nat, p3: nat)
    requires pos <= |data|
    requires ReadLineText(data, pos) == Ok((sizeLine, p1))
    requires sizeLine != [] && Numbers.ParseHex(sizeLine) == Some(size) && size != 0
    requires ReadN(data, p1, size) == Ok((chunk, p2))
    requires p2 <= |data| && LineEnd(data, p2) == p3
    ensures NextChunk(data, pos) == Ok((Some(chunk), p3))
  {
  }

  /** A size line that `int(line, 16)` refuses ends the chunked read with
      BadChunkSize, and so the whole body. */
  lemma BadSizeLine(data: seq<byte>, pos: nat, sizeLine: string, p1: nat, headers: map<string, string>)
    requires pos <= |data|
    requires ReadLineText(data, pos) == Ok((sizeLine, p1))
    requires sizeLine != [] && !Numbers.HexLiteral(Strip(sizeLine))
    ensures NextChunk(data, pos) == Err(BadChunkSize)
    ensures ChunkedBody(data, pos) == Err(BadChunkSize)
    ensures IsChunked(headers) ==> Body(data, pos, headers) == Err(BadChunkSize)
  {
  }

  /** A size line `hex`, its chunk and a CRLF at `pos`: the chunk is read
      back whole and the reading stops right after the CRLF. */
  predicate LaidOut(data: seq<byte>, pos: nat, head: seq<byte>, chunk: seq<byte>, p1: nat, p2: nat, end: nat)
  {
    && p1 == pos + |head| && p2 == p1 + |chunk| && end == p2 + 2 && end <= |data|
    && data[pos..p1] == head && data[p1..p2] == chunk && data[p2..end] == [13, 10]
  }

  lemma ChunkAt(data: seq<byte>, pos: nat, hex: string, head: seq<byte>, chunk: seq<byte>,
                p1: nat, p2: nat, end: nat)
    requires SizedBy(hex, chunk) && head == AsciiBytes(hex) + [13, 10]
    requires LaidOut(data, pos, head, chunk, p1, p2, end)
    ensures NextChunk(data, pos) == Ok((Some(chunk), end))
  {
    // The reads after the size line first: a fact about ReadLineText in
    // scope makes every later step expensive.
    ReadExact(data, p1, chunk, p2);
    CrLfLine(data, p2, end);
    SizeLine(data, pos, hex, head, p1);
    NextChunkOfParts(data, pos, hex, p1, |chunk|, chunk, p2, end);
  }

  /** The first frame of a chunked coding at `pos`, and the rest after it. */
  lemma FirstFrame(data: seq<byte>, pos: nat, frames: seq<(string, seq<byte>)>,
                   head: seq<byte>, p1: nat, p2: nat, next: nat, end: nat)
    requires frames != [] && end == pos + |EncodeChunked(frames)| && end <= |data|
    requires data[pos..end] == EncodeChunked(frames)
    requires head == AsciiBytes(frames[0].0) + [13, 10]
    requires p1 == pos + |head| && p2 == p1 + |frames[0].1| && next == p2 + 2
    ensures LaidOut(data, pos, head, frames[0].1, p1, p2, next)
    ensures end == next + |EncodeChunked(frames[1..])| && data[next..end] == EncodeChunked(frames[1..])
  {
    var tail := EncodeChunked(frames[1..]);
    SliceSplit(data, pos, Frame(frames[0].0, frames[0].1), tail);
    SliceParts(data, pos, head, frames[0].1, [13, 10]);
  }

  /** The size line a server writes, `format(len, "x")`, gives the length
      back. */
  lemma ShowHexSizes(chunk: seq<byte>)
    requires chunk != []
    ensures SizedBy(Numbers.ShowHex(|chunk|), chunk)
  {
    Numbers.ParseShowHex(|chunk|);
  }

  /** The last chunk at `pos` ends the loop after the empty line that
      follows it. */
  lemma LastChunkStep(data: seq<byte>, pos: nat)
    requires pos + 5 <= |data| && data[pos..pos + 5] == [48, 13, 10, 13, 10]
    ensures NextChunk(data, pos) == Ok((None, pos + 5))
  {
    assert Numbers.AllDigits("0", 16);
    assert AsciiBytes("0") == [48];
    SliceParts(data, pos, [48, 13, 10], [13, 10], []);
    CrLfLine(data, pos + 3, pos + 5);
    assert Numbers.ParseHex("0") == Some(0) by {
      assert Numbers.ShowHex(0) == "0";
      Numbers.ParseShowHex(0);
    }
    SizeLine(data, pos, "0", [48, 13, 10], pos + 3);
  }

  /** One step of the loop in front of the rest of the body. */
  lemma ChunkedBodyStep(data: seq<byte>, pos: nat, frames: seq<(string, seq<byte>)>, next: nat, end: nat)
    requires frames != [] && pos <= |data| && NextChunk(data, pos) == Ok((Some(frames[0].1), next))
    requires ChunkedBody(data, next) == Ok((Payload(frames[1..]), end))
    ensures ChunkedBody(data, pos) == Ok((Payload(frames), end))
  {
  }

  /** Decoding the chunked coding gives back the data of its frames,
      concatenated in order, and stops right after the coding (at `end`),
      whatever follows it. */
  lemma {:induction false} ChunkedRoundTrip(data: seq<byte>, pos: nat, frames: seq<(string, seq<byte>)>, end: nat)
    requires AllSizedBy(frames)
    requires end == pos + |EncodeChunked(frames)| && end <= |data| && data[pos..end] == EncodeChunked(frames)
    ensures ChunkedBody(data, pos) == Ok((Payload(frames), end))
    decreases |frames|
  {
    if frames == [] {
      LastChunkStep(data, pos);
      ChunkedBodyLast(data, pos, end);
    } else {
      var hex, chunk := frames[0].0, frames[0].1;
      var head := AsciiBytes(hex) + [13, 10];
      var p1 := pos + |head|;
      var p2 := p1 + |chunk|;
      var next := p2 + 2;
      FirstFrame(data, pos, frames, head, p1, p2, next, end);
      ChunkAt(data, pos, hex, head, chunk, p1, p2, next);
      ChunkedRoundTrip(data, next, frames[1..], end);
      ChunkedBodyStep(data, pos, frames, next, end);
    }
  }
}
