/** The wire side of `URL.request` (Browser.py:173-266): the request text,
    and reading the status line, the headers and the body from the
    response stream `s.makefile("rb")`. The stream is the bytes the server
    sends and a cursor into them. */
module Http {

  import opened Common
  import opened Text
  import Numbers
  import Utf8

  const LF: byte := 10

  /** Where `readline()` called at `pos` stops: just past the next LF, or at
      the end of the stream. */
  function LineEnd(data: seq<byte>, pos: nat): (e: nat)
    requires pos <= |data|
    ensures pos <= e <= |data|
    ensures e == pos <==> pos == |data|
    ensures forall k :: pos <= k < e - 1 ==> data[k] != LF
    ensures pos < e ==> data[e - 1] == LF || e == |data|
    decreases |data| - pos
  {
    if pos == |data| then pos
    else if data[pos] == LF then pos + 1
    else LineEnd(data, pos + 1)
  }

  /** `read(n)` at `pos`: at most `n` bytes, everything left when `n` is -1,
      and ValueError for any other negative `n`. Gives the bytes and the new
      position. */
  function ReadN(data: seq<byte>, pos: nat, n: int): (r: Result<(seq<byte>, nat)>)
    requires pos <= |data|
    ensures r.Err? <==> n < -1
    ensures r.Ok? ==> pos <= r.value.1 <= |data| && r.value.0 == data[pos..r.value.1]
    ensures r.Ok? && n >= 0 ==> |r.value.0| == if pos + n <= |data| then n else |data| - pos
    ensures r.Ok? && n == -1 ==> r.value.1 == |data|
  {
    if n == -1 then Ok((data[pos..], |data|))
    else if n < -1 then Err(BadReadLength)
    else
      var e := if pos + n <= |data| then pos + n else |data|;
      Ok((data[pos..e], e))
  }

  /** `readline().decode("utf8").strip()` at `pos`: the stripped text of the
      line and the position after it. A line with text in it always moves
      the position. */
  function ReadLineText(data: seq<byte>, pos: nat): (r: Result<(string, nat)>)
    requires pos <= |data|
    ensures r.Ok? ==> r.value.1 == LineEnd(data, pos)
    ensures r.Ok? && r.value.0 != [] ==> r.value.1 > pos
    ensures r.Err? ==> r.error == BadUtf8
  {
    var e := LineEnd(data, pos);
    match Utf8.Decode(data[pos..e])
    case None => Err(BadUtf8)
    case Some(text) => Ok((Strip(text), e))
  }

  /** The response stream of one exchange. */
  class Reader {
    const data: seq<byte>
    var pos: nat

    ghost predicate Valid()
      reads this
    {
      pos <= |data|
    }

    constructor (data: seq<byte>)
      ensures Valid() && this.data == data && pos == 0
    {
      this.data := data;
      pos := 0;
    }

    /** `readline()` */
    method ReadLine() returns (line: seq<byte>)
      requires Valid()
      modifies this
      ensures Valid() && pos == LineEnd(data, old(pos)) && line == data[old(pos)..pos]
    {
      var e := LineEnd(data, pos);
      line := data[pos..e];
      pos := e;
    }

    /** `readline().decode("utf8").strip()` */
    method ReadText() returns (r: Result<string>)
      requires Valid()
      modifies this
      ensures Valid()
      ensures r.Ok? == ReadLineText(data, old(pos)).Ok?
      ensures r.Ok? ==> r.value == ReadLineText(data, old(pos)).value.0 && pos == ReadLineText(data, old(pos)).value.1
      ensures r.Err? ==> r.error == BadUtf8
    {
      var raw := ReadLine();
      var decoded := Utf8.Decode(raw);
      if decoded.None? {
        return Err(BadUtf8);
      }
      r := Ok(Strip(decoded.value));
    }

    /** `read(n)` */
    method Read(n: int) returns (r: Result<seq<byte>>)
      requires Valid()
      modifies this
      ensures Valid()
      ensures r.Ok? == ReadN(data, old(pos), n).Ok?
      ensures r.Ok? ==> r.value == ReadN(data, old(pos), n).value.0 && pos == ReadN(data, old(pos), n).value.1
      ensures r.Err? ==> r.error == BadReadLength && pos == old(pos)
    {
      if n < -1 {
        return Err(BadReadLength);
      }
      var e := if n == -1 || pos + n > |data| then |data| else pos + n;
      r := Ok(data[pos..e]);
      pos := e;
    }
  }

  // ----- The request (Browser.py:173-182) -----

  /** The request line and exactly the four headers Host, Connection,
      User-Agent and Accept-Encoding, in that order, then the empty line
      that ends the head; each line ends in a carriage return once the text
      is split at its line feeds. */
  function RequestLines(host: string, path: string, userAgent: string): seq<string>
  {
    ["GET " + path + " HTTP/1.1\r",
     "Host: " + host + "\r",
     "Connection: keep-alive\r",
     "User-Agent: " + userAgent + "\r",
     "Accept-Encoding: gzip\r",
     "\r"]
  }

  /** The list `headers` of Browser.py:173-179. */
  function RequestHeaders(host: string, userAgent: string): seq<string>
  {
    ["Host: " + host + "\r\n",
     "Connection: " + "keep-alive" + "\r\n",
     "User-Agent: " + userAgent + "\r\n",
     "Accept-Encoding: " + "gzip" + "\r\n",
     "\r\n"]
  }

  function Concat(parts: seq<string>): string
  {
    if parts == [] then [] else parts[0] + Concat(parts[1..])
  }

  /** The text `request` holds when it is sent: the request line followed
      by every header in turn. */
  function RequestText(host: string, path: string, userAgent: string): string
  {
    "GET " + path + " HTTP/1.1\r\n" + Concat(RequestHeaders(host, userAgent))
  }

  lemma ConcatSnoc(parts: seq<string>, k: nat)
    requires k < |parts|
    ensures Concat(parts[k..]) == parts[k] + Concat(parts[k + 1..])
  {
    assert parts[k..][1..] == parts[k + 1..];
  }

  /** Browser.py:180-182 */
  method BuildRequest(host: string, path: string, userAgent: string) returns (request: string)
    ensures request == RequestText(host, path, userAgent)
  {
    var headers := RequestHeaders(host, userAgent);
    request := "GET " + path + " HTTP/1.1\r\n";
    for k := 0 to |headers|
      invariant request + Concat(headers[k..]) == RequestText(host, path, userAgent)
    {
      ConcatSnoc(headers, k);
      request := request + headers[k];
    }
  }

  // ----- Status line (Browser.py:187-200) -----

  datatype StatusLine = StatusLine(version: string, status: int, reason: string)

  /** `version, status, explanation = line.split(" ", 2)` and `int(status)`:
      the line needs two spaces, and the text between them must pass
      `int()`. */
  function ParseStatusLine(line: string): (r: Result<StatusLine>)
    ensures r.Err? ==> r.error == BadStatusLine
  {
    match SplitOnce(line, " ")
    case None => Err(BadStatusLine)
    case Some((version, afterVersion)) =>
      match SplitOnce(afterVersion, " ")
      case None => Err(BadStatusLine)
      case Some((code, reason)) =>
        match Numbers.ParseInt(code)
        case None => Err(BadStatusLine)
        case Some(status) => Ok(StatusLine(version, status, reason))
  }

  // ----- Headers (Browser.py:202-211) -----

  /** What one header line contributes: the name before the first colon,
      case-folded but not stripped, and the stripped value after it. A line
      without a colon contributes nothing. */
  function HeaderField(line: string): Option<(string, string)>
  {
    match SplitOnce(line, ":")
    case None => None
    case Some((name, value)) => Some((Lower(name), Strip(value)))
  }

  /** `response_headers` after the given lines, in order: a later line with
      the same name overwrites an earlier one. */
  function HeaderMap(lines: seq<string>): map<string, string>
  {
    if lines == [] then map[]
    else
      var m := HeaderMap(lines[..|lines| - 1]);
      match HeaderField(lines[|lines| - 1])
      case None => m
      case Some((name, value)) => m[name := value]
  }

  /** Puts `lines` in front of the lines a successful read gives. */
  function PrependLines(lines: seq<string>, r: Result<(seq<string>, nat)>): Result<(seq<string>, nat)>
  {
    match r
    case Err(e) => Err(e)
    case Ok((more, e)) => Ok((lines + more, e))
  }

  lemma PrependNoLines(r: Result<(seq<string>, nat)>)
    ensures PrependLines([], r) == r
  {
    if r.Ok? {
      assert [] + r.value.0 == r.value.0;
    }
  }

  lemma PrependLinesTwice(a: seq<string>, b: seq<string>, r: Result<(seq<string>, nat)>)
    ensures PrependLines(a, PrependLines(b, r)) == PrependLines(a + b, r)
  {
    if r.Ok? {
      assert a + (b + r.value.0) == (a + b) + r.value.0;
    }
  }

  lemma HeaderMapSnoc(lines: seq<string>, line: string)
    ensures HeaderMap(lines + [line]) ==
            match HeaderField(line)
            case None => HeaderMap(lines)
            case Some((name, value)) => HeaderMap(lines)[name := value]
  {
    assert (lines + [line])[..|lines|] == lines;
  }

  /** The non-empty header lines read from `pos` up to the first line that
      strips to nothing, and the position after that line. */
  function HeaderLines(data: seq<byte>, pos: nat): (r: Result<(seq<string>, nat)>)
    requires pos <= |data|
    ensures r.Ok? ==> pos <= r.value.1 <= |data| && forall i :: 0 <= i < |r.value.0| ==> r.value.0[i] != []
    ensures r.Err? ==> r.error == BadUtf8
    decreases |data| - pos
  {
    match ReadLineText(data, pos)
    case Err(e) => Err(e)
    case Ok((line, next)) =>
      if line == [] then Ok(([], next))
      else
        match HeaderLines(data, next)
        case Err(e) => Err(e)
        case Ok((more, end)) =>
          NonEmptyCons(line, more);
          Ok(([line] + more, end))
  }

  lemma NonEmptyCons(line: string, more: seq<string>)
    requires line != [] && forall i :: 0 <= i < |more| ==> more[i] != []
    ensures forall i :: 0 <= i < |[line] + more| ==> ([line] + more)[i] != []
  {
    assert forall i :: 0 < i < |[line] + more| ==> ([line] + more)[i] == more[i - 1];
  }

  /** The header block read from `pos`: the header map and the position of
      the body. */
  function HeaderBlock(data: seq<byte>, pos: nat): (r: Result<(map<string, string>, nat)>)
    requires pos <= |data|
    ensures r.Ok? ==> pos <= r.value.1 <= |data|
  {
    match HeaderLines(data, pos)
    case Err(e) => Err(e)
    case Ok((lines, e)) => Ok((HeaderMap(lines), e))
  }

  /** The `while True` loop that fills `response_headers`. */
  method ReadHeaders(rd: Reader) returns (r: Result<map<string, string>>)
    requires rd.Valid()
    modifies rd
    ensures rd.Valid()
    ensures match HeaderBlock(rd.data, old(rd.pos))
            case Ok((m, e)) => r == Ok(m) && rd.pos == e
            case Err(x) => r == Err(x)
  {
    var headers: map<string, string> := map[];
    ghost var start := rd.pos;
    ghost var lines: seq<string> := [];
    PrependNoLines(HeaderLines(rd.data, start));
    while true
      invariant rd.Valid()
      invariant headers == HeaderMap(lines)
      invariant HeaderLines(rd.data, start) == PrependLines(lines, HeaderLines(rd.data, rd.pos))
      decreases |rd.data| - rd.pos
    {
      ghost var before := rd.pos;
      var line := rd.ReadText();
      if line.Err? {
        return Err(line.error);
      }
      if line.value == "" {
        PrependNoLines(HeaderLines(rd.data, rd.pos));
        PrependLinesTwice(lines, [], Ok(([], rd.pos)));
        assert lines + [] == lines;
        break;
      }
      match SplitOnce(line.value, ":") {
        case None =>
        case Some((name, value)) =>
          headers := headers[Lower(name) := Strip(value)];
      }
      HeaderMapSnoc(lines, line.value);
      PrependLinesTwice(lines, [line.value], HeaderLines(rd.data, rd.pos));
      lines := lines + [line.value];
    }
    return Ok(headers);
  }

  // ----- Body (Browser.py:241-266) -----

  /** Puts `prefix` in front of the bytes a successful read gives. */
  function PrependBytes(prefix: seq<byte>, r: Result<(seq<byte>, nat)>): Result<(seq<byte>, nat)>
  {
    match r
    case Err(e) => Err(e)
    case Ok((more, e)) => Ok((prefix + more, e))
  }

  lemma PrependNoBytes(r: Result<(seq<byte>, nat)>)
    ensures PrependBytes([], r) == r
  {
    if r.Ok? {
      assert [] + r.value.0 == r.value.0;
    }
  }

  lemma PrependBytesTwice(a: seq<byte>, b: seq<byte>, r: Result<(seq<byte>, nat)>)
    ensures PrependBytes(a, PrependBytes(b, r)) == PrependBytes(a + b, r)
  {
    if r.Ok? {
      assert a + (b + r.value.0) == (a + b) + r.value.0;
    }
  }

  /** One turn of the chunk loop from `pos`: `None` when the loop stops (an
      empty size line, or size zero, whose following line is skipped),
      otherwise the chunk read after its size line. The line after a chunk
      is skipped unread. A size line that is not a hexadecimal `int` is
      BadChunkSize. */
  function NextChunk(data: seq<byte>, pos: nat): (r: Result<(Option<seq<byte>>, nat)>)
    requires pos <= |data|
    ensures r.Ok? ==> pos <= r.value.1 <= |data|
    ensures r.Ok? && r.value.0.Some? ==> pos < r.value.1
  {
    match ReadLineText(data, pos)
    case Err(e) => Err(e)
    case Ok((sizeLine, p1)) =>
      if sizeLine == [] then Ok((None, p1))
      else
        match Numbers.ParseHex(sizeLine)
        case None => Err(BadChunkSize)
        case Some(size) =>
          if size == 0 then Ok((None, LineEnd(data, p1)))
          else
            match ReadN(data, p1, size)
            case Err(e) => Err(e)
            case Ok((chunk, p2)) => Ok((Some(chunk), LineEnd(data, p2)))
  }

  /** The chunked body read from `pos`: the chunks up to the one that stops
      the loop, concatenated. */
  function ChunkedBody(data: seq<byte>, pos: nat): (r: Result<(seq<byte>, nat)>)
    requires pos <= |data|
    ensures r.Ok? ==> pos <= r.value.1 <= |data|
    decreases |data| - pos
  {
    match NextChunk(data, pos)
    case Err(e) => Err(e)
    case Ok((None, e)) => Ok(([], e))
    case Ok((Some(chunk), e)) => PrependBytes(chunk, ChunkedBody(data, e))
  }

  /** The body of the chunk loop, once. */
  method ReadChunk(rd: Reader) returns (r: Result<Option<seq<byte>>>)
    requires rd.Valid()
    modifies rd
    ensures rd.Valid()
    ensures match NextChunk(rd.data, old(rd.pos))
            case Ok((c, e)) => r == Ok(c) && rd.pos == e
            case Err(x) => r == Err(x)
  {
    var sizeLine := rd.ReadText();
    if sizeLine.Err? {
      return Err(sizeLine.error);
    }
    if sizeLine.value == "" {
      return Ok(None);
    }
    var size := Numbers.ParseHex(sizeLine.value);
    if size.None? {
      return Err(BadChunkSize);
    }
    if size.value == 0 {
      var _ := rd.ReadLine();
      return Ok(None);
    }
    var chunk := rd.Read(size.value);
    if chunk.Err? {
      return Err(chunk.error);
    }
    var _ := rd.ReadLine();
    r := Ok(Some(chunk.value));
  }

  /** The chunked-transfer loop. */
  method ReadChunked(rd: Reader) returns (r: Result<seq<byte>>)
    requires rd.Valid()
    modifies rd
    ensures rd.Valid()
    ensures match ChunkedBody(rd.data, old(rd.pos))
            case Ok((b, e)) => r == Ok(b) && rd.pos == e
            case Err(x) => r == Err(x)
  {
    var content: seq<byte> := [];
    ghost var start := rd.pos;
    PrependNoBytes(ChunkedBody(rd.data, start));
    while true
      invariant rd.Valid()
      invariant ChunkedBody(rd.data, start) == PrependBytes(content, ChunkedBody(rd.data, rd.pos))
      decreases |rd.data| - rd.pos
    {
      var chunk := ReadChunk(rd);
      if chunk.Err? {
        return Err(chunk.error);
      }
      if chunk.value.None? {
        assert content + [] == content;
        break;
      }
      PrependBytesTwice(content, chunk.value.value, ChunkedBody(rd.data, rd.pos));
      content := content + chunk.value.value;
    }
    return Ok(content);
  }

  /** `"chunked"` after strip and lower. */
  predicate IsChunked(headers: map<string, string>)
  {
    "transfer-encoding" in headers && Lower(Strip(headers["transfer-encoding"])) == "chunked"
  }

  /** The body read from `pos`: chunked when the transfer encoding says so;
      else `read(int(content-length))`, where a length that is not an `int`
      is BadContentLength; else everything up to the end of the stream. */
  function Body(data: seq<byte>, pos: nat, headers: map<string, string>): (r: Result<seq<byte>>)
    requires pos <= |data|
    ensures IsChunked(headers) ==>
      match ChunkedBody(data, pos)
      case Err(e) => r == Err(e)
      case Ok((b, _)) => r == Ok(b)
    ensures !IsChunked(headers) && "content-length" in headers ==>
      match Numbers.ParseInt(headers["content-length"])
      case None => r == Err(BadContentLength)
      case Some(n) =>
        && (n >= 0 ==> r == Ok(data[pos..if pos + n <= |data| then pos + n else |data|]))
        && (n == -1 ==> r == Ok(data[pos..]))
        && (n < -1 ==> r == Err(BadReadLength))
    ensures !IsChunked(headers) && "content-length" !in headers ==> r == Ok(data[pos..])
  {
    if IsChunked(headers) then
      match ChunkedBody(data, pos)
      case Err(e) => Err(e)
      case Ok((b, _)) => Ok(b)
    else if "content-length" in headers then
      match Numbers.ParseInt(headers["content-length"])
      case None => Err(BadContentLength)
      case Some(n) =>
        match ReadN(data, pos, n)
        case Err(e) => Err(e)
        case Ok((b, _)) => Ok(b)
    else Ok(data[pos..])
  }

  method ReadBody(rd: Reader, headers: map<string, string>) returns (r: Result<seq<byte>>)
    requires rd.Valid()
    modifies rd
    ensures rd.Valid()
    ensures r == Body(rd.data, old(rd.pos), headers)
  {
    if IsChunked(headers) {
      r := ReadChunked(rd);
    } else if "content-length" in headers {
      var n := Numbers.ParseInt(headers["content-length"]);
      if n.None? {
        return Err(BadContentLength);
      }
      r := rd.Read(n.value);
    } else {
      r := rd.Read(-1);
    }
  }
}
