/** Properties of `URL.request` (Browser.py:101-313) over the state it
    reads and writes: the redirect budget, what a redirect keeps, the
    cache, and the sockets the error paths close. */
module FetchFacts {

  import opened Common
  import opened Text
  import opened Urls
  import opened Http
  import opened Caching
  import opened Fetch
  import HttpFacts
  import UrlFacts
  import Utf8

  /** A body read from the network is returned only while fewer than
      `redirects_limit` redirects have been counted (Browser.py:214-239):
      a followed redirect never ends in a result, and a counter at the
      limit makes any other response fail. */
  lemma BodyNeedsBudget(env: Env, now: int, scheme: Scheme, host: string, key: Key, sock: SocketKey,
                        data: seq<byte>, pos: nat, status: int, headers: map<string, string>, st: State)
    requires pos <= |data|
    ensures var r := AfterHeaders(env, now, scheme, host, key, sock, data, pos, status, headers, st);
            r.0.Done? && r.0.result.Ok? ==> st.redirects < RedirectLimit
  {
  }

  /** The same for a whole response: a result read from the network
      needs a counter below the limit. */
  lemma ResponseNeedsBudget(env: Env, now: int, scheme: Scheme, host: string, key: Key, sock: SocketKey,
                            data: seq<byte>, st: State)
    ensures var r := Respond(env, now, scheme, host, key, sock, data, st);
            r.0.Done? && r.0.result.Ok? ==> st.redirects < RedirectLimit
  {
    match ReadLineText(data, 0)
    case Err(_) =>
    case Ok((statusLine, p1)) =>
      if statusLine != "" && ParseStatusLine(statusLine).Ok? && HeaderBlock(data, p1).Ok? {
        var (headers, p2) := HeaderBlock(data, p1).value;
        BodyNeedsBudget(env, now, scheme, host, key, sock, data, p2, ParseStatusLine(statusLine).value.status, headers, st);
      }
  }

  /** With the counter at the limit or past it, every response that is not
      followed fails with TooManyRedirects and closes the socket; so a chain
      of exactly ten redirects, whose last one leaves the counter at 10,
      fails on the final response (Browser.py:214, 236-239). */
  lemma BudgetExhausted(env: Env, now: int, scheme: Scheme, host: string, key: Key, sock: SocketKey,
                        data: seq<byte>, pos: nat, status: int, headers: map<string, string>, st: State)
    requires pos <= |data|
    requires st.redirects >= RedirectLimit
    requires !(st.redirects == RedirectLimit && IsRedirect(status))
    ensures AfterHeaders(env, now, scheme, host, key, sock, data, pos, status, headers, st) ==
              (Done(Err(TooManyRedirects)), Evict(st, sock))
  {
  }

  /** A redirect status followed within the budget (Browser.py:214-233):
      the counter goes up by one; an empty or missing Location is
      MissingLocation and closes the socket; otherwise the resolved
      Location is parsed and becomes the next target. A header map built
      from header lines never holds "Connection", so this path keeps the
      socket open even on `connection: close`. Neither the cache nor the
      response body is touched. */
  lemma RedirectFollowed(env: Env, now: int, scheme: Scheme, host: string, key: Key, sock: SocketKey,
                         data: seq<byte>, pos: nat, status: int, lines: seq<string>, st: State)
    requires pos <= |data|
    requires st.redirects <= RedirectLimit && IsRedirect(status)
    ensures var headers := HeaderMap(lines);
            var r := AfterHeaders(env, now, scheme, host, key, sock, data, pos, status, headers, st);
            var location := Strip(HeaderOr(headers, "location"));
            && r.1.redirects == st.redirects + 1
            && r.1.cache == st.cache
            && (location == "" ==> r.0 == Done(Err(MissingLocation)) && r.1.pool == st.pool - {sock})
            && (location != "" ==>
                  r.1.pool == st.pool &&
                  r.0 == match Parse(Resolve(SchemeName(scheme), host, location))
                         case Ok(u) => Follow(u)
                         case Err(e) => Done(Err(e)))
  {
    HttpFacts.NoCapitalisedConnection(lines);
    assert Lower(HeaderOr(HeaderMap(lines), "Connection")) == "";
  }

  /** A redirect status never changes the cache, although 301 is one of
      the cacheable statuses (Browser.py:214-239, 294). */
  lemma RedirectNotCached(env: Env, now: int, scheme: Scheme, host: string, key: Key, sock: SocketKey,
                          data: seq<byte>, pos: nat, status: int, headers: map<string, string>, st: State)
    requires pos <= |data|
    requires IsRedirect(status)
    ensures AfterHeaders(env, now, scheme, host, key, sock, data, pos, status, headers, st).1.cache == st.cache
  {
  }

  /** An empty status line is NoServerAnswer and a malformed one
      BadStatusLine; both drop the socket from the pool and change nothing
      else (Browser.py:187-200). */
  lemma BadStatusLineCloses(env: Env, now: int, scheme: Scheme, host: string, key: Key, sock: SocketKey,
                            data: seq<byte>, st: State)
    requires ReadLineText(data, 0).Ok?
    ensures var line := ReadLineText(data, 0).value.0;
            var r := Respond(env, now, scheme, host, key, sock, data, st);
            && (line == "" ==> r == (Done(Err(NoServerAnswer)), Evict(st, sock)))
            && (line != "" && ParseStatusLine(line).Err? ==> r == (Done(Err(BadStatusLine)), Evict(st, sock)))
  {
  }

  /** A fresh cache entry answers the request with its decoded content
      and leaves the cache, the pool and the counter as they were
      (Browser.py:129-135). */
  lemma CacheHit(env: Env, userAgent: string, now: int, scheme: Scheme, host: string,
                 port: Option<int>, path: string, st: State)
    requires var key := Key(SchemeName(scheme), host, port, path);
             key in st.cache && Fresh(st.cache[key], now)
    ensures Exchange(env, userAgent, now, scheme, host, port, path, st) ==
              (Done(DecodeText(st.cache[Key(SchemeName(scheme), host, port, path)].content)), st)
  {
  }

  /** One exchange raises the counter by at most one, and only from a
      value within the limit. */
  lemma ExchangeCounter(env: Env, userAgent: string, now: int, scheme: Scheme, host: string,
                        port: Option<int>, path: string, st: State)
    ensures var r := Exchange(env, userAgent, now, scheme, host, port, path, st);
            && (r.1.redirects == st.redirects || r.1.redirects == st.redirects + 1)
            && (r.1.redirects == st.redirects + 1 ==> st.redirects <= RedirectLimit)
  {
    var key := Key(SchemeName(scheme), host, port, path);
    var (hit, cache1) := Lookup(st.cache, key, now);
    var st1 := st.(cache := cache1);
    if hit.None? {
      var sock := (host, port);
      match Fetch.Connect(env, sock, scheme == Https, st1)
      case None =>
      case Some(st2) =>
        var data := env.answer(sock, Utf8.Encode(RequestText(host, path, userAgent)));
        RespondCounter(env, now, scheme, host, key, sock, data, st2);
    }
  }

  lemma RespondCounter(env: Env, now: int, scheme: Scheme, host: string, key: Key, sock: SocketKey,
                       data: seq<byte>, st: State)
    ensures var r := Respond(env, now, scheme, host, key, sock, data, st);
            r.1.redirects == st.redirects + 1 ==> st.redirects <= RedirectLimit
  {
    match ReadLineText(data, 0)
    case Err(_) =>
    case Ok((statusLine, p1)) =>
      if statusLine != "" && ParseStatusLine(statusLine).Ok? && HeaderBlock(data, p1).Ok? {
        var (headers, p2) := HeaderBlock(data, p1).value;
        AfterHeadersCounter(env, now, scheme, host, key, sock, data, p2, ParseStatusLine(statusLine).value.status, headers, st);
      }
  }

  lemma AfterHeadersCounter(env: Env, now: int, scheme: Scheme, host: string, key: Key, sock: SocketKey,
                            data: seq<byte>, pos: nat, status: int, headers: map<string, string>, st: State)
    requires pos <= |data|
    ensures var r := AfterHeaders(env, now, scheme, host, key, sock, data, pos, status, headers, st);
            r.1.redirects == st.redirects + 1 ==> st.redirects <= RedirectLimit
  {
  }

  /** However many redirects a request follows, the counter it leaves lies
      between the one it started from and one past the limit, or the
      starting value if that is already higher (Browser.py:214-216). */
  lemma {:induction false} RequestCounter(env: Env, userAgent: string, now: int, url: Url, st: State)
    ensures var r := Request(env, userAgent, now, url, st);
            st.redirects <= r.1.redirects <= if st.redirects > RedirectLimit then st.redirects else RedirectLimit + 1
    decreases RedirectLimit + 1 - st.redirects
  {
    if url.path.Some? && url.path.value != "about:blank" && url.scheme.Some? &&
       (url.scheme.value == Http || url.scheme.value == Https) {
      var path := url.path.value;
      ExchangeCounter(env, userAgent, now, url.scheme.value, url.host, url.port, path, st);
      match Exchange(env, userAgent, now, url.scheme.value, url.host, url.port, path, st)
      case (Done(_), _) =>
      case (Follow(target), st1) =>
        RequestCounter(env, userAgent, now, target, st1);
    }
  }

  /** No cache entry has an expiry. */
  predicate NeverExpires(cache: Cache)
  {
    forall k :: k in cache ==> cache[k].expiry.None?
  }

  lemma AfterHeadersNeverExpires(env: Env, now: int, scheme: Scheme, host: string, key: Key, sock: SocketKey,
                                 data: seq<byte>, pos: nat, status: int, headers: map<string, string>, st: State)
    requires pos <= |data|
    requires NeverExpires(st.cache)
    ensures NeverExpires(AfterHeaders(env, now, scheme, host, key, sock, data, pos, status, headers, st).1.cache)
  {
    if !(st.redirects <= RedirectLimit && IsRedirect(status)) && st.redirects < RedirectLimit {
      DeliverNeverExpires(env, now, key, sock, data, pos, status, headers, st);
    }
  }

  lemma DeliverNeverExpires(env: Env, now: int, key: Key, sock: SocketKey, data: seq<byte>, pos: nat, status: int,
                            headers: map<string, string>, st: State)
    requires pos <= |data|
    requires NeverExpires(st.cache)
    ensures NeverExpires(Deliver(env, now, key, sock, data, pos, status, headers, st).1.cache)
  {
    match Body(data, pos, headers)
    case Err(_) =>
    case Ok(content) => FinishNeverExpires(env, now, key, sock, status, headers, content, st);
  }

  lemma FinishNeverExpires(env: Env, now: int, key: Key, sock: SocketKey, status: int,
                           headers: map<string, string>, content: seq<byte>, st: State)
    requires NeverExpires(st.cache)
    ensures NeverExpires(Finish(env, now, key, sock, status, headers, content, st).1.cache)
  {
    if Decompress(env, headers, content).Ok? {
      StorePreservesNoExpiry(st.cache, key, status, HeaderOr(headers, "cache-control"), Decompress(env, headers, content).value, now);
    }
  }

  lemma RespondNeverExpires(env: Env, now: int, scheme: Scheme, host: string, key: Key, sock: SocketKey,
                            data: seq<byte>, st: State)
    requires NeverExpires(st.cache)
    ensures NeverExpires(Respond(env, now, scheme, host, key, sock, data, st).1.cache)
  {
    match ReadLineText(data, 0)
    case Err(_) =>
    case Ok((statusLine, p1)) =>
      if statusLine != "" && ParseStatusLine(statusLine).Ok? && HeaderBlock(data, p1).Ok? {
        var (headers, p2) := HeaderBlock(data, p1).value;
        AfterHeadersNeverExpires(env, now, scheme, host, key, sock, data, p2, ParseStatusLine(statusLine).value.status, headers, st);
      }
  }

  lemma ExchangeNeverExpires(env: Env, userAgent: string, now: int, scheme: Scheme, host: string,
                             port: Option<int>, path: string, st: State)
    requires NeverExpires(st.cache)
    ensures NeverExpires(Exchange(env, userAgent, now, scheme, host, port, path, st).1.cache)
  {
    var key := Key(SchemeName(scheme), host, port, path);
    var (hit, cache1) := Lookup(st.cache, key, now);
    var st1 := st.(cache := cache1);
    if hit.None? {
      var sock := (host, port);
      match Fetch.Connect(env, sock, scheme == Https, st1)
      case None =>
      case Some(st2) =>
        var data := env.answer(sock, Utf8.Encode(RequestText(host, path, userAgent)));
        RespondNeverExpires(env, now, scheme, host, key, sock, data, st2);
    }
  }

  /** Since the store rule stores only when no max-age parsed
      (Browser.py:308-309), a cache whose entries never expire keeps that
      property through every request; the cache starts empty, so no entry
      the program ever stores goes stale. */
  lemma {:induction false} RequestNeverExpires(env: Env, userAgent: string, now: int, url: Url, st: State)
    requires NeverExpires(st.cache)
    ensures NeverExpires(Request(env, userAgent, now, url, st).1.cache)
    decreases RedirectLimit + 1 - st.redirects
  {
    if url.path.Some? && url.path.value != "about:blank" && url.scheme.Some? &&
       (url.scheme.value == Http || url.scheme.value == Https) {
      var path := url.path.value;
      ExchangeNeverExpires(env, userAgent, now, url.scheme.value, url.host, url.port, path, st);
      match Exchange(env, userAgent, now, url.scheme.value, url.host, url.port, path, st)
      case (Done(_), _) =>
      case (Follow(target), st1) =>
        RequestNeverExpires(env, userAgent, now, target, st1);
    }
  }

  /** A Location without `://` is resolved against the scheme and host
      only (Browser.py:222-227): the target it parses to has the default
      port of the scheme, whatever port the current URL had, and the
      Location as its path, behind a '/' if it lacks one. */
  lemma RelativeRedirectDropsPort(scheme: Scheme, host: string, location: string)
    requires scheme == Http || scheme == Https
    requires '/' !in host && ':' !in host
    requires !Contains(location, "://")
    ensures Parse(Resolve(SchemeName(scheme), host, location)) ==
              Ok(Url(Some(scheme), host, Some(if scheme == Http then 80 else 443),
                     Some(if |location| > 0 && location[0] == '/' then location else "/" + location),
                     None, false, false))
  {
    if |location| > 0 && location[0] == '/' {
      var tail := location[1..];
      assert "/" + tail == location;
      ResolvedShape(SchemeName(scheme), host, location, tail);
      HostOnly(scheme, host, tail);
    } else {
      ResolvedShape(SchemeName(scheme), host, location, location);
      HostOnly(scheme, host, location);
    }
  }

  /** `scheme://host/tail` with neither '/' nor ':' in the host. */
  lemma HostOnly(scheme: Scheme, host: string, tail: string)
    requires scheme == Http || scheme == Https
    requires '/' !in host && ':' !in host
    ensures Parse(SchemeName(scheme) + "://" + (host + ("/" + tail))) ==
              Ok(Url(Some(scheme), host, Some(if scheme == Http then 80 else 443), Some("/" + tail), None, false, false))
  {
    var rest := host + ("/" + tail);
    FindAfterPrefix(host, "/", tail);
    assert host + "/" + tail == rest;
    SplitAt(host, "/" + tail);
    MissingFirstChar(host, ":");
    UrlFacts.NetworkFields(scheme, rest);
  }

  lemma ResolvedShape(name: string, host: string, location: string, tail: string)
    requires !Contains(location, "://")
    requires tail == if |location| > 0 && location[0] == '/' then location[1..] else location
    ensures Resolve(name, host, location) == name + "://" + (host + ("/" + tail))
  {
    if |location| > 0 && location[0] == '/' {
      assert location == "/" + tail;
    }
  }

  lemma SplitAt(a: string, b: string)
    ensures (a + b)[..|a|] == a && (a + b)[|a|..] == b
  {
  }

  /** A data: URL never gets as far as its payload: the constructor assigns
      it no path, so `request` fails on reading `self.path`
      (Browser.py:83-98, 108) before it reaches the data branch
      (Browser.py:125-126), and nothing global changes. */
  lemma DataNeverDelivered(env: Env, userAgent: string, now: int, x: string, st: State)
    requires Parse(x).Ok? && Parse(x).value.scheme == Some(Data)
    ensures Request(env, userAgent, now, Parse(x).value, st) == (Err(MissingAttribute("path")), st)
  {
    UrlFacts.DataHasNoPath(x);
  }

  /** about:blank is answered locally with `<>` (Browser.py:108-109). */
  lemma BlankPage(env: Env, userAgent: string, now: int, url: Url, st: State)
    requires url.path == Some("about:blank")
    ensures Request(env, userAgent, now, url, st) == (Ok("<>"), st)
  {
  }

  /** The content coding is undone before the transfer coding
      (Browser.py:268-286): the transfer layer gets what the content layer
      inflated, and a content layer that fails decides the outcome on its
      own. */
  lemma ContentCodingFirst(env: Env, headers: map<string, string>, content: seq<byte>)
    requires Lower(HeaderOr(headers, "content-encoding")) == "gzip"
    ensures env.gunzip(content).Inflated? ==>
              Decompress(env, headers, content) ==
              Inflate(env, Lower(HeaderOr(headers, "transfer-encoding")) == "gzip", env.gunzip(content).bytes)
    ensures env.gunzip(content).BadGzipFile? ==> Decompress(env, headers, content) == Err(BadGzip)
    ensures env.gunzip(content).Broken? ==> Decompress(env, headers, content) == Err(GzipBroken)
  {
  }

  /** A response without framing, coding or connection headers, past the
      redirect checks: the rest of the stream after the blank line is the
      page, the socket stays pooled, and the cache takes the body under the
      store rule (Browser.py:186-313). */
  lemma PlainResponse(env: Env, now: int, scheme: Scheme, host: string, key: Key, sock: SocketKey,
                      data: seq<byte>, st: State, statusLine: string, p1: nat, sl: StatusLine,
                      headers: map<string, string>, p2: nat)
    requires ReadLineText(data, 0) == Ok((statusLine, p1)) && statusLine != ""
    requires ParseStatusLine(statusLine) == Ok(sl)
    requires p1 <= |data| && HeaderBlock(data, p1) == Ok((headers, p2))
    requires "content-length" !in headers && "content-encoding" !in headers
    requires "transfer-encoding" !in headers && "connection" !in headers
    requires !IsRedirect(sl.status) && st.redirects < RedirectLimit
    ensures p2 <= |data|
    ensures Respond(env, now, scheme, host, key, sock, data, st) ==
            (Done(DecodeText(data[p2..])),
             st.(cache := Store(st.cache, key, sl.status, HeaderOr(headers, "cache-control"), data[p2..], now)))
  {
    assert !IsChunked(headers);
    assert Body(data, p2, headers) == Ok(data[p2..]);
    assert Decompress(env, headers, data[p2..]) == Ok(data[p2..]);
  }

  /** `HTTP/1.0 200 OK`, a blank line and a body: the page is the body and
      the cache takes it under the store rule. */
  lemma OkResponse(env: Env, now: int, scheme: Scheme, host: string, key: Key, sock: SocketKey,
                   body: seq<byte>, st: State)
    requires st.redirects < RedirectLimit
    ensures Respond(env, now, scheme, host, key, sock, HttpFacts.AsciiBytes("HTTP/1.0 200 OK\r\n\r\n") + body, st) ==
            (Done(DecodeText(body)), st.(cache := Store(st.cache, key, 200, "", body, now)))
  {
    var data := HttpFacts.AsciiBytes("HTTP/1.0 200 OK\r\n\r\n") + body;
    OkLayout(data, body);
    OkStatusLine(data);
    BlankLineAt(data, 17);
    PlainResponse(env, now, scheme, host, key, sock, data, st, "HTTP/1.0 200 OK", 17,
                  StatusLine("HTTP/1.0", 200, "OK"), map[], 19);
  }

  lemma OkLayout(data: seq<byte>, body: seq<byte>)
    requires data == HttpFacts.AsciiBytes("HTTP/1.0 200 OK\r\n\r\n") + body
    ensures 19 <= |data| && data[..17] == HttpFacts.AsciiBytes("HTTP/1.0 200 OK\r\n")
    ensures data[17..19] == [13, 10] && data[19..] == body
  {
    var line := "HTTP/1.0 200 OK\r\n";
    var head := HttpFacts.AsciiBytes(line);
    HttpFacts.AsciiAppend(line, "\r\n");
    HttpFacts.CrLfAscii();
    assert line + "\r\n" == "HTTP/1.0 200 OK\r\n\r\n";
    assert data == head + [13, 10] + body;
  }

  lemma OkStatusLine(data: seq<byte>)
    requires 17 <= |data| && data[..17] == HttpFacts.AsciiBytes("HTTP/1.0 200 OK\r\n")
    ensures ReadLineText(data, 0) == Ok(("HTTP/1.0 200 OK", 17))
    ensures ParseStatusLine("HTTP/1.0 200 OK") == Ok(StatusLine("HTTP/1.0", 200, "OK"))
  {
    var text := "HTTP/1.0 200 OK";
    var line := text + "\r\n";
    var head := HttpFacts.AsciiBytes(line);
    HttpFacts.AsciiIsUtf8(line);
    Utf8.DecodeEncode(line);
    assert data[0..17] == head;
    forall k | 0 <= k < 16
      ensures data[k] != LF
    {
      assert data[k] == head[k];
    }
    assert data[16] == head[16];
    HttpFacts.LineEndAt(data, 0, 17);
    StripTrailingSpace(text, "\r\n");
    HttpFacts.ReadLineTextOf(data, 0, 17, line, text);
    OkStatusText();
  }

  lemma OkStatusText()
    ensures ParseStatusLine("HTTP/1.0 200 OK") == Ok(StatusLine("HTTP/1.0", 200, "OK"))
  {
    assert Numbers.ShowInt(200) == "200";
    assert "HTTP/1.0 200 OK" == "HTTP/1.0" + " " + Numbers.ShowInt(200) + " " + "OK";
    HttpFacts.StatusLineRoundTrip("HTTP/1.0", 200, "OK");
  }

  /** A CRLF at `pos` is an empty header block. */
  lemma BlankLineAt(data: seq<byte>, pos: nat)
    requires pos + 2 <= |data| && data[pos..pos + 2] == [13, 10]
    ensures HeaderBlock(data, pos) == Ok((map[], pos + 2))
  {
    HttpFacts.CrLfLine(data, pos, pos + 2);
    HttpFacts.AsciiIsUtf8("\r\n");
    HttpFacts.CrLfAscii();
    Utf8.DecodeEncode("\r\n");
    StripTrailingSpace("", "\r\n");
    assert "" + "\r\n" == "\r\n";
    HttpFacts.ReadLineTextOf(data, pos, pos + 2, "\r\n", "");
  }
}
