/** `URL.request` as the program runs it: the globals it updates in place
    and the socket stream it reads step by step, each step proved to do
    what the matching function of `Fetch` describes. */
module Client {

  import opened Common
  import opened Text
  import Utf8
  import opened Urls
  import opened Http
  import opened Caching
  import Fetch

  /** The module globals `cached_responses`, `open_sockets` and
      `redirects_number`, and `URL.request` updating them in place. */
  class Session {
    var cache: Cache
    var pool: set<Fetch.SocketKey>
    var redirects: int

    function Globals(): Fetch.State
      reads this
    {
      Fetch.State(cache, pool, redirects)
    }

    /** The globals at start-up (Browser.py:13-16, 26). */
    constructor ()
      ensures Globals() == Fetch.State(map[], {}, 0)
    {
      cache := map[];
      pool := {};
      redirects := 0;
    }

    /** Closing a socket: its key leaves `open_sockets`. */
    method Close(sock: Fetch.SocketKey)
      modifies this
      ensures Globals() == Fetch.Evict(old(Globals()), sock)
    {
      pool := pool - {sock};
    }

    /** Closing the socket, then raising `e` out of `request`. */
    method Raise(sock: Fetch.SocketKey, e: Error) returns (step: Fetch.Step)
      modifies this
      ensures (step, Globals()) == Fetch.Fail(old(Globals()), sock, e)
    {
      if ClosesSocket(e) {
        Close(sock);
      }
      step := Fetch.Done(Err(e));
    }

    /** Browser.py:293-311 */
    method StoreResponse(key: Key, status: int, cacheControlHeader: string, content: seq<byte>, now: int)
      modifies this
      ensures Globals() == old(Globals()).(cache := Store(old(cache), key, status, cacheControlHeader, content, now))
    {
      if status in CacheableStatuses {
        var cacheControl := Lower(cacheControlHeader);
        if !Contains(cacheControl, "no-store") {
          var maxAge := MaxAge(cacheControl);
          if maxAge.None? || cacheControl == "" {
            var expiry := match maxAge case Some(age) => Some(now + age) case None => None;
            cache := cache[key := Entry(content, expiry)];
          }
        }
      }
    }

    /** Browser.py:268-313: gzip, `Connection: close`, the cache store and
        the UTF-8 decoding. */
    method Finish(env: Fetch.Env, now: int, key: Key, sock: Fetch.SocketKey, status: int,
                  headers: map<string, string>, content: seq<byte>) returns (step: Fetch.Step)
      modifies this
      ensures (step, Globals()) == Fetch.Finish(env, now, key, sock, status, headers, content, old(Globals()))
    {
      var body := content;
      if Lower(Fetch.HeaderOr(headers, "content-encoding")) == "gzip" {
        var d := env.gunzip(body);
        if d.BadGzipFile? {
          step := Raise(sock, BadGzip);
          return;
        } else if d.Broken? {
          step := Raise(sock, GzipBroken);
          return;
        }
        body := d.bytes;
      }
      if Lower(Fetch.HeaderOr(headers, "transfer-encoding")) == "gzip" {
        var d := env.gunzip(body);
        if d.BadGzipFile? {
          step := Raise(sock, BadGzip);
          return;
        } else if d.Broken? {
          step := Raise(sock, GzipBroken);
          return;
        }
        body := d.bytes;
      }
      if Lower(Fetch.HeaderOr(headers, "connection")) == "close" {
        Close(sock);
      }
      StoreResponse(key, status, Fetch.HeaderOr(headers, "cache-control"), body, now);
      step := Fetch.Done(Fetch.DecodeText(body));
    }

    /** Browser.py:216-233, once the counter has been raised. */
    method Redirect(scheme: Scheme, host: string, sock: Fetch.SocketKey, headers: map<string, string>) returns (step: Fetch.Step)
      modifies this
      ensures (step, Globals()) == Fetch.Redirect(scheme, host, sock, headers, old(Globals()))
    {
      var location := Strip(Fetch.HeaderOr(headers, "location"));
      if location == "" {
        step := Raise(sock, MissingLocation);
        return;
      }
      var target := Fetch.Resolve(SchemeName(scheme), host, location);
      if Lower(Fetch.HeaderOr(headers, "Connection")) == "close" {
        Close(sock);
      }
      var u := Parse(target);
      step := if u.Ok? then Fetch.Follow(u.value) else Fetch.Done(Err(u.error));
    }

    /** Browser.py:213-266: the redirect, the redirect limit, or the body. */
    method AfterHeaders(env: Fetch.Env, now: int, scheme: Scheme, host: string, key: Key, sock: Fetch.SocketKey,
                        response: Reader, status: int, headers: map<string, string>) returns (step: Fetch.Step)
      requires response.Valid()
      modifies this, response
      ensures (step, Globals()) ==
              Fetch.AfterHeaders(env, now, scheme, host, key, sock, response.data, old(response.pos), status, headers, old(Globals()))
    {
      if redirects <= Fetch.RedirectLimit && Fetch.IsRedirect(status) {
        redirects := redirects + 1;
        step := Redirect(scheme, host, sock, headers);
        return;
      }
      if redirects >= Fetch.RedirectLimit {
        step := Raise(sock, TooManyRedirects);
        return;
      }
      step := Deliver(env, now, key, sock, response, status, headers);
    }

    /** Browser.py:241-266 and then `Finish`: the body as the headers frame
        it. */
    method Deliver(env: Fetch.Env, now: int, key: Key, sock: Fetch.SocketKey, response: Reader, status: int,
                   headers: map<string, string>) returns (step: Fetch.Step)
      requires response.Valid()
      modifies this, response
      ensures (step, Globals()) ==
              Fetch.Deliver(env, now, key, sock, response.data, old(response.pos), status, headers, old(Globals()))
    {
      var content := ReadBody(response, headers);
      if content.Err? {
        step := Raise(sock, content.error);
        return;
      }
      step := Finish(env, now, key, sock, status, headers, content.value);
    }

    /** Browser.py:186-211: the status line and the headers. */
    method Respond(env: Fetch.Env, now: int, scheme: Scheme, host: string, key: Key, sock: Fetch.SocketKey,
                   data: seq<byte>) returns (step: Fetch.Step)
      modifies this
      ensures (step, Globals()) == Fetch.Respond(env, now, scheme, host, key, sock, data, old(Globals()))
    {
      var response := new Reader(data);
      var statusLine := response.ReadText();
      if statusLine.Err? {
        return Fetch.Done(Err(statusLine.error));
      }
      if statusLine.value == "" {
        step := Raise(sock, NoServerAnswer);
        return;
      }
      var sl := ParseStatusLine(statusLine.value);
      if sl.Err? {
        step := Raise(sock, sl.error);
        return;
      }
      ghost var p1 := response.pos;
      var headers := ReadHeaders(response);
      if headers.Err? {
        return Fetch.Done(Err(headers.error));
      }
      assert HeaderBlock(data, p1) == Ok((headers.value, response.pos));
      step := AfterHeaders(env, now, scheme, host, key, sock, response, sl.value.status, headers.value);
    }

    /** Browser.py:128-138 */
    method LookUp(key: Key, now: int) returns (hit: Option<seq<byte>>)
      modifies this
      ensures (hit, cache) == Lookup(old(cache), key, now)
      ensures pool == old(pool) && redirects == old(redirects)
    {
      hit := None;
      if key in cache {
        var entry := cache[key];
        if Fresh(entry, now) {
          return Some(entry.content);
        }
        cache := cache - {key};
      }
    }

    /** Browser.py:141-170 */
    method Connect(env: Fetch.Env, sock: Fetch.SocketKey, tls: bool) returns (ok: bool)
      modifies this
      ensures var c := Fetch.Connect(env, sock, tls, old(Globals()));
              ok == c.Some? && (ok ==> Globals() == c.value) && (!ok ==> Globals() == old(Globals()))
    {
      if sock !in pool {
        if !env.connect(sock, tls) {
          return false;
        }
        pool := pool + {sock};
      }
      ok := true;
    }

    /** Browser.py:128-184: the cache, the socket, and the request sent. */
    method Exchange(env: Fetch.Env, userAgent: string, now: int, scheme: Scheme, host: string,
                    port: Option<int>, path: string) returns (step: Fetch.Step)
      modifies this
      ensures (step, Globals()) == Fetch.Exchange(env, userAgent, now, scheme, host, port, path, old(Globals()))
    {
      var key := Key(SchemeName(scheme), host, port, path);
      var hit := LookUp(key, now);
      if hit.Some? {
        return Fetch.Done(Fetch.DecodeText(hit.value));
      }
      var sock := (host, port);
      var connected := Connect(env, sock, scheme == Https);
      if !connected {
        return Fetch.Done(Err(ConnectFailed));
      }
      var request := BuildRequest(host, path, userAgent);
      var data := env.answer(sock, Utf8.Encode(request));
      step := Respond(env, now, scheme, host, key, sock, data);
    }

    /** `url.request(user_agent)` */
    method Request(env: Fetch.Env, userAgent: string, now: int, url: Url) returns (r: Result<string>)
      modifies this
      ensures (r, Globals()) == Fetch.Request(env, userAgent, now, url, old(Globals()))
      decreases Fetch.RedirectLimit + 1 - redirects
    {
      if url.path.None? {
        return Err(MissingAttribute("path"));
      }
      var path := url.path.value;
      if path == "about:blank" {
        return Ok("<>");
      }
      if url.scheme.None? {
        return Err(MissingAttribute("scheme"));
      }
      match url.scheme.value {
        case File =>
          var text := env.readFile(path);
          r := if text.Some? then Ok(text.value) else Err(FileUnreadable);
        case Data =>
          r := if url.payload.Some? then Ok(url.payload.value.text) else Err(MissingAttribute("data"));
        case _ =>
          var step := Exchange(env, userAgent, now, url.scheme.value, url.host, url.port, path);
          if step.Done? {
            r := step.result;
          } else {
            r := Request(env, userAgent, now, step.target);
          }
      }
    }
  }
}
