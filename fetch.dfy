/** `URL.request` (Browser.py:101-313) as a function of explicit state: the
    response cache `cached_responses`, the keys of the socket pool
    `open_sockets`, and the global redirect counter `redirects_number`
    (Browser.py:13-27). What lies outside the program (the file system, the
    network, gzip and the clock) comes in as an environment and a time. */
module Fetch {

  import opened Common
  import opened Text
  import Utf8
  import opened Urls
  import opened Http
  import opened Caching

  /** `(host, port)`, the key of `open_sockets` */
  type SocketKey = (string, Option<int>)

  /** The outcomes of `gzip.decompress`: the inflated bytes; BadGzipFile,
      raised when the data does not start with a gzip header; or another
      exception (EOFError for a truncated stream, zlib.error for corrupt
      deflate data). */
  datatype Gunzip = Inflated(bytes: seq<byte>) | BadGzipFile | Broken

  /** The world outside the program:
      - `connect(key, tls)`: whether opening a socket to `key` (and the TLS
        handshake when `tls`) succeeds;
      - `answer(key, request)`: the bytes the server at `key` sends back;
      - `readFile(path)`: the text of a local file, if it can be read;
      - `gunzip(bytes)`: what `gzip.decompress` does with the bytes. */
  datatype Env = Env(
    connect: (SocketKey, bool) -> bool,
    answer: (SocketKey, seq<byte>) -> seq<byte>,
    readFile: string -> Option<string>,
    gunzip: seq<byte> -> Gunzip)

  /** The globals `request` reads and writes. */
  datatype State = State(cache: Cache, pool: set<SocketKey>, redirects: int)

  /** `redirects_limit` */
  const RedirectLimit: int := 10

  /** The default `user_agent` */
  const DefaultUserAgent: string := "Vares Browser"

  predicate IsRedirect(status: int)
  {
    status in {301, 302, 303, 307, 308}
  }

  /** `dict.get(name, "")` */
  function HeaderOr(headers: map<string, string>, name: string): string
  {
    if name in headers then headers[name] else ""
  }

  /** The Location resolution of Browser.py:222-227: a location containing
      `://` is absolute; one starting with `/` is put after
      `scheme://host`; anything else after `scheme://host/`. The port of
      the current URL is not carried over. */
  function Resolve(scheme: string, host: string, location: string): string
  {
    if Contains(location, "://") then location
    else if |location| > 0 && location[0] == '/' then scheme + "://" + host + location
    else scheme + "://" + host + "/" + location
  }

  /** `content.decode("utf8")` */
  function DecodeText(content: seq<byte>): Result<string>
  {
    match Utf8.Decode(content)
    case None => Err(BadUtf8)
    case Some(t) => Ok(t)
  }

  /** `open_sockets.pop(socket_key, None)` */
  function Evict(st: State, sock: SocketKey): State
  {
    st.(pool := st.pool - {sock})
  }

  /** How one exchange with a server ends: with the result of `request`,
      or with the URL a redirect leads to. */
  datatype Step = Done(result: Result<string>) | Follow(target: Url)

  /** Raising `e`, closing the socket first when the code does. */
  function Fail(st: State, sock: SocketKey, e: Error): (r: (Step, State))
    ensures r.0.Done? && r.1.redirects == st.redirects && r.1.cache == st.cache
  {
    (Done(Err(e)), if ClosesSocket(e) then Evict(st, sock) else st)
  }

  /** One gzip layer (Browser.py:269-276, 279-286): nothing when the header
      does not ask for it; otherwise the inflated bytes, BadGzip for the
      BadGzipFile the code catches, and GzipBroken for the exceptions it
      lets escape. */
  function Inflate(env: Env, on: bool, content: seq<byte>): (r: Result<seq<byte>>)
    ensures !on ==> r == Ok(content)
    ensures r.Err? ==> r.error == BadGzip || r.error == GzipBroken
  {
    if !on then Ok(content)
    else
      match env.gunzip(content)
      case Inflated(b) => Ok(b)
      case BadGzipFile => Err(BadGzip)
      case Broken => Err(GzipBroken)
  }

  /** The gzip content coding is undone first, then the gzip transfer
      coding. */
  function Decompress(env: Env, headers: map<string, string>, content: seq<byte>): (r: Result<seq<byte>>)
    ensures r.Err? ==> r.error == BadGzip || r.error == GzipBroken
    ensures (Lower(HeaderOr(headers, "content-encoding")) != "gzip" &&
             Lower(HeaderOr(headers, "transfer-encoding")) != "gzip") ==> r == Ok(content)
  {
    match Inflate(env, Lower(HeaderOr(headers, "content-encoding")) == "gzip", content)
    case Err(e) => Err(e)
    case Ok(c1) => Inflate(env, Lower(HeaderOr(headers, "transfer-encoding")) == "gzip", c1)
  }

  /** After the body is read (Browser.py:268-313): gzip content coding,
      then gzip transfer coding, closing on `connection: close`, the cache
      store rule, and the UTF-8 decoding of the result. */
  function Finish(env: Env, now: int, key: Key, sock: SocketKey, status: int,
                  headers: map<string, string>, content: seq<byte>, st: State): (r: (Step, State))
    ensures r.0.Done? && r.1.redirects == st.redirects
    ensures match Decompress(env, headers, content)
            case Err(e) =>
              && r.0.result == Err(e) && r.1.cache == st.cache
              && r.1.pool == if e == BadGzip then st.pool - {sock} else st.pool
            case Ok(c) =>
              && r.0.result == DecodeText(c)
              && r.1.pool == (if Lower(HeaderOr(headers, "connection")) == "close" then st.pool - {sock} else st.pool)
              && r.1.cache == Store(st.cache, key, status, HeaderOr(headers, "cache-control"), c, now)
  {
    match Decompress(env, headers, content)
    case Err(e) => Fail(st, sock, e)
    case Ok(c2) =>
      var st1 := if Lower(HeaderOr(headers, "connection")) == "close" then Evict(st, sock) else st;
      var st2 := st1.(cache := Store(st1.cache, key, status, HeaderOr(headers, "cache-control"), c2, now));
      (Done(DecodeText(c2)), st2)
  }

  /** The redirect branch (Browser.py:214-233), entered with the counter
      already incremented. */
  function Redirect(scheme: Scheme, host: string, sock: SocketKey, headers: map<string, string>, st: State): (r: (Step, State))
    ensures r.1.redirects == st.redirects && r.1.cache == st.cache
    ensures r.0.Done? ==> r.0.result.Err?
  {
    var location := Strip(HeaderOr(headers, "location"));
    if location == "" then Fail(st, sock, MissingLocation)
    else
      var target := Resolve(SchemeName(scheme), host, location);
      var st1 := if Lower(HeaderOr(headers, "Connection")) == "close" then Evict(st, sock) else st;
      match Parse(target)
      case Err(e) => (Done(Err(e)), st1)
      case Ok(u) => (Follow(u), st1)
  }

  /** What follows the header block (Browser.py:213-313): the redirect
      decision and budget, then the body read from `pos`. */
  function AfterHeaders(env: Env, now: int, scheme: Scheme, host: string, key: Key, sock: SocketKey,
                        data: seq<byte>, pos: nat, status: int, headers: map<string, string>, st: State): (r: (Step, State))
    requires pos <= |data|
    ensures r.0.Follow? ==> st.redirects <= RedirectLimit && r.1.redirects == st.redirects + 1
    ensures r.0.Done? ==> r.1.redirects == st.redirects || r.1.redirects == st.redirects + 1
  {
    if st.redirects <= RedirectLimit && IsRedirect(status) then
      Redirect(scheme, host, sock, headers, st.(redirects := st.redirects + 1))
    else if st.redirects >= RedirectLimit then Fail(st, sock, TooManyRedirects)
    else Deliver(env, now, key, sock, data, pos, status, headers, st)
  }

  /** The body read from `pos` (Browser.py:245-266) and the response
      finished with it; a malformed body fails. */
  function Deliver(env: Env, now: int, key: Key, sock: SocketKey, data: seq<byte>, pos: nat, status: int,
                   headers: map<string, string>, st: State): (r: (Step, State))
    requires pos <= |data|
    ensures r.0.Done? && r.1.redirects == st.redirects
    ensures Body(data, pos, headers).Err? ==>
              r.0.result == Err(Body(data, pos, headers).error) && r.1.cache == st.cache
    ensures Body(data, pos, headers).Ok? && Decompress(env, headers, Body(data, pos, headers).value).Ok? ==>
              var c := Decompress(env, headers, Body(data, pos, headers).value).value;
              && r.0.result == DecodeText(c)
              && r.1.cache == Store(st.cache, key, status, HeaderOr(headers, "cache-control"), c, now)
  {
    match Body(data, pos, headers)
    case Err(e) => Fail(st, sock, e)
    case Ok(content) => Finish(env, now, key, sock, status, headers, content, st)
  }

  /** Reading the server's answer `data` (Browser.py:186-313): an empty
      status line is NoServerAnswer, a malformed one BadStatusLine, both
      closing the socket. */
  function Respond(env: Env, now: int, scheme: Scheme, host: string, key: Key, sock: SocketKey,
                   data: seq<byte>, st: State): (r: (Step, State))
    ensures r.0.Follow? ==> st.redirects <= RedirectLimit && r.1.redirects == st.redirects + 1
    ensures r.0.Done? ==> r.1.redirects == st.redirects || r.1.redirects == st.redirects + 1
  {
    match ReadLineText(data, 0)
    case Err(e) => (Done(Err(e)), st)
    case Ok((statusLine, p1)) =>
      if statusLine == "" then Fail(st, sock, NoServerAnswer)
      else
        match ParseStatusLine(statusLine)
        case Err(e) => Fail(st, sock, e)
        case Ok(sl) =>
          match HeaderBlock(data, p1)
          case Err(e) => (Done(Err(e)), st)
          case Ok((headers, p2)) => AfterHeaders(env, now, scheme, host, key, sock, data, p2, sl.status, headers, st)
  }

  /** The pooled socket for `sock`, or a new one (Browser.py:141-170); a
      failed connection changes nothing. */
  function Connect(env: Env, sock: SocketKey, tls: bool, st: State): Option<State>
  {
    if sock in st.pool then Some(st)
    else if env.connect(sock, tls) then Some(st.(pool := st.pool + {sock}))
    else None
  }

  /** A request to an http or https URL (Browser.py:128-313): the cache, then
      the pooled or a new connection, then the exchange. */
  function Exchange(env: Env, userAgent: string, now: int, scheme: Scheme, host: string,
                    port: Option<int>, path: string, st: State): (r: (Step, State))
    ensures r.0.Follow? ==> st.redirects <= RedirectLimit && r.1.redirects == st.redirects + 1
  {
    var key := Key(SchemeName(scheme), host, port, path);
    var (hit, cache1) := Lookup(st.cache, key, now);
    var st1 := st.(cache := cache1);
    if hit.Some? then (Done(DecodeText(hit.value)), st1)
    else
      var sock := (host, port);
      match Connect(env, sock, scheme == Https, st1)
      case None => (Done(Err(ConnectFailed)), st1)
      case Some(st2) =>
        var data := env.answer(sock, Utf8.Encode(RequestText(host, path, userAgent)));
        Respond(env, now, scheme, host, key, sock, data, st2)
  }

  /** `url.request(user_agent)` started in state `st`: its result and the
      state it leaves. */
  function Request(env: Env, userAgent: string, now: int, url: Url, st: State): (Result<string>, State)
    decreases RedirectLimit + 1 - st.redirects
  {
    match url.path
    case None => (Err(MissingAttribute("path")), st)
    case Some(path) =>
      if path == "about:blank" then (Ok("<>"), st)
      else
        match url.scheme
        case None => (Err(MissingAttribute("scheme")), st)
        case Some(File) =>
          (match env.readFile(path) case None => Err(FileUnreadable) case Some(t) => Ok(t), st)
        case Some(Data) =>
          (match url.payload case None => Err(MissingAttribute("data")) case Some(p) => Ok(p.text), st)
        case Some(scheme) =>
          match Exchange(env, userAgent, now, scheme, url.host, url.port, path, st)
          case (Done(r), st1) => (r, st1)
          case (Follow(target), st1) => Request(env, userAgent, now, target, st1)
  }
}
