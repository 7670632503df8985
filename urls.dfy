/** `URL.__init__` (Browser.py:30-98): a URL string becomes a target, or
    the exception the constructor raises. Attributes the constructor never
    assigns are None here, so that reading them later fails as in Python. */
module Urls {

  import opened Common
  import opened Text
  import Numbers
  import Base64
  import Utf8

  datatype Scheme = Http | Https | File | Data

  function SchemeName(s: Scheme): string
  {
    match s
    case Http => "http"
    case Https => "https"
    case File => "file"
    case Data => "data"
  }

  /** The three attributes a data: URL sets: `mime_type`, `is_base64`, `data`. */
  datatype DataPayload = DataPayload(mimeType: string, isBase64: bool, text: string)

  /** A parsed URL. `scheme` is None for the about:blank target, which never
      assigns it; `path` is None for data: URLs, which never assign it;
      `payload` is None where no data attribute holds a value. */
  datatype Url = Url(
    scheme: Option<Scheme>,
    host: string,
    port: Option<int>,
    path: Option<string>,
    payload: Option<DataPayload>,
    viewSource: bool,
    rightToLeft: bool)

  const AboutBlank: Url := Url(None, "", None, Some("about:blank"), None, false, false)

  /** Browser.py:72-75: the host is what precedes the first '/', and the
      path is "/" followed by what comes after it ("/" alone when the text
      has no '/'). */
  function SplitHostPath(rest: string): (string, string)
  {
    var withSlash := if Contains(rest, "/") then rest else rest + "/";
    assert Contains(withSlash, "/") by {
      if !Contains(rest, "/") { ContainsAt(withSlash, "/", |rest|); }
    }
    var (host, afterSlash) := SplitOnce(withSlash, "/").value;
    (host, "/" + afterSlash)
  }

  /** Browser.py:76-78: a ':' in the host splits off a port that must pass
      `int()`; otherwise the scheme's default port stays. */
  function SplitPort(host: string, defaultPort: int): Result<(string, int)>
  {
    match SplitOnce(host, ":")
    case None => Ok((host, defaultPort))
    case Some((name, portText)) =>
      match Numbers.ParseInt(portText)
      case None => Err(BadPort)
      case Some(port) => Ok((name, port))
  }

  /** The http/https branch (Browser.py:67-78) applied to what follows `://`. */
  function ParseNetwork(scheme: Scheme, rest: string): Result<Url>
    requires scheme == Http || scheme == Https
  {
    var (host, path) := SplitHostPath(rest);
    match SplitPort(host, if scheme == Http then 80 else 443)
    case Err(e) => Err(e)
    case Ok((name, port)) => Ok(Url(Some(scheme), name, Some(port), Some(path), None, false, false))
  }

  /** The data branch (Browser.py:83-98) applied to what follows `data:`.
      It assigns no path. */
  function ParseData(rest: string): Result<Url>
  {
    match SplitOnce(rest, ",")
    case None => Err(DataMissingComma)
    case Some((mime, data)) =>
      var declared := if mime == [] then "text/plain" else mime;
      var isBase64 := Contains(mime, ";base64");
      if isBase64 then
        match Base64.Decode(data)
        case None => Err(BadBase64)
        case Some(bytes) =>
          match Utf8.Decode(bytes)
          case None => Err(BadBase64)
          case Some(text) =>
            Ok(Url(Some(Data), "", None, None, Some(DataPayload(Replace(declared, ";base64", ""), true, text)), false, false))
      else
        Ok(Url(Some(Data), "", None, None, Some(DataPayload(declared, false, data)), false, false))
  }

  /** A URL without a prefix modifier (Browser.py:55-98). */
  function ParsePlain(url: string): Result<Url>
  {
    if StartsWith(url, "data:") then ParseData(url[5..])
    else if !Contains(url, "://") || url == "about:blank" then Ok(AboutBlank)
    else
      var (name, rest) := SplitOnce(url, "://").value;
      if name == "http" then ParseNetwork(Http, rest)
      else if name == "https" then ParseNetwork(Https, rest)
      else if name == "file" then Ok(Url(Some(File), "", None, Some(rest), None, false, false))
      else if name == "data" then ParseData(rest)
      else Err(BadScheme)
  }

  /** `URL(url)`: `view-source:` and `rlt:` parse the rest as a URL of its
      own and copy its attributes; reading one the inner URL never assigned
      fails. `view-source:` copies the data attributes as well, `rlt:` does
      not. */
  function Parse(url: string): Result<Url>
    decreases |url|
  {
    if StartsWith(url, "view-source:") then
      match Parse(url[12..])
      case Err(e) => Err(e)
      case Ok(inner) =>
        if inner.scheme.None? then Err(MissingAttribute("scheme"))
        else if inner.path.None? then Err(MissingAttribute("path"))
        else Ok(Url(inner.scheme, inner.host, inner.port, inner.path, inner.payload, true, false))
    else if StartsWith(url, "rlt:") then
      match Parse(url[4..])
      case Err(e) => Err(e)
      case Ok(inner) =>
        if inner.scheme.None? then Err(MissingAttribute("scheme"))
        else if inner.path.None? then Err(MissingAttribute("path"))
        else Ok(Url(inner.scheme, inner.host, inner.port, inner.path, None, false, true))
    else ParsePlain(url)
  }
}
