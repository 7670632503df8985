/** What `URL(...)` promises, stated against independent descriptions of
    its input. */
module UrlFacts {

  import opened Common
  import opened Text
  import opened Urls
  import Numbers
  import Base64
  import Utf8

  /** A string led by `c` does not start with a prefix led by another
      character. */
  lemma NotPrefixed(s: string, p: string)
    requires |s| > 0 && |p| > 0 && s[0] != p[0]
    ensures !StartsWith(s, p)
  {
  }

  /** `scheme://rest` for a network scheme goes straight to the http/https
      branch with `rest`. */
  lemma NetworkPrefix(scheme: Scheme, rest: string)
    requires scheme == Http || scheme == Https
    ensures Parse(SchemeName(scheme) + "://" + rest) == ParseNetwork(scheme, rest)
  {
    var name := SchemeName(scheme);
    var url := name + "://" + rest;
    assert url[0] == 'h';
    NotPrefixed(url, "view-source:");
    NotPrefixed(url, "rlt:");
    NotPrefixed(url, "data:");
    FindAfterPrefix(name, "://", rest);
    assert url[..|name|] == name && url[|name| + 3..] == rest;
  }

  /** The host-and-path split of the http/https branch: the text before the
      first '/' and the rest from that '/' on, or all of it and "/". */
  lemma HostPath(rest: string)
    ensures
      var slash := Find(rest, "/");
      SplitHostPath(rest) ==
        if slash.Some? then (rest[..slash.value], rest[slash.value..]) else (rest, "/")
  {
    if Contains(rest, "/") {
      var i := Find(rest, "/").value;
      assert rest[i..i + 1] == "/";
      assert rest[i..] == "/" + rest[i + 1..];
    } else {
      ContainsChar(rest, '/');
      FindAppendChar(rest, '/');
      assert (rest + "/")[..|rest|] == rest;
      assert (rest + "/")[|rest| + 1..] == "";
      assert "/" == ['/'];
      assert Find(rest + "/", "/") == Some(|rest|);
      assert SplitOnce(rest + "/", "/") == Some((rest, ""));
      assert !Contains(rest, "/");
      assert "/" + "" == "/";
      assert SplitHostPath(rest) == (rest, "/");
      assert Find(rest, "/").None?;
    }
  }

  /** http/https: the host is the text before the first '/', the path is
      the rest from that '/' on (or "/" when there is none), the port is 80
      or 443 unless the host part holds ':', in which case the text after
      the first ':' must pass `int()` and overrides it. */
  lemma NetworkFields(scheme: Scheme, rest: string)
    requires scheme == Http || scheme == Https
    ensures
      var r := Parse(SchemeName(scheme) + "://" + rest);
      var slash := Find(rest, "/");
      var authority := if slash.Some? then rest[..slash.value] else rest;
      var path := if slash.Some? then rest[slash.value..] else "/";
      var defaultPort := if scheme == Http then 80 else 443;
      match Find(authority, ":")
      case None => r == Ok(Url(Some(scheme), authority, Some(defaultPort), Some(path), None, false, false))
      case Some(c) =>
        match Numbers.ParseInt(authority[c + 1..])
        case None => r == Err(BadPort)
        case Some(p) => r == Ok(Url(Some(scheme), authority[..c], Some(p), Some(path), None, false, false))
  {
    NetworkPrefix(scheme, rest);
    HostPath(rest);
  }

  /** `view-source:X` is X with the view-source flag set and the
      right-to-left flag clear, data attributes included; it fails exactly
      when X fails or leaves `scheme` or `path` unassigned. */
  lemma ViewSource(x: string)
    ensures Parse("view-source:" + x).Ok? <==>
              Parse(x).Ok? && Parse(x).value.scheme.Some? && Parse(x).value.path.Some?
    ensures Parse("view-source:" + x).Ok? ==>
              Parse("view-source:" + x).value == Parse(x).value.(viewSource := true, rightToLeft := false)
  {
    var u := "view-source:" + x;
    assert u[12..] == x;
    assert StartsWith(u, "view-source:");
  }

  /** `rlt:X` keeps X's scheme, host, port and path, sets the right-to-left
      flag, and copies none of the data attributes. */
  lemma RightToLeft(x: string)
    ensures Parse("rlt:" + x).Ok? <==>
              Parse(x).Ok? && Parse(x).value.scheme.Some? && Parse(x).value.path.Some?
    ensures Parse("rlt:" + x).Ok? ==>
              Parse("rlt:" + x).value ==
                Parse(x).value.(payload := None, viewSource := false, rightToLeft := true)
  {
    var u := "rlt:" + x;
    assert u[4..] == x;
    assert StartsWith(u, "rlt:");
    NotPrefixed(u, "view-source:");
  }

  /** No parse ever yields a data: target with a path: the data branch
      assigns none, and both prefix modifiers fail on such a target. */
  lemma {:induction false} DataHasNoPath(x: string)
    requires Parse(x).Ok? && Parse(x).value.scheme == Some(Data)
    ensures Parse(x).value.path.None?
    decreases |x|
  {
    if StartsWith(x, "view-source:") {
      DataHasNoPath(x[12..]);
    } else if StartsWith(x, "rlt:") {
      DataHasNoPath(x[4..]);
    }
  }

  /** Hence neither prefix modifier accepts a data: URL. */
  lemma PrefixedDataFails(x: string)
    requires Parse(x).Ok? && Parse(x).value.scheme == Some(Data)
    ensures Parse("view-source:" + x).Err? && Parse("rlt:" + x).Err?
  {
    DataHasNoPath(x);
    ViewSource(x);
    RightToLeft(x);
  }

  lemma DataPrefix(rest: string)
    ensures Parse("data:" + rest) == ParseData(rest)
  {
    var u := "data:" + rest;
    NotPrefixed(u, "view-source:");
    NotPrefixed(u, "rlt:");
    assert StartsWith(u, "data:") && u[5..] == rest;
  }

  /** A data: URL without a comma is an error. */
  lemma DataWithoutComma(rest: string)
    requires ',' !in rest
    ensures Parse("data:" + rest) == Err(DataMissingComma)
  {
    DataPrefix(rest);
    ContainsChar(rest, ',');
  }

  /** Without `;base64` the MIME type is the text before the first comma
      (text/plain when that is empty) and the payload is everything after
      it, verbatim. */
  lemma DataVerbatim(mime: string, data: string)
    requires ',' !in mime
    requires !Contains(mime, ";base64")
    ensures Parse("data:" + mime + "," + data) ==
              Ok(Url(Some(Data), "", None, None,
                     Some(DataPayload(if mime == [] then "text/plain" else mime, false, data)), false, false))
  {
    assert "data:" + mime + "," + data == "data:" + (mime + "," + data);
    DataPrefix(mime + "," + data);
    CommaSplit(mime, data);
  }

  lemma CommaSplit(mime: string, data: string)
    requires ',' !in mime
    ensures SplitOnce(mime + "," + data, ",") == Some((mime, data))
  {
    FindAfterPrefix(mime, ",", data);
    var s := mime + "," + data;
    assert s[..|mime|] == mime && s[|mime| + 1..] == data;
  }

  /** With `;base64` in the MIME part the payload is the UTF-8 text the
      Base64 encodes, and the MIME type loses its `;base64`: encoding any
      text and parsing gives the text back. */
  lemma DataBase64(mime: string, text: string)
    requires ',' !in mime
    requires Contains(mime, ";base64")
    ensures Parse("data:" + mime + "," + Base64.Encode(Utf8.Encode(text))) ==
              Ok(Url(Some(Data), "", None, None,
                     Some(DataPayload(Replace(mime, ";base64", ""), true, text)), false, false))
  {
    var data := Base64.Encode(Utf8.Encode(text));
    assert "data:" + mime + "," + data == "data:" + (mime + "," + data);
    DataPrefix(mime + "," + data);
    CommaSplit(mime, data);
    Base64.DecodeEncode(Utf8.Encode(text));
    Utf8.DecodeEncode(text);
    assert mime != [];
  }

  /** The text/plain default applies before `;base64` is removed, so
      `data:;base64,...` gets an empty MIME type. */
  lemma BareBase64HasEmptyMime(text: string)
    ensures Parse("data:;base64," + Base64.Encode(Utf8.Encode(text))) ==
              Ok(Url(Some(Data), "", None, None, Some(DataPayload("", true, text)), false, false))
  {
    var d := Base64.Encode(Utf8.Encode(text));
    BareMime();
    BareConcat(d);
    DataBase64(";base64", text);
  }

  lemma BareMime()
    ensures Contains(";base64", ";base64") && ',' !in ";base64"
    ensures Replace(";base64", ";base64", "") == ""
  {
    assert OccursAt(";base64", ";base64", 0);
    ReplaceWhole(";base64");
  }

  lemma BareConcat(d: string)
    ensures "data:;base64," + d == "data:" + ";base64" + "," + d
  {
  }

  lemma ReplaceWhole(m: string)
    requires m != []
    ensures Replace(m, m, "") == ""
  {
    assert StartsWith(m, m) && m[|m|..] == [];
  }

  /** A string with no `://` and no prefix modifier or `data:` in front is
      the about:blank target. */
  lemma NoSchemeIsBlank(x: string)
    requires !Contains(x, "://")
    requires !StartsWith(x, "view-source:") && !StartsWith(x, "rlt:") && !StartsWith(x, "data:")
    ensures Parse(x) == Ok(AboutBlank)
  {
  }

  /** A scheme outside http, https, file and data fails the constructor's
      assertion. */
  lemma UnknownSchemeFails(name: string, rest: string)
    requires name != [] && ':' !in name
    requires name != "http" && name != "https" && name != "file" && name != "data"
    requires name != "rlt" && name != "view-source"
    ensures Parse(name + "://" + rest) == Err(BadScheme)
  {
    var u := name + "://" + rest;
    assert u[|name|] == ':';
    assert forall k :: 0 <= k < |name| ==> u[k] == name[k];
    PrefixNeedsName(u, name, "view-source:");
    PrefixNeedsName(u, name, "rlt:");
    PrefixNeedsName(u, name, "data:");
    assert !StartsWith(u, "view-source:") && !StartsWith(u, "rlt:") && !StartsWith(u, "data:");
    FindAfterPrefix(name, "://", rest);
    assert Contains(u, "://");
    assert u[|name| + 1] == '/';
    assert '/' !in "about:blank";
    assert u[..|name|] == name && u[|name| + 3..] == rest;
    assert SplitOnce(u, "://") == Some((name, rest));
  }

  /** When `u` is `name` followed by ':' and `name` holds no ':', `u`
      starts with a prefix ending in its only ':' only if `name` is that
      prefix's head. */
  lemma PrefixNeedsName(u: string, name: string, p: string)
    requires |p| > 0 && p[|p| - 1] == ':' && ':' !in p[..|p| - 1]
    requires |name| < |u| && u[|name|] == ':' && ':' !in name
    requires forall k :: 0 <= k < |name| ==> u[k] == name[k]
    ensures StartsWith(u, p) ==> name == p[..|p| - 1]
  {
    if StartsWith(u, p) && |name| == |p| - 1 {
      assert name == u[..|name|];
    }
  }
}
