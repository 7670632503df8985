/** The response cache of `URL.request`: lookup before a request
    (Browser.py:129-138) and the store rule after one (Browser.py:293-311),
    which reads the `max-age` and `no-store` directives of Cache-Control
    (sections 5.2.2.1 and 5.2.2.5 of RFC 9111). */
module Caching {

  import opened Common
  import opened Text
  import Numbers

  /** `(scheme, host, port, path)` */
  datatype Key = Key(scheme: string, host: string, port: Option<int>, path: string)

  /** `(content, expiry)`; no expiry means the entry never goes stale. */
  datatype Entry = Entry(content: seq<byte>, expiry: Option<int>)

  type Cache = map<Key, Entry>

  predicate Fresh(e: Entry, now: int)
  {
    e.expiry.None? || now < e.expiry.value
  }

  /** The cache consulted at time `now` for `key`: the content of a fresh
      entry, or nothing, in which case a stale entry has been deleted. */
  function Lookup(cache: Cache, key: Key, now: int): (r: (Option<seq<byte>>, Cache))
    ensures r.0.Some? <==> key in cache && Fresh(cache[key], now)
    ensures r.0.Some? ==> r.0.value == cache[key].content && r.1 == cache
    ensures r.0.None? ==> key !in r.1 && forall k :: k != key ==> (k in r.1 <==> k in cache)
    ensures forall k :: k in r.1 ==> k in cache && r.1[k] == cache[k]
  {
    if key in cache then
      var entry := cache[key];
      if Fresh(entry, now) then (Some(entry.content), cache)
      else (None, cache - {key})
    else (None, cache)
  }

  const CacheableStatuses: set<int> := {200, 301, 404}

  /** Splitting text that holds the separator gives at least two pieces. */
  lemma SplitAtLeastTwo(s: string, sep: char)
    requires sep in s
    ensures |Split(s, sep)| >= 2
  {
  }

  predicate IsMaxAge(directive: string)
  {
    StartsWith(directive, "max-age=")
  }

  /** `int(directive.split("=")[1])`: the text between the first and the
      second `=`. */
  function MaxAgeValue(directive: string): Option<int>
    requires IsMaxAge(directive)
  {
    assert directive[7] == '=';
    SplitAtLeastTwo(directive, '=');
    Numbers.ParseInt(Split(directive, '=')[1])
  }

  /** A directive that sets `max_age`: once stripped it starts with
      `max-age=` and its value passes `int()`. */
  predicate SetsMaxAge(directive: string)
  {
    IsMaxAge(Strip(directive)) && MaxAgeValue(Strip(directive)).Some?
  }

  /** The `max_age` the directive loop ends with: that of the first stripped
      directive that starts with `max-age=` and whose value passes
      `int()`; directives whose value does not are passed over. */
  function FirstMaxAge(directives: seq<string>): (r: Option<int>)
    ensures r.Some? ==> exists k :: 0 <= k < |directives| && SetsMaxAge(directives[k]) &&
                                    MaxAgeValue(Strip(directives[k])) == r &&
                                    forall j :: 0 <= j < k ==> !SetsMaxAge(directives[j])
    ensures r.None? ==> forall k :: 0 <= k < |directives| && IsMaxAge(Strip(directives[k])) ==>
                                    MaxAgeValue(Strip(directives[k])).None?
  {
    if directives == [] then None
    else
      var d := Strip(directives[0]);
      if IsMaxAge(d) && MaxAgeValue(d).Some? then MaxAgeValue(d)
      else
        var r := FirstMaxAge(directives[1..]);
        if r.Some? then
          PassOverSome(directives, r.value);
          r
        else
          PassOverNone(directives);
          r
  }

  /** A max-age first set after a first directive that sets none is the
      first one set in the whole list. */
  lemma PassOverSome(directives: seq<string>, v: int)
    requires directives != [] && !SetsMaxAge(directives[0])
    requires var ds := directives[1..];
      exists k :: 0 <= k < |ds| && SetsMaxAge(ds[k]) && MaxAgeValue(Strip(ds[k])) == Some(v) &&
                  forall j :: 0 <= j < k ==> !SetsMaxAge(ds[j])
    ensures exists k :: 0 <= k < |directives| && SetsMaxAge(directives[k]) &&
                        MaxAgeValue(Strip(directives[k])) == Some(v) &&
                        forall j :: 0 <= j < k ==> !SetsMaxAge(directives[j])
  {
    var ds := directives[1..];
    var k :| 0 <= k < |ds| && SetsMaxAge(ds[k]) && MaxAgeValue(Strip(ds[k])) == Some(v) &&
             forall j :: 0 <= j < k ==> !SetsMaxAge(ds[j]);
    assert directives[k + 1] == ds[k];
    forall j | 0 < j < k + 1
      ensures !SetsMaxAge(directives[j])
    {
      assert directives[j] == ds[j - 1];
    }
  }

  /** A first directive that sets no max-age, followed by none that does,
      leaves the whole list without one. */
  lemma PassOverNone(directives: seq<string>)
    requires directives != []
    requires var d := Strip(directives[0]); !(IsMaxAge(d) && MaxAgeValue(d).Some?)
    requires var ds := directives[1..];
      forall k :: 0 <= k < |ds| && IsMaxAge(Strip(ds[k])) ==> MaxAgeValue(Strip(ds[k])).None?
    ensures forall k :: 0 <= k < |directives| && IsMaxAge(Strip(directives[k])) ==>
                        MaxAgeValue(Strip(directives[k])).None?
  {
    var ds := directives[1..];
    forall k | 0 < k < |directives| && IsMaxAge(Strip(directives[k]))
      ensures MaxAgeValue(Strip(directives[k])).None?
    {
      assert directives[k] == ds[k - 1];
    }
  }

  lemma FirstMaxAgeStep(directives: seq<string>, k: nat)
    requires k < |directives|
    ensures FirstMaxAge(directives[k..]) ==
            var d := Strip(directives[k]);
            if IsMaxAge(d) && MaxAgeValue(d).Some? then MaxAgeValue(d) else FirstMaxAge(directives[k + 1..])
  {
    assert directives[k..][0] == directives[k];
    assert directives[k..][1..] == directives[k + 1..];
  }

  /** The `for directive in cache_control.split(",")` loop. */
  method MaxAge(cacheControl: string) returns (maxAge: Option<int>)
    ensures maxAge == FirstMaxAge(Split(cacheControl, ','))
  {
    var directives := Split(cacheControl, ',');
    maxAge := None;
    for k := 0 to |directives|
      invariant maxAge.None?
      invariant FirstMaxAge(directives[k..]) == FirstMaxAge(directives)
    {
      var directive := Strip(directives[k]);
      FirstMaxAgeStep(directives, k);
      if IsMaxAge(directive) {
        var value := MaxAgeValue(directive);
        if value.Some? {
          maxAge := value;
          break;
        }
      }
    }
  }

  /** What is stored for a response with this status, Cache-Control value
      and body at time `now`: nothing for a status other than 200, 301 and
      404 or when `no-store` occurs in the lower-cased Cache-Control;
      otherwise an entry when no max-age parsed or Cache-Control is empty,
      whose expiry is `now` plus the max-age if there is one. */
  function StoreEntry(status: int, cacheControl: string, content: seq<byte>, now: int): Option<Entry>
  {
    if status !in CacheableStatuses then None
    else
      var cc := Lower(cacheControl);
      if Contains(cc, "no-store") then None
      else
        var maxAge := FirstMaxAge(Split(cc, ','));
        if maxAge.None? || cc == "" then
          Some(Entry(content, match maxAge case Some(age) => Some(now + age) case None => None))
        else None
  }

  function Store(cache: Cache, key: Key, status: int, cacheControl: string, content: seq<byte>, now: int): Cache
  {
    match StoreEntry(status, cacheControl, content, now)
    case None => cache
    case Some(e) => cache[key := e]
  }

  /** An empty Cache-Control holds no max-age. */
  lemma NoMaxAgeInEmpty()
    ensures FirstMaxAge(Split("", ',')) == None
  {
    assert Split("", ',') == [""];
    assert Strip("") == "";
  }

  /** The store rule as written: a response is stored exactly when its
      status is 200, 301 or 404, `no-store` does not occur in the
      lower-cased Cache-Control, and no max-age directive parsed; the
      empty-Cache-Control alternative adds nothing, and a stored entry
      never expires. */
  lemma StoreRule(status: int, cacheControl: string, content: seq<byte>, now: int)
    ensures var cc := Lower(cacheControl);
            StoreEntry(status, cacheControl, content, now).Some? <==>
              status in CacheableStatuses && !Contains(cc, "no-store") && FirstMaxAge(Split(cc, ',')).None?
    ensures StoreEntry(status, cacheControl, content, now).Some? ==>
              StoreEntry(status, cacheControl, content, now).value == Entry(content, None)
  {
    if Lower(cacheControl) == "" {
      NoMaxAgeInEmpty();
    }
  }

  /** A stored response is found by every later lookup under its key. */
  lemma StoredIsFound(cache: Cache, key: Key, status: int, cacheControl: string, content: seq<byte>, now: int, later: int)
    requires StoreEntry(status, cacheControl, content, now).Some?
    ensures Lookup(Store(cache, key, status, cacheControl, content, now), key, later).0 == Some(content)
  {
    StoreRule(status, cacheControl, content, now);
  }

  /** Storing keeps every entry without an expiry. */
  lemma StorePreservesNoExpiry(cache: Cache, key: Key, status: int, cacheControl: string, content: seq<byte>, now: int)
    requires forall k :: k in cache ==> cache[k].expiry.None?
    ensures var c := Store(cache, key, status, cacheControl, content, now);
            forall k :: k in c ==> c[k].expiry.None?
  {
    StoreRule(status, cacheControl, content, now);
  }
}
