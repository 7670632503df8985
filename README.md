# Vares Browser: a verified model of `Browser.py`

Vares Browser is a small Tk web browser written in Python. This project
models the core of its one file, `Browser.py`, in Dafny and proves
properties of the model:

- `URL(url)`, which parses a URL. It handles `http`, `https`, `file` and
  `data:` URLs, `about:blank`, and the `view-source:` and `rlt:` prefixes
  (modules `Urls`, `UrlFacts`).
- `URL.request`, which fetches a page. It covers the cache lookup, the pool
  of open sockets, the request text, the status line and headers, redirects
  and the redirect budget, body framing (chunked, `Content-Length`, read to
  the end), gzip, `Connection: close`, the cache store and UTF-8 decoding.
  - `Fetch` is the specification. It is a function of the three globals
    `request` reads and writes: `cached_responses`, the keys of
    `open_sockets`, and `redirects_number`.
  - `Client.Session` is the imperative form: a class holding those globals
    and changing them in place.
  - `Http.Reader` is a buffered socket stream read line by line.
  - Each method is proved equal to its `Fetch` function. `FetchFacts`
    states what the functions promise.
- `lex`, which strips tags, decodes the `&lt;` and `&gt;` entities, escapes
  view-source text and reverses right-to-left lines (`Lexer`).
- `layout`, which places each character on the page (`Layouts`).
- The scroll, resize and `load` logic of the `Browser` window
  (`Window.Browser`).

Python's own `str`, `int()`, `base64.b64decode` and UTF-8 codec are
modelled as far as the browser relies on them. They live in the modules
`Text`, `Numbers`, `Base64` and `Utf8`. Their round trips are proved, for
example `int(str(n)) == n` and decoding of an encoding.

Outside influences are parameters:
- the clock is an integer `now`;
- the network, TLS, the file system and gzip are the fields of a
  `Fetch.Env` value;
- whether a character has an emoji image is a predicate `isEmoji`.

## Model

| member | source | states |
|---|---|---|
| Text.Strip | Browser.py:187 | `str.strip()`: the result is no longer than the input and neither starts nor ends with whitespace |
| Text.StripSlice | Browser.py:187 | the stripped text is a contiguous piece of the input, with only whitespace cut off before and after it |
| Text.StripNoSpace | Browser.py:216 | text with no whitespace at either end is left unchanged by strip |
| Text.StripTrailingSpace | Browser.py:187 | strip removes trailing whitespace and nothing else from text that is otherwise already stripped |
| Text.Lower | Browser.py:229 | `str.lower()` on ASCII: same length; each character is kept or is an upper-case letter turned into its lower-case form; no upper-case letter remains |
| Text.LowerIdempotent | Browser.py:295 | lowering twice is the same as lowering once |
| Text.FindFrom | Browser.py:59 | a substring search from a position finds the first occurrence at or after it, or reports that there is none |
| Text.Find | Browser.py:59 | `str.find`: the first occurrence of the substring, or None exactly when it occurs nowhere |
| Text.FindIs | Browser.py:59 | an occurrence with none before it is what find returns |
| Text.FindNone | Browser.py:59 | a substring occurring nowhere is not found |
| Text.FindAppend | Browser.py:222 | appending text after a found occurrence does not move the first occurrence |
| Text.ContainsChar | Browser.py:86 | `c in s` for a one-character substring agrees with membership of the character |
| Text.FindAfterPrefix | Browser.py:64 | a separator after a prefix that cannot start it is first found right after the prefix |
| Text.SplitOnce | Browser.py:64 | `split(sep, 1)`: None exactly when the separator is absent; otherwise the two parts put back around the separator give the input, and the first part holds no occurrence |
| Text.Split | Browser.py:375 | `split(sep)`: at least one part, no part holds the separator, and joining the parts with it gives back the input |
| Text.SplitJoin | Browser.py:383 | splitting a join of separator-free parts gives back the parts |
| Text.ReplaceAbsent | Browser.py:318 | replacing a pattern that does not occur leaves the text unchanged |
| Text.ReplaceCharAppend | Browser.py:318 | replacing a one-character pattern distributes over concatenation |
| Text.Reverse | Browser.py:379 | `line[::-1]`: same length, the character at position k comes from position len-1-k |
| Text.ReverseReverse | Browser.py:379 | reversing twice gives back the text |
| Text.ReverseKeepsChars | Browser.py:379 | reversal keeps exactly the characters present |
| Numbers.RemoveUnderscoresDigits | Browser.py:78 | removing the underscores from digits and underscores leaves digits only |
| Numbers.RemoveUnderscoresNone | Browser.py:78 | a digit string without underscores is unchanged |
| Numbers.ParseDigits | Browser.py:78 | digits separated by single underscores parse, and nothing else does |
| Numbers.IntStrip | Browser.py:78 | the text `int()` reads is what is left when its own whitespace (which excludes U+001C..U+001F) is cut from both ends |
| Numbers.BlankNotLiteral | Browser.py:78 | text that `strip()` empties holds no literal `int()` or `int(_, 16)` accepts |
| Numbers.ParseInt | Browser.py:78 | `int(s)` succeeds exactly when the text left after `int()`'s whitespace is cut is grouped decimal digits with an optional sign in front, so never on blank text |
| Numbers.ParseHexMagnitude | Browser.py:252 | an unsigned `int(t, 16)` succeeds exactly on grouped hexadecimal digits after an optional `0x` or `0X`, which one underscore may follow |
| Numbers.ParseHex | Browser.py:252 | `int(s, 16)` succeeds exactly when the text left after `int()`'s whitespace is cut is such a hexadecimal number with an optional sign in front, so never on blank text |
| Numbers.Show | Browser.py:196 | `str(n)` and `format(n, "x")`: a non-empty digit string with no leading zero except for zero itself |
| Numbers.HexDigitValue | Browser.py:252 | each hexadecimal digit character has the value it was made from |
| Numbers.ValueShow | Browser.py:196 | the digits of `n` denote `n` |
| Numbers.ShowIsGrouped | Browser.py:196 | the digits of `n` are a well-formed digit string that parses back to `n` |
| Numbers.ShowHasNoSpace | Browser.py:196 | the digits of `n` carry no surrounding whitespace and no sign |
| Numbers.ParseShowInt | Browser.py:196 | `int(str(n)) == n` for every integer |
| Numbers.ParseShowNatural | Browser.py:196 | `int(str(n)) == n` for non-negative integers |
| Numbers.ParseShowNegative | Browser.py:196 | `int(str(n)) == n` for negative integers |
| Numbers.NegativeText | Browser.py:196 | `str(n)` of a negative number is a minus sign followed by the digits of `-n` |
| Numbers.ParseShowHex | Browser.py:252 | `int(format(n, "x"), 16) == n` |
| Numbers.ParseIntBlank | Browser.py:78 | `int()` and `int(_, 16)` reject blank text |
| Numbers.SeparatorNotSkipped | Browser.py:78 | U+001C before a number is removed by `strip()` but makes `int()` fail |
| Base64.SextetChar | Browser.py:94 | every six-bit value has an alphabet character whose value it is |
| Base64.Decode | Browser.py:94 | text that decodes has a length that is a multiple of four |
| Base64.Encode | Browser.py:94 | an encoding has a length that is a multiple of four |
| Base64.DecodeGroup | Browser.py:94 | a full group of four characters decodes to its three bytes in front of the rest |
| Base64.DecodeEncodeOne | Browser.py:94 | a padded group of one byte decodes back to it |
| Base64.DecodeEncodeTwo | Browser.py:94 | a padded group of two bytes decodes back to them |
| Base64.DecodeEncodeGroup | Browser.py:94 | a full group in front of bytes that round-trip round-trips too |
| Base64.DecodeEncode | Browser.py:94 | decoding the encoding of any bytes gives them back |
| Utf8.DecodeOne | Browser.py:94 | a decoded character takes one to four bytes, and one byte exactly when that byte is ASCII |
| Utf8.EncodeChar | Browser.py:184 | a character encodes to one to four bytes |
| Utf8.DecodeOneEncodeChar | Browser.py:94 | the encoding of a character decodes to that character and uses all its bytes, whatever follows |
| Utf8.DecodeEncode | Browser.py:313 | `s.encode("utf8").decode("utf8") == s` |
| Utf8.EncodeAscii | Browser.py:184 | ASCII text encodes to one byte per character, with the character's code |
| Utf8.EncodeAppend | Browser.py:184 | encoding distributes over concatenation |
| UrlFacts.NetworkPrefix | Browser.py:64-79 | a URL with an http or https scheme parses by the network branch applied to what follows `://` |
| UrlFacts.HostPath | Browser.py:72-75 | the host is what comes before the first `/`, and the path runs from that `/` on, or is `/` when there is none |
| UrlFacts.NetworkFields | Browser.py:67-79 | the full result of parsing an http or https URL: host, path, a default port of 80 or 443, an explicit port after `:`, and failure when the port is not an integer |
| UrlFacts.ViewSource | Browser.py:33-44 | `view-source:x` parses exactly when `x` parses to a URL with a scheme and a path; the result is `x`'s URL marked view-source |
| UrlFacts.RightToLeft | Browser.py:46-53 | `rlt:x` parses exactly when `x` parses to a URL with a scheme and a path; the result is `x`'s URL marked right-to-left, without its data attributes |
| UrlFacts.DataHasNoPath | Browser.py:83-98 | a data URL never has a path |
| UrlFacts.PrefixedDataFails | Browser.py:37-53 | `view-source:` and `rlt:` in front of a data URL fail |
| UrlFacts.DataPrefix | Browser.py:55-57 | a `data:` prefix sends the rest to the data branch |
| UrlFacts.DataWithoutComma | Browser.py:86-87 | a data URL without a comma fails |
| UrlFacts.DataVerbatim | Browser.py:88-98 | a data URL without `;base64` carries its text unchanged, with `text/plain` for an empty media type |
| UrlFacts.CommaSplit | Browser.py:88 | the media type ends at the first comma, and the data is everything after it |
| UrlFacts.DataBase64 | Browser.py:88-96 | a `;base64` data URL carries the decoded text of its payload, with `;base64` removed from the media type |
| UrlFacts.BareBase64HasEmptyMime | Browser.py:89-92 | `data:;base64,` gives an empty media type, not `text/plain` |
| UrlFacts.NoSchemeIsBlank | Browser.py:59-63 | a URL without `://` or a prefix is about:blank |
| UrlFacts.UnknownSchemeFails | Browser.py:64-66 | any other scheme name before `://` fails the scheme check |
| Http.LineEnd | Browser.py:187 | `readline()`: the line ends just after the first LF, or at the end of the data; it is empty only at the end |
| Http.ReadN | Browser.py:264 | `read(n)`: the bytes from the cursor, `n` of them or up to the end; `-1` reads all; any `n` below `-1` fails |
| Http.ReadLineText | Browser.py:187 | a line decoded and stripped ends where `readline` stops; a failure is a UTF-8 error |
| Http.Reader.constructor | Browser.py:186 | a new stream is positioned at the start of the data |
| Http.Reader.ReadLine | Browser.py:187 | the line is the bytes from the old cursor to the line end, where the cursor moves |
| Http.Reader.ReadText | Browser.py:187 | the stripped text of the next line, or a UTF-8 error |
| Http.Reader.Read | Browser.py:264-266 | the bytes `read(n)` returns, with the cursor after them; an invalid length leaves the cursor alone |
| Http.BuildRequest | Browser.py:173-182 | the loop builds the request line followed by the four headers and a blank line |
| Http.ParseStatusLine | Browser.py:194-200 | every failure is BadStatusLine; which lines fail and what a success returns are HttpFacts.StatusLineFields and HttpFacts.NoSpaceRejected |
| Http.HeaderMapSnoc | Browser.py:202-211 | each header line adds its lower-cased name and stripped value, replacing an earlier one, and a line without `:` adds nothing |
| Http.HeaderLines | Browser.py:203-205 | every line gathered is non-empty, the position stays within the stream, and the only failure is BadUtf8; the stop at the first blank line is the definition itself |
| Http.HeaderBlock | Browser.py:202-211 | reading the header block only moves forward in the data |
| Http.ReadHeaders | Browser.py:202-211 | the loop reads the header block the function describes and leaves the cursor after it |
| Http.NextChunk | Browser.py:248-261 | one chunk moves the cursor forward; a data chunk moves it strictly |
| HttpFacts.BadSizeLine | Browser.py:248-256 | a non-empty size line that `int(_, 16)` refuses ends the chunk loop, and a chunked body, in BadChunkSize |
| Http.ChunkedBody | Browser.py:247-262 | a chunked body only moves the cursor forward |
| Http.ReadChunk | Browser.py:248-261 | one pass of the loop reads the chunk the function describes |
| Http.ReadChunked | Browser.py:247-262 | the loop gathers the chunked body the function describes |
| Http.Body | Browser.py:245-266 | a chunked body is what the chunk loop reads, or its error; with `Content-Length` n, a length `int()` refuses is BadContentLength, n >= 0 gives the next n bytes or all that is left, -1 everything left, and a smaller n BadReadLength; otherwise the body is everything left in the stream |
| Http.ReadBody | Browser.py:245-266 | the body the stream yields is the one the function describes |
| HttpFacts.HeaderMapLast | Browser.py:202-211 | the last header line decides its name's value, and leaves other names as they were |
| HttpFacts.HeaderPresent | Browser.py:202-211 | a header name is in the dictionary exactly when some line declares it |
| HttpFacts.HeaderDeclared | Browser.py:208 | a declared name is in the dictionary |
| HttpFacts.HeaderDeclarer | Browser.py:208 | a name in the dictionary has a line that declares it |
| HttpFacts.HeaderLastWins | Browser.py:208 | the value kept is that of the last line declaring the name |
| HttpFacts.HeaderNamesFolded | Browser.py:208 | no header name in the dictionary holds an upper-case letter |
| HttpFacts.NoCapitalisedConnection | Browser.py:229 | the key `Connection` is never in the dictionary, so the check before a redirect never closes the socket |
| HttpFacts.ColonlessLineSkipped | Browser.py:206-211 | a header line without `:` is ignored |
| HttpFacts.StatusLineRoundTrip | Browser.py:194-196 | `version status reason` parses back to its three parts |
| HttpFacts.StatusLineNeedsReason | Browser.py:195-200 | a status line without a reason phrase is rejected |
| HttpFacts.StatusLineFields | Browser.py:194-200 | `version code reason` with no space in the first two fields gives version, `int(code)` and reason whatever form `int()` accepts the code in, and BadStatusLine when `int()` refuses it |
| HttpFacts.NoSpaceRejected | Browser.py:194-195 | a status line without a space is BadStatusLine |
| HttpFacts.SignedStatusField | Browser.py:196 | `HTTP/1.1 +0200 OK` has status 200 |
| HttpFacts.SignedLeadingZero | Browser.py:196 | `int("+0200") == 200` |
| HttpFacts.RequestLayout | Browser.py:173-180 | split at LF, the request text is the request line, the four headers and an empty line |
| HttpFacts.RequestJoined | Browser.py:173-182 | the request text is its lines each followed by LF |
| HttpFacts.RequestLinesHaveNoLf | Browser.py:173-180 | no request line contains LF when host, path and user agent do not |
| HttpFacts.ChunkedRoundTrip | Browser.py:245-262 | chunked coding that frames each chunk with its hexadecimal size and ends with a zero chunk reads back as the chunks put together |
| Caching.Lookup | Browser.py:129-138 | a hit exactly when the entry exists and is fresh, with its content and the cache unchanged; otherwise the key is gone and no other entry changes |
| Caching.FirstMaxAge | Browser.py:299-306 | the result is the value of the first `max-age=` directive whose value parses, no earlier directive setting one; None when no such directive parses |
| Caching.MaxAge | Browser.py:298-306 | the loop over the directives finds what the function describes |
| Caching.NoMaxAgeInEmpty | Browser.py:308 | an absent `Cache-Control` yields no max-age |
| Caching.StoreRule | Browser.py:294-310 | a response is stored exactly when its status is 200, 301 or 404, `no-store` is absent and no max-age parses; a stored entry never expires |
| Caching.StoredIsFound | Browser.py:130-135 | a stored response is found again at any later time |
| Caching.StorePreservesNoExpiry | Browser.py:308-310 | storing keeps a cache in which no entry expires |
| Fetch.Fail | Browser.py:189-200 | an error ends the exchange and leaves the redirect counter and the cache alone |
| Fetch.Finish | Browser.py:268-313 | when both gzip layers inflate, the page is the UTF-8 decoding of the result, `Connection: close` in any case removes the socket from the pool and otherwise the pool is kept, and the cache becomes the store rule applied to the decompressed body; a gzip failure keeps the cache and closes the socket only for BadGzipFile; the redirect counter is untouched |
| Fetch.Inflate | Browser.py:269-286 | a layer not asked for passes the bytes through; a failed layer is BadGzip or GzipBroken |
| Fetch.Decompress | Browser.py:268-286 | without a gzip content or transfer coding the body is unchanged; any failure is a gzip error |
| Fetch.Redirect | Browser.py:216-233 | the redirect branch leaves the counter and the cache alone, and if it ends the exchange, it ends it in an error |
| Fetch.AfterHeaders | Browser.py:213-266 | a followed redirect was allowed by the budget and raises the counter by one; any other outcome raises it at most by one |
| Fetch.Deliver | Browser.py:241-313 | a malformed body ends the exchange in its error with the cache kept; a body that decompresses becomes the page, and the cache takes it under the store rule; the counter is untouched |
| Fetch.Respond | Browser.py:186-266 | a followed redirect was allowed by the budget and raises the counter by one; any other outcome raises it at most by one |
| Fetch.Exchange | Browser.py:128-184 | a followed redirect was allowed by the budget and raises the counter by one |
| FetchFacts.BodyNeedsBudget | Browser.py:236-239 | a body is returned only while the counter is below the limit |
| FetchFacts.ResponseNeedsBudget | Browser.py:236-239 | a response read from the network succeeds only while the counter is below the limit |
| FetchFacts.BudgetExhausted | Browser.py:236-239 | a counter at or over the limit fails every response, closing the socket, unless the counter is at the limit and the status is a redirect |
| FetchFacts.RedirectFollowed | Browser.py:214-233 | a redirect within the budget raises the counter and keeps the cache; a missing Location fails and closes the socket; otherwise the resolved Location is parsed and followed, with the socket kept |
| FetchFacts.RedirectNotCached | Browser.py:214-233 | a redirect status never changes the cache |
| FetchFacts.BadStatusLineCloses | Browser.py:189-200 | an empty or malformed status line fails and closes the socket |
| FetchFacts.CacheHit | Browser.py:129-135 | a fresh cache entry answers the request with its decoded content and changes nothing |
| FetchFacts.ExchangeCounter | Browser.py:214-215 | one exchange raises the counter by at most one, and only within the budget |
| FetchFacts.RespondCounter | Browser.py:214-215 | reading a response raises the counter only within the budget |
| FetchFacts.AfterHeadersCounter | Browser.py:214-215 | the step after the headers raises the counter only within the budget |
| FetchFacts.RequestCounter | Browser.py:214-233 | a whole chain of redirects leaves the counter between its start and one past the limit |
| FetchFacts.AfterHeadersNeverExpires | Browser.py:293-311 | the step after the headers never stores an entry with an expiry |
| FetchFacts.DeliverNeverExpires | Browser.py:293-311 | reading the body never stores an entry with an expiry |
| FetchFacts.FinishNeverExpires | Browser.py:293-311 | finishing never stores an entry with an expiry |
| FetchFacts.RespondNeverExpires | Browser.py:293-311 | reading a response never stores an entry with an expiry |
| FetchFacts.ExchangeNeverExpires | Browser.py:293-311 | one exchange never stores an entry with an expiry |
| FetchFacts.RequestNeverExpires | Browser.py:101-313 | starting from a cache without expiries, every request leaves one without expiries |
| FetchFacts.ContentCodingFirst | Browser.py:268-286 | the transfer coding is undone on what the content coding inflated; a content layer without a gzip header is BadGzip and any other failure of it is GzipBroken |
| FetchFacts.PlainResponse | Browser.py:186-313 | a status line, a header block without framing, coding or connection headers, and a status that is not a redirect within the budget give the decoded rest of the stream as the page, with the pool kept and the body stored under the store rule |
| FetchFacts.OkResponse | Browser.py:186-313 | `HTTP/1.0 200 OK`, a blank line and a body give the decoded body and store it with no expiry |
| FetchFacts.OkStatusLine | Browser.py:186-196 | the line `HTTP/1.0 200 OK` CRLF is read as that text and parses to version, 200 and reason |
| FetchFacts.BlankLineAt | Browser.py:202-206 | a CRLF alone ends the header block with no headers |
| FetchFacts.RelativeRedirectDropsPort | Browser.py:222-227 | a relative Location resolves to the same host with the scheme's default port, with the path made absolute |
| FetchFacts.HostOnly | Browser.py:225-227 | `scheme://host/tail` parses to that host, the default port and the path `/tail` |
| FetchFacts.ResolvedShape | Browser.py:222-227 | a relative Location resolves to `scheme://host/` followed by the location without its leading `/` |
| FetchFacts.DataNeverDelivered | Browser.py:108-126 | requesting a data URL fails on its missing path and changes nothing |
| FetchFacts.BlankPage | Browser.py:108-109 | about:blank answers `<>` and changes nothing |
| Client.Session.constructor | Browser.py:13-27 | empty cache, no open sockets, counter 0 |
| Client.Session.Close | Browser.py:190-191 | the socket's key leaves the pool |
| Client.Session.Raise | Browser.py:189-200 | the globals after an error are the ones the specification gives |
| Client.Session.StoreResponse | Browser.py:293-311 | the cache after the store is what the storing rule gives |
| Client.Session.Finish | Browser.py:268-313 | the gzip, close, store and decode steps leave the globals the specification gives |
| Client.Session.Redirect | Browser.py:216-233 | the redirect branch matches the specification |
| Client.Session.AfterHeaders | Browser.py:213-266 | the redirect, limit and body branches match the specification |
| Client.Session.Deliver | Browser.py:241-266 | the body read matches the specification |
| Client.Session.Respond | Browser.py:186-266 | reading the response from the stream matches the specification |
| Client.Session.LookUp | Browser.py:129-138 | the lookup purges an expired entry and returns a fresh one, touching nothing else |
| Client.Session.Connect | Browser.py:141-170 | a pooled socket is reused; otherwise a new one is added only when connecting succeeds |
| Client.Session.Exchange | Browser.py:128-184 | one exchange matches the specification |
| Client.Session.Request | Browser.py:101-313 | `request`, redirects included, returns what the specification gives and leaves the globals it gives |
| Lexer.EntityLength | Browser.py:346-348 | the entity name read after `&` stops at `;`, at the end of the text, or after four characters |
| Lexer.EntityPiece | Browser.py:342-359 | an entity consumes no more than the text holds |
| Lexer.LexFromRest | Browser.py:327-370 | the index-based scan from position i agrees with lexing the rest of the text |
| Lexer.ReverseEach | Browser.py:377-381 | each line is replaced by its reversal |
| Lexer.StripTags | Browser.py:320-370 | the character loop produces the lexed text |
| Lexer.ReadEntity | Browser.py:342-348 | the inner loop reads `&` and the entity name the specification gives |
| Lexer.LexStep | Browser.py:327-370 | one pass of the loop moves forward and emits what comes before the rest of the lexed text |
| Lexer.ReadPiece | Browser.py:342-359 | an entity pass emits what comes before the rest of the lexed text |
| Lexer.Lex | Browser.py:315-385 | `lex` returns the escaped, lexed and reversed text the specification gives |
| Lexer.PlainTextKept | Browser.py:360-365 | text without `<`, `>` or `&` is kept as is |
| Lexer.InsideTag | Browser.py:335-340 | inside a tag everything up to `>` is dropped |
| Lexer.TagDropped | Browser.py:329-340 | a whole tag is dropped |
| Lexer.ShortEntity | Browser.py:342-356 | a terminated entity of two characters is decoded |
| Lexer.EntitiesDecoded | Browser.py:323 | `&lt;` and `&gt;` become `<` and `>` |
| Lexer.EntityLengthOf | Browser.py:346 | the entity name is read up to its `;` or its fourth character |
| Lexer.EntityVerbatim | Browser.py:354-355 | any other terminated entity is kept verbatim |
| Lexer.EntityUnterminated | Browser.py:357-359 | an entity without `;` is kept verbatim and the text after it is lexed |
| Lexer.EscapeOne | Browser.py:318 | escaping replaces `<` and `>` with their entities and keeps other characters |
| Lexer.EscapeCons | Browser.py:318 | escaping works character by character |
| Lexer.PlainChar | Browser.py:360-365 | an ordinary character outside a tag is copied |
| Lexer.ViewSourceShowsSource | Browser.py:317-318 | in view-source mode, text without `&` is shown exactly as written, tags included |
| Lexer.ReversedLines | Browser.py:373-383 | the right-to-left text has the same lines, each reversed |
| Lexer.ReverseLinesTwice | Browser.py:373-383 | reversing the lines twice gives back the text |
| Layouts.Layout | Browser.py:387-433 | the loop produces the display list and lowest line the specification gives |
| Layouts.EntriesFollowText | Browser.py:398-426 | every character but a newline gets one entry, in order, and an image entry exactly when it has an emoji |
| Layouts.PlaceKeeps | Browser.py:398-431 | one character keeps the display list running down the page within the margins |
| Layouts.RunPlaced | Browser.py:398-431 | after any prefix of the text the display list runs down the page within the margins |
| Layouts.LayoutShape | Browser.py:387-433 | entries never move up the page, every entry lies within the margins, and `biggest_y` is the line of the last entry |
| Window.MaxScroll | Browser.py:471 | the scroll limit is never negative and never below how far the page reaches past the window |
| Window.WheelScroll | Browser.py:469-472 | a wheel turn lands on the page, where it was aimed when that is on the page and at the nearer end otherwise |
| Window.DownBounded | Browser.py:475-479 | a step down moves by one step or not at all, never past the bottom unless it was already there, and keeps the position on a step |
| Window.UpBounded | Browser.py:481-484 | a step up moves by one step or not at all, never above the top, and keeps the position on a step |
| Window.PageClearsScrollbar | Browser.py:538-544 | when the page is taller than the window, its text keeps clear of the scrollbar |
| Window.Browser.constructor | Browser.py:437-443 | a new window is at the top, 800 by 600, with no page |
| Window.Browser.ScrollDown | Browser.py:475-479 | the position moves by one step down when that stays on the page, and the handler fails before a page has loaded |
| Window.Browser.ScrollUp | Browser.py:481-484 | the position moves by one step up when that stays on the page |
| Window.Browser.MouseWheelScroll | Browser.py:460-473 | the position moves by the wheel's steps, clamped to the page |
| Window.Browser.Resize | Browser.py:487-498 | the new size is kept and a loaded page is laid out again for it |
| Window.Browser.Load | Browser.py:533-544 | the counter restarts at 0; the page is requested, then lexed and laid out; a failed request leaves the page as it was |

## Left out

- Sockets, TLS, timeouts and the file system are not modelled. Connecting is
  a yes/no answer of `Fetch.Env.connect`, and the server's reply is
  `Fetch.Env.answer` of the request bytes. So the pool holds keys, not
  socket objects.
- Bytes left unread on a reused socket are not carried into the next
  request on it. Each exchange reads a fresh answer.
- The error messages and the exception classes are left out. Errors are the
  constructors of `Common.Error`.
- `print` diagnostics are left out.
- `time.time()` is an integer `now` passed in, not a float.
- `gzip.decompress` is `Fetch.Env.gunzip`, a parameter with three outcomes:
  the inflated bytes, BadGzipFile (caught, closing the socket) and any other
  exception (EOFError, zlib.error), which escapes `request` with the socket
  left in the pool and is the error GzipBroken here. Reading a file as
  UTF-8 is `Fetch.Env.readFile`.
- On Windows, request strips a leading `/` from a file path
  (Browser.py:114-115). This is not modelled, because the platform is not an
  input here.
- `str.strip`, `lower` and `casefold` are modelled on ASCII and Python's
  whitespace class. Unicode case folding is not. `int()` accepts ASCII digits
  only, not other Unicode digits.
- Numbers.ParseInt: does not model the limit on the number of decimal
  digits `int()` converts (4300 by default since Python 3.11, none before,
  and settable with `sys.set_int_max_str_digits`), because it depends on the
  interpreter version and configuration. So a `Content-Length`, port,
  status or `max-age` of more digits than that parses here, where such an
  interpreter raises ValueError.
- `base64.b64decode` is modelled strictly: padded groups of alphabet
  characters. Python by default also drops characters outside the alphabet
  and accepts some short padding.
- Layouts.Layout does not model the emoji image path. Whether the file
  exists is the predicate `isEmoji`, and an image entry keeps the character
  its path is named after.
- `draw` (canvas drawing, the scrollbar thumb in floats, the emoji image
  cache), the Tk window and its key bindings, and `__main__` are left out.
  They are drawing and I/O.
- `__main__` calls `Browser()` without its argument when no URL is given.
- Window.Browser.MouseWheelScroll models the Linux and macOS branch. The
  Windows branch divides the wheel delta by 120 in floating point, and the
  fallback branch for other systems moves by 0.
- Lexer: the entity flushes at Browser.py:331-333, 337-339, 361-363 and
  367-369 are not modelled. They are dead code, because `entity` is always
  empty when they run.

Behaviours of Browser.py that a reader of its code might not expect, each
modelled as written:

- The cache stores a response only when no `max-age` parses
  (Browser.py:308). Caching.StoreRule and FetchFacts.RequestNeverExpires
  state that consequently no entry ever gets an expiry.
- The limit check at Browser.py:236 uses `>=`. A chain of exactly 10
  redirects therefore fails: the tenth raises the counter to 10, and the
  final response is rejected (FetchFacts.BudgetExhausted).
- The `Connection` header is looked up under its capitalised name before a
  redirect (Browser.py:229). Names are stored folded, so the socket is never
  closed there (HttpFacts.NoCapitalisedConnection).
- A relative Location loses the port of the current URL
  (FetchFacts.RelativeRedirectDropsPort).
- A data URL never reaches its payload in `request`, because it has no path
  (FetchFacts.DataNeverDelivered).
- `rlt:` does not copy the data attributes (UrlFacts.RightToLeft).
