/** `lex` (Browser.py:315-385): the text of an HTML body with its tags
    removed, read one character at a time. Only the entities `&lt;` and
    `&gt;` are decoded; an entity is scanned for at most four characters
    after its `&`. View-source escapes the body first; right-to-left
    reverses every line. */
module Lexer {

  import opened Text

  /** `body.replace("<", "&lt;").replace(">", "&gt;")` */
  function Escape(body: string): string
  {
    Replace(Replace(body, "<", "&lt;"), ">", "&gt;")
  }

  /** How many characters after an `&` the entity scan takes: it stops at
      the end of the text, at a ';', or when the entity (with its `&`) has
      reached five characters, which leaves `room` for four. */
  function EntityLength(s: string, room: nat): (n: nat)
    ensures n <= |s| && n <= room
    ensures forall k :: 0 <= k < n ==> s[k] != ';'
    ensures n == |s| || s[n] == ';' || n == room
  {
    if room == 0 || s == [] || s[0] == ';' then 0
    else 1 + EntityLength(s[1..], room - 1)
  }

  /** The lookup in the `entities` dictionary: only `&lt;` and `&gt;` are
      known; any other entity stands for itself. */
  function DecodeEntity(entity: string): string
  {
    if entity == "&lt;" then "<"
    else if entity == "&gt;" then ">"
    else entity
  }

  /** What an `&` followed by `t` turns into, and how many characters of
      `t` that takes: the scanned characters and a closing ';' are decoded
      together, while an entity the scan leaves without a ';' is copied as
      it stands. */
  function EntityPiece(t: string): (r: (string, nat))
    ensures r.1 <= |t|
  {
    var n := EntityLength(t, 4);
    if n < |t| && t[n] == ';' then (DecodeEntity("&" + t[..n] + ";"), n + 1)
    else ("&" + t[..n], n)
  }

  /** The text the loop appends while it reads `s`, starting inside a tag
      or not. `<` opens a tag and `>` closes one, wherever they are; inside
      a tag every other character is dropped. Outside a tag, `&` starts an
      entity and reading goes on after it. */
  function LexRest(s: string, inTag: bool): string
    decreases |s|
  {
    if s == [] then []
    else
      var c := s[0];
      if c == '<' then LexRest(s[1..], true)
      else if c == '>' then LexRest(s[1..], false)
      else if inTag then LexRest(s[1..], true)
      else if c == '&' then
        var (piece, used) := EntityPiece(s[1..]);
        piece + LexRest(s[1 + used..], false)
      else [c] + LexRest(s[1..], false)
  }

  /** `LexRest` read by position: what the loop appends from index `i` of
      `src` on. */
  function LexFrom(src: string, i: nat, inTag: bool): string
    requires i <= |src|
    decreases |src| - i
  {
    if i == |src| then []
    else
      var c := src[i];
      if c == '<' then LexFrom(src, i + 1, true)
      else if c == '>' then LexFrom(src, i + 1, false)
      else if inTag then LexFrom(src, i + 1, true)
      else if c == '&' then
        var (piece, used) := EntityPiece(src[i + 1..]);
        piece + LexFrom(src, i + 1 + used, false)
      else [c] + LexFrom(src, i + 1, false)
  }

  /** Reading by position and reading the rest of the text agree. */
  lemma {:induction false} LexFromRest(src: string, i: nat, inTag: bool)
    requires i <= |src|
    ensures LexFrom(src, i, inTag) == LexRest(src[i..], inTag)
    decreases |src| - i
  {
    if i < |src| {
      var c := src[i];
      assert src[i..][1..] == src[i + 1..];
      if c == '&' && !inTag {
        var used := EntityPiece(src[i + 1..]).1;
        LexFromRest(src, i + 1 + used, false);
        assert src[i..][1 + used..] == src[i + 1 + used..];
      } else {
        LexFromRest(src, i + 1, c == '<' || (inTag && c != '>'));
      }
    }
  }

  /** `line[::-1]` for every line */
  function ReverseEach(lines: seq<string>): (r: seq<string>)
    ensures |r| == |lines|
    ensures forall k :: 0 <= k < |lines| ==> r[k] == Reverse(lines[k])
  {
    seq(|lines|, k requires 0 <= k < |lines| => Reverse(lines[k]))
  }

  /** The right-to-left pass: split at '\n', reverse each line, join again. */
  function ReverseLines(text: string): string
  {
    Join(ReverseEach(Split(text, '\n')), '\n')
  }

  /** What `lex(body, view_source, right_to_left)` returns. */
  function LexText(body: string, viewSource: bool, rightToLeft: bool): string
  {
    var text := LexRest(if viewSource then Escape(body) else body, false);
    if rightToLeft then ReverseLines(text) else text
  }

  /** The scan has taken `i - start` characters and may take
      `EntityLength(src[i..], room)` more. */
  predicate Scanning(src: string, start: nat, i: nat)
    requires start <= i <= |src| && i - start <= 4
  {
    EntityLength(src[start..], 4) == (i - start) + EntityLength(src[i..], 4 - (i - start))
  }

  /** One more scanned character of an entity. */
  lemma EntityStep(src: string, start: nat, i: nat)
    requires start <= i < |src| && i - start < 4 && src[i] != ';'
    requires Scanning(src, start, i)
    ensures Scanning(src, start, i + 1)
  {
    assert src[i..][1..] == src[i + 1..];
  }

  /** The scan ends where the loop stops. */
  lemma EntityEnd(src: string, start: nat, i: nat)
    requires start <= i <= |src| && i - start <= 4
    requires Scanning(src, start, i)
    requires i == |src| || src[i] == ';' || i - start == 4
    ensures i - start == EntityLength(src[start..], 4)
  {
  }

  /** The `while i < len(body)` loop of `lex` (Browser.py:326-366). The
      flushes of a pending entity before `<`, `>` and plain characters are
      left out: the entity is always empty at the top of the loop, because
      the `&` branch empties it before it ends. */
  method StripTags(src: string) returns (text: string)
    ensures text == LexRest(src, false)
  {
    text := "";
    var inTag := false;
    var i := 0;
    while i < |src|
      invariant 0 <= i <= |src|
      invariant text + LexFrom(src, i, inTag) == LexFrom(src, 0, false)
      decreases |src| - i
    {
      var piece, next, nextInTag := LexStep(src, i, inTag);
      assert (text + piece) + LexFrom(src, next, nextInTag) == text + LexFrom(src, i, inTag);
      text, i, inTag := text + piece, next, nextInTag;
    }
    LexFromRest(src, 0, false);
    assert src[0..] == src;
  }

  /** The scan after an `&` (Browser.py:343-348): the entity read so far
      and the position where the scan stopped. */
  method ReadEntity(src: string, at: nat) returns (entity: string, i: nat)
    requires at < |src| && src[at] == '&'
    ensures at < i <= |src| && i - (at + 1) == EntityLength(src[at + 1..], 4)
    ensures entity == "&" + src[at + 1..i]
  {
    entity := "&";
    i := at + 1;
    var start := i;
    while i < |src| && src[i] != ';' && |entity| < 5
      invariant start <= i <= |src| && |entity| == 1 + (i - start) <= 5
      invariant entity == "&" + src[start..i]
      invariant Scanning(src, start, i)
    {
      EntityStep(src, start, i);
      assert src[start..i + 1] == src[start..i] + [src[i]];
      entity := entity + [src[i]];
      i := i + 1;
    }
    EntityEnd(src, start, i);
  }

  /** One turn of the loop: `<` and `>` open and close a tag, a character
      in a tag is dropped, `&` reads an entity and any other character is
      kept. */
  method LexStep(src: string, i: nat, inTag: bool) returns (piece: string, next: nat, nextInTag: bool)
    requires i < |src|
    ensures i < next <= |src|
    ensures piece + LexFrom(src, next, nextInTag) == LexFrom(src, i, inTag)
  {
    var c := src[i];
    if c == '<' {
      piece, next, nextInTag := "", i + 1, true;
    } else if c == '>' {
      piece, next, nextInTag := "", i + 1, false;
    } else if inTag {
      piece, next, nextInTag := "", i + 1, true;
    } else if c == '&' {
      piece, next := ReadPiece(src, i);
      nextInTag := false;
    } else {
      piece, next, nextInTag := [c], i + 1, false;
    }
  }

  /** An entity and what it stands for (Browser.py:342-356): the scan,
      then a closing ';' decodes it, and without one it is copied as it
      stands. */
  method ReadPiece(src: string, at: nat) returns (piece: string, next: nat)
    requires at < |src| && src[at] == '&'
    ensures at < next <= |src|
    ensures piece + LexFrom(src, next, false) == LexFrom(src, at, false)
  {
    var entity, i := ReadEntity(src, at);
    PieceOf(src, at, i);
    if i < |src| && src[i] == ';' {
      entity := entity + ";";
      piece, next := DecodeEntity(entity), i + 1;
    } else {
      piece, next := entity, i;
    }
  }

  /** The entity piece of an `&` at `at` whose scan stops at `i`. */
  lemma PieceOf(src: string, at: nat, i: nat)
    requires at < i <= |src| && i - (at + 1) == EntityLength(src[at + 1..], 4)
    ensures EntityPiece(src[at + 1..]) ==
              if i < |src| && src[i] == ';' then (DecodeEntity("&" + src[at + 1..i] + ";"), i - at)
              else ("&" + src[at + 1..i], i - (at + 1))
  {
    var t := src[at + 1..];
    assert t[..i - (at + 1)] == src[at + 1..i];
  }

  /** `lex` (Browser.py:315-385): the optional view-source escape, the tag
      loop, then the optional right-to-left pass over the lines. */
  method Lex(body: string, viewSource: bool, rightToLeft: bool) returns (text: string)
    ensures text == LexText(body, viewSource, rightToLeft)
  {
    var src := if viewSource then Escape(body) else body;
    text := StripTags(src);
    if rightToLeft {
      var lines := Split(text, '\n');
      var reversedLines: seq<string> := [];
      for k := 0 to |lines|
        invariant |reversedLines| == k
        invariant forall j :: 0 <= j < k ==> reversedLines[j] == Reverse(lines[j])
      {
        reversedLines := reversedLines + [Reverse(lines[k])];
      }
      assert reversedLines == ReverseEach(lines);
      text := Join(reversedLines, '\n');
    }
  }

  /** Text without `<`, `>` and `&` comes out unchanged. */
  lemma {:induction false} PlainTextKept(s: string)
    requires '<' !in s && '>' !in s && '&' !in s
    ensures LexRest(s, false) == s
  {
    if s != [] {
      PlainTextKept(s[1..]);
    }
  }

  /** Inside a tag everything up to the next `>` is dropped. */
  lemma {:induction false} InsideTag(t: string, rest: string)
    requires '>' !in t
    ensures LexRest(t + ">" + rest, true) == LexRest(rest, false)
  {
    if t == [] {
      assert (t + ">" + rest)[1..] == rest;
    } else {
      assert (t + ">" + rest)[1..] == t[1..] + ">" + rest;
      InsideTag(t[1..], rest);
    }
  }

  /** A tag, from its `<` to the next `>`, leaves nothing behind. */
  lemma TagDropped(t: string, rest: string)
    requires '>' !in t
    ensures LexRest("<" + t + ">" + rest, false) == LexRest(rest, false)
  {
    assert ("<" + t + ">" + rest)[1..] == t + ">" + rest;
    InsideTag(t, rest);
  }

  /** An entity of two letters and a ';' */
  lemma ShortEntity(e: string, rest: string)
    requires |e| == 4 && e[0] == '&' && e[1] != ';' && e[2] != ';' && e[3] == ';'
    ensures LexRest(e + rest, false) == DecodeEntity(e) + LexRest(rest, false)
  {
    var s := e + rest;
    var t := s[1..];
    assert t[0] != ';' && t[1] != ';' && t[2] == ';';
    assert t[1..][1..] == t[2..];
    assert EntityLength(t, 4) == 2 by {
      assert t[1..][0] != ';' && t[2..][0] == ';';
    }
    assert "&" + t[..2] + ";" == e;
    assert t[3..] == rest;
  }

  /** `&lt;` and `&gt;` become `<` and `>`. */
  lemma EntitiesDecoded(rest: string)
    ensures LexRest("&lt;" + rest, false) == "<" + LexRest(rest, false)
    ensures LexRest("&gt;" + rest, false) == ">" + LexRest(rest, false)
  {
    ShortEntity("&lt;", rest);
    ShortEntity("&gt;", rest);
  }

  /** The scan takes exactly a name free of ';' that fits its room, when
      what follows cannot extend it. */
  lemma {:induction false} EntityLengthOf(name: string, tail: string, room: nat)
    requires ';' !in name && |name| <= room
    requires |name| == room || tail == [] || tail[0] == ';'
    ensures EntityLength(name + tail, room) == |name|
  {
    if name != [] {
      assert (name + tail)[0] == name[0];
      assert (name + tail)[1..] == name[1..] + tail;
      EntityLengthOf(name[1..], tail, room - 1);
    }
  }

  /** An entity other than `&lt;` and `&gt;` that a ';' closes within
      four characters is copied as it stands. */
  lemma EntityVerbatim(name: string, rest: string)
    requires ';' !in name && |name| <= 4
    requires "&" + name + ";" != "&lt;" && "&" + name + ";" != "&gt;"
    ensures LexRest("&" + name + ";" + rest, false) == "&" + name + ";" + LexRest(rest, false)
  {
    var s := "&" + name + ";" + rest;
    var t := s[1..];
    assert t == name + (";" + rest);
    EntityLengthOf(name, ";" + rest, 4);
    assert t[..|name|] == name && t[|name|] == ';' && t[|name| + 1..] == rest;
  }

  /** An `&` whose scan meets no ';' (four characters taken, or the text
      ended) is copied with the characters scanned, and reading goes on
      right after them. */
  lemma EntityUnterminated(name: string, rest: string)
    requires ';' !in name && |name| <= 4
    requires |name| == 4 || rest == []
    requires rest == [] || rest[0] != ';'
    ensures LexRest("&" + name + rest, false) == "&" + name + LexRest(rest, false)
  {
    var s := "&" + name + rest;
    var t := s[1..];
    assert t == name + rest;
    EntityLengthOf(name, rest, 4);
    assert t[..|name|] == name && t[|name|..] == rest;
  }

  /** What the escape turns one character into. */
  function EscapeChar(c: char): string
  {
    if c == '<' then "&lt;" else if c == '>' then "&gt;" else [c]
  }

  lemma EscapeOne(c: char)
    ensures Escape([c]) == EscapeChar(c)
  {
    if c == '<' {
      assert StartsWith([c], "<");
      MissingFirstChar("&lt;", ">");
      ReplaceAbsent("&lt;", ">", "&gt;");
    } else {
      MissingFirstChar([c], "<");
      ReplaceAbsent([c], "<", "&lt;");
      if c == '>' {
        assert StartsWith([c], ">");
      } else {
        MissingFirstChar([c], ">");
        ReplaceAbsent([c], ">", "&gt;");
      }
    }
  }

  /** The escape works character by character. */
  lemma EscapeCons(c: char, s: string)
    ensures Escape([c] + s) == EscapeChar(c) + Escape(s)
  {
    ReplaceCharAppend([c], s, '<', "&lt;");
    ReplaceCharAppend(Replace([c], "<", "&lt;"), Replace(s, "<", "&lt;"), '>', "&gt;");
    EscapeOne(c);
  }

  /** Reading a character that is neither `<`, `>` nor `&` outside a tag. */
  lemma PlainChar(c: char, rest: string)
    requires c != '<' && c != '>' && c != '&'
    ensures LexRest([c] + rest, false) == [c] + LexRest(rest, false)
  {
    assert ([c] + rest)[1..] == rest;
  }

  /** View-source shows a body that holds no `&` exactly as it is: every
      `<` and `>` the escape turns into an entity is decoded back. */
  lemma {:induction false} ViewSourceShowsSource(body: string)
    requires '&' !in body
    ensures LexText(body, true, false) == body
  {
    if body != [] {
      var c, s := body[0], body[1..];
      assert body == [c] + s;
      EscapeCons(c, s);
      ViewSourceShowsSource(s);
      if c == '<' {
        EntitiesDecoded(Escape(s));
      } else if c == '>' {
        EntitiesDecoded(Escape(s));
      } else {
        PlainChar(c, Escape(s));
      }
    }
  }

  /** The right-to-left pass keeps the number of lines and reverses each
      of them in place. */
  lemma ReversedLines(text: string)
    ensures Split(ReverseLines(text), '\n') == ReverseEach(Split(text, '\n'))
  {
    var lines := ReverseEach(Split(text, '\n'));
    forall k | 0 <= k < |lines|
      ensures '\n' !in lines[k]
    {
      ReverseKeepsChars(Split(text, '\n')[k], '\n');
    }
    SplitJoin(lines, '\n');
  }

  /** Reversing the lines twice gives back the text. */
  lemma ReverseLinesTwice(text: string)
    ensures ReverseLines(ReverseLines(text)) == text
  {
    var lines := Split(text, '\n');
    ReversedLines(text);
    var twice := ReverseEach(ReverseEach(lines));
    forall k | 0 <= k < |lines|
      ensures twice[k] == lines[k]
    {
      ReverseReverse(lines[k]);
    }
    assert twice == lines;
  }
}
