/** Python string operations the browser relies on, with the semantics of
    CPython's `str` methods for the arguments the browser passes. */
module Text {

  import opened Common

  /** `str.isspace()` for one character (the characters CPython classes as
      whitespace). */
  predicate IsSpace(c: char)
  {
    var n := c as int;
    n == 0x20 || (0x09 <= n <= 0x0D) || (0x1C <= n <= 0x1F) || n == 0x85 || n == 0xA0 ||
    n == 0x1680 || (0x2000 <= n <= 0x200A) || n == 0x2028 || n == 0x2029 ||
    n == 0x202F || n == 0x205F || n == 0x3000
  }

  /** `s.strip()`: whitespace cut from the front, then from the back. */
  function Strip(s: string): (r: string)
    ensures |r| <= |s|
    ensures r != [] ==> !IsSpace(r[0]) && !IsSpace(r[|r| - 1])
    decreases |s|
  {
    if s != [] && IsSpace(s[0]) then Strip(s[1..])
    else if s != [] && IsSpace(s[|s| - 1]) then Strip(s[..|s| - 1])
    else s
  }

  /** `r` is the slice of `s` from `i` on, and only whitespace lies
      around it. */
  predicate CutFrom(s: string, r: string, i: nat)
  {
    && i + |r| <= |s| && r == s[i..i + |r|]
    && (forall k :: 0 <= k < i ==> IsSpace(s[k]))
    && (forall k :: i + |r| <= k < |s| ==> IsSpace(s[k]))
  }

  lemma CutFront(s: string, r: string, j: nat)
    requires s != [] && IsSpace(s[0]) && CutFrom(s[1..], r, j)
    ensures CutFrom(s, r, j + 1)
  {
    assert s[1..][j..j + |r|] == s[j + 1..j + 1 + |r|];
  }

  lemma CutBack(s: string, r: string, i: nat)
    requires s != [] && IsSpace(s[|s| - 1]) && CutFrom(s[..|s| - 1], r, i)
    ensures CutFrom(s, r, i)
  {
    assert s[..|s| - 1][i..i + |r|] == s[i..i + |r|];
  }

  /** The result of `strip` is a slice of `s`, and only whitespace was cut
      on either side. */
  lemma {:induction false} StripSlice(s: string) returns (i: nat)
    ensures CutFrom(s, Strip(s), i)
    decreases |s|
  {
    if s != [] && IsSpace(s[0]) {
      var j := StripSlice(s[1..]);
      CutFront(s, Strip(s), j);
      i := j + 1;
    } else if s != [] && IsSpace(s[|s| - 1]) {
      i := StripSlice(s[..|s| - 1]);
      CutBack(s, Strip(s), i);
    } else {
      i := 0;
      assert s[0..|s|] == s;
    }
  }

  /** Stripping a string whose ends are not whitespace changes nothing. */
  lemma StripNoSpace(s: string)
    requires s != [] ==> !IsSpace(s[0]) && !IsSpace(s[|s| - 1])
    ensures Strip(s) == s
  {
  }

  /** Stripping `s + tail` where `tail` is all whitespace gives `s` when
      `s` has no whitespace at either end. */
  lemma {:induction false} StripTrailingSpace(s: string, tail: string)
    requires s != [] ==> !IsSpace(s[0]) && !IsSpace(s[|s| - 1])
    requires forall k :: 0 <= k < |tail| ==> IsSpace(tail[k])
    ensures Strip(s + tail) == s
    decreases |tail|
  {
    if tail == [] {
      assert s + tail == s;
    } else if s == [] {
      assert s + tail == tail;
      assert tail[1..] == [] + tail[1..];
      StripTrailingSpace(s, tail[1..]);
    } else {
      assert (s + tail)[..|s + tail| - 1] == s + tail[..|tail| - 1];
      StripTrailingSpace(s, tail[..|tail| - 1]);
    }
  }

  /** ASCII lower-casing of one character. */
  function LowerChar(c: char): char
  {
    if 'A' <= c <= 'Z' then (c as int + 32) as char else c
  }

  /** `str.lower()` and `str.casefold()` on ASCII letters: every upper-case
      ASCII letter becomes lower-case and every other character is kept. */
  function Lower(s: string): (r: string)
    ensures |r| == |s|
    ensures forall k :: 0 <= k < |s| ==> (r[k] == s[k] || ('A' <= s[k] <= 'Z' && r[k] as int == s[k] as int + 32))
    ensures forall k :: 0 <= k < |r| ==> !('A' <= r[k] <= 'Z')
  {
    if s == [] then [] else [LowerChar(s[0])] + Lower(s[1..])
  }

  /** Lower-casing is idempotent. */
  lemma {:induction false} LowerIdempotent(s: string)
    ensures Lower(Lower(s)) == Lower(s)
  {
    if s != [] {
      LowerIdempotent(s[1..]);
    }
  }

  predicate StartsWith(s: string, prefix: string)
  {
    |prefix| <= |s| && s[..|prefix|] == prefix
  }

  predicate OccursAt(s: string, sub: string, i: nat)
  {
    i + |sub| <= |s| && s[i..i + |sub|] == sub
  }

  /** `s.find(sub)` from position `from` on: the first occurrence, if any. */
  function FindFrom(s: string, sub: string, from: nat): (r: Option<nat>)
    requires from <= |s|
    ensures r.Some? ==> from <= r.value && OccursAt(s, sub, r.value) &&
                        forall j :: from <= j < r.value ==> !OccursAt(s, sub, j)
    ensures r.None? ==> forall j :: from <= j <= |s| ==> !OccursAt(s, sub, j)
    decreases |s| - from
  {
    if OccursAt(s, sub, from) then Some(from)
    else if from == |s| then None
    else FindFrom(s, sub, from + 1)
  }

  function Find(s: string, sub: string): (r: Option<nat>)
    ensures r.Some? ==> OccursAt(s, sub, r.value) && forall j :: 0 <= j < r.value ==> !OccursAt(s, sub, j)
    ensures r.None? ==> forall j :: 0 <= j <= |s| ==> !OccursAt(s, sub, j)
  {
    FindFrom(s, sub, 0)
  }

  /** `sub in s` */
  predicate Contains(s: string, sub: string)
  {
    Find(s, sub).Some?
  }

  lemma ContainsAt(s: string, sub: string, i: nat)
    requires OccursAt(s, sub, i)
    ensures Contains(s, sub)
  {
  }

  /** `Find` is pinned down by the first occurrence. */
  lemma FindIs(s: string, sub: string, i: nat)
    requires OccursAt(s, sub, i)
    requires forall j :: 0 <= j < i ==> !OccursAt(s, sub, j)
    ensures Find(s, sub) == Some(i)
  {
  }

  lemma FindNone(s: string, sub: string)
    requires forall j :: 0 <= j <= |s| ==> !OccursAt(s, sub, j)
    ensures Find(s, sub) == None
  {
  }

  /** Text that lacks the first character of `sub` does not contain it. */
  lemma MissingFirstChar(s: string, sub: string)
    requires sub != [] && sub[0] !in s
    ensures !Contains(s, sub)
  {
    forall j | 0 <= j < |s|
      ensures !OccursAt(s, sub, j)
    {
      assert s[j] in s;
    }
    FindNone(s, sub);
  }

  /** Appending text after the first occurrence does not move it. */
  lemma FindAppend(s: string, t: string, sub: string)
    requires Find(s, sub).Some?
    ensures Find(s + t, sub) == Find(s, sub)
  {
    var i := Find(s, sub).value;
    assert (s + t)[i..i + |sub|] == s[i..i + |sub|];
    forall j | 0 <= j < i ensures !OccursAt(s + t, sub, j) {
      assert j + |sub| <= |s|;
      assert !OccursAt(s, sub, j);
      assert (s + t)[j..j + |sub|] == s[j..j + |sub|];
    }
    FindIs(s + t, sub, i);
  }

  /** A one-character pattern absent from `s` is first found at `s`'s end
      when appended. */
  lemma FindAppendChar(s: string, c: char)
    requires c !in s
    ensures Find(s + [c], [c]) == Some(|s|)
  {
    forall j | 0 <= j < |s| ensures !OccursAt(s + [c], [c], j) {
      assert (s + [c])[j..j + 1] == [s[j]];
    }
    FindIs(s + [c], [c], |s|);
  }

  /** For a one-character pattern, occurrence is membership. */
  lemma ContainsChar(s: string, c: char)
    ensures Contains(s, [c]) <==> c in s
  {
    if c in s {
      var k :| 0 <= k < |s| && s[k] == c;
      ContainsAt(s, [c], k);
    }
    if Contains(s, [c]) {
      var k := Find(s, [c]).value;
      assert s[k..k + 1] == [c];
      assert s[k] == c;
    }
  }

  /** A pattern behind a prefix that cannot hold any part of it is first
      found right after the prefix when it starts there. */
  lemma FindAfterPrefix(p: string, sub: string, rest: string)
    requires sub != []
    requires forall j :: 0 <= j < |p| ==> p[j] != sub[0]
    ensures Find(p + sub + rest, sub) == Some(|p|)
  {
    var s := p + sub + rest;
    assert s[|p|..|p| + |sub|] == sub;
    forall j | 0 <= j < |p| ensures !OccursAt(s, sub, j) {
      assert s[j] == p[j];
    }
    FindIs(s, sub, |p|);
  }

  /** `s.split(sep, 1)` when it yields two parts: the text before the first
      `sep` and the text after it; None when `sep` does not occur. */
  function SplitOnce(s: string, sep: string): (r: Option<(string, string)>)
    ensures r.None? <==> !Contains(s, sep)
    ensures r.Some? ==> r.value.0 + sep + r.value.1 == s
    ensures r.Some? ==> forall j :: 0 <= j < |r.value.0| ==> !OccursAt(s, sep, j)
  {
    match Find(s, sep)
    case None => None
    case Some(i) =>
      var a, b := s[..i], s[i + |sep|..];
      assert a + sep + b == s by { assert s == s[..i] + s[i..i + |sep|] + s[i + |sep|..]; }
      Some((a, b))
  }

  /** `sep.join(parts)` for a one-character separator. */
  function Join(parts: seq<string>, sep: char): string
  {
    if parts == [] then []
    else if |parts| == 1 then parts[0]
    else parts[0] + [sep] + Join(parts[1..], sep)
  }

  /** `s.split(sep)` for a one-character separator: the pieces between the
      separators, never fewer than one, none holding the separator, and
      joining them back gives `s`. */
  function Split(s: string, sep: char): (parts: seq<string>)
    ensures |parts| >= 1
    ensures forall k :: 0 <= k < |parts| ==> sep !in parts[k]
    ensures Join(parts, sep) == s
  {
    if s == [] then [""]
    else
      var rest := Split(s[1..], sep);
      if s[0] == sep then
        assert s == [sep] + s[1..];
        [""] + rest
      else
        var parts := [[s[0]] + rest[0]] + rest[1..];
        assert parts[1..] == rest[1..];
        assert Join(parts, sep) == s by {
          if |rest| == 1 {
          } else {
            assert rest == [rest[0]] + rest[1..];
          }
        }
        parts
  }

  /** Splitting what `Join` produced gives back the pieces. */
  lemma {:induction false} SplitJoin(parts: seq<string>, sep: char)
    requires |parts| >= 1
    requires forall k :: 0 <= k < |parts| ==> sep !in parts[k]
    ensures Split(Join(parts, sep), sep) == parts
    decreases |Join(parts, sep)|
  {
    var p0 := parts[0];
    if p0 == [] {
      if |parts| == 1 {
      } else {
        var j := Join(parts, sep);
        assert j == [sep] + Join(parts[1..], sep);
        assert j[1..] == Join(parts[1..], sep);
        SplitJoin(parts[1..], sep);
      }
    } else {
      var tail := [p0[1..]] + parts[1..];
      assert forall k :: 0 <= k < |tail| ==> sep !in tail[k] by {
        forall k | 0 <= k < |tail| ensures sep !in tail[k] {
          if k == 0 {
            assert forall c :: c in p0[1..] ==> c in p0;
          } else {
            assert tail[k] == parts[k];
          }
        }
      }
      var j := Join(parts, sep);
      assert j == [p0[0]] + Join(tail, sep) by {
        if |parts| == 1 {
        } else {
          assert tail[1..] == parts[1..];
        }
      }
      assert j[1..] == Join(tail, sep);
      SplitJoin(tail, sep);
      assert p0[0] != sep by { assert p0[0] in p0; }
      assert p0 == [p0[0]] + p0[1..];
    }
  }

  /** `s.replace(pat, rep)`: occurrences are replaced left to right without
      overlapping. */
  function Replace(s: string, pat: string, rep: string): string
    requires pat != []
    decreases |s|
  {
    if s == [] then []
    else if StartsWith(s, pat) then rep + Replace(s[|pat|..], pat, rep)
    else [s[0]] + Replace(s[1..], pat, rep)
  }

  /** Text that does not contain the pattern is left as it is. */
  lemma {:induction false} ReplaceAbsent(s: string, pat: string, rep: string)
    requires pat != [] && !Contains(s, pat)
    ensures Replace(s, pat, rep) == s
    decreases |s|
  {
    if s != [] {
      assert !OccursAt(s, pat, 0);
      if Contains(s[1..], pat) {
        var j := Find(s[1..], pat).value;
        assert s[1..][j..j + |pat|] == s[j + 1..j + 1 + |pat|];
        ContainsAt(s, pat, j + 1);
      }
      ReplaceAbsent(s[1..], pat, rep);
    }
  }

  /** Replacing a one-character pattern, one character at a time. */
  lemma ReplaceCharCons(c: char, s: string, p: char, rep: string)
    ensures Replace([c] + s, [p], rep) == (if c == p then rep else [c]) + Replace(s, [p], rep)
  {
    var t := [c] + s;
    assert t[..1] == [c] && t[1..] == s;
  }

  /** Replacing a one-character pattern distributes over concatenation. */
  lemma {:induction false} ReplaceCharAppend(a: string, b: string, p: char, rep: string)
    ensures Replace(a + b, [p], rep) == Replace(a, [p], rep) + Replace(b, [p], rep)
    decreases |a|
  {
    if a == [] {
      assert a + b == b;
    } else {
      var c, t := a[0], a[1..];
      var head := if c == p then rep else [c];
      assert a == [c] + t && a + b == [c] + (t + b);
      calc {
        Replace(a + b, [p], rep);
        { ReplaceCharCons(c, t + b, p, rep); }
        head + Replace(t + b, [p], rep);
        { ReplaceCharAppend(t, b, p, rep); }
        head + (Replace(t, [p], rep) + Replace(b, [p], rep));
        (head + Replace(t, [p], rep)) + Replace(b, [p], rep);
        { ReplaceCharCons(c, t, p, rep); }
        Replace(a, [p], rep) + Replace(b, [p], rep);
      }
    }
  }

  /** `s[::-1]` */
  function Reverse(s: string): (r: string)
    ensures |r| == |s|
    ensures forall k :: 0 <= k < |s| ==> r[k] == s[|s| - 1 - k]
  {
    if s == [] then [] else Reverse(s[1..]) + [s[0]]
  }

  lemma ReverseReverse(s: string)
    ensures Reverse(Reverse(s)) == s
  {
    var r := Reverse(Reverse(s));
    assert forall k :: 0 <= k < |s| ==> r[k] == s[k];
  }

  lemma ReverseKeepsChars(s: string, c: char)
    ensures c in Reverse(s) <==> c in s
  {
    var r := Reverse(s);
    if c in s {
      var k :| 0 <= k < |s| && s[k] == c;
      assert r[|s| - 1 - k] == c;
    }
  }
}
