/** Python's `int(s)` and `int(s, 16)` on text: surrounding whitespace is
    ignored, one optional sign, digits that single underscores may separate,
    and for base 16 an optional `0x`/`0X` prefix. Also the decimal and
    hexadecimal renderings these parsers invert. */
module Numbers {

  import opened Common
  import opened Text

  /** The value of a hexadecimal digit of either case; decimal digits are
      the first ten. */
  function DigitValue(c: char): Option<nat>
  {
    if '0' <= c <= '9' then Some(c as int - '0' as int)
    else if 'a' <= c <= 'f' then Some(c as int - 'a' as int + 10)
    else if 'A' <= c <= 'F' then Some(c as int - 'A' as int + 10)
    else None
  }

  predicate IsDigit(c: char, base: nat)
  {
    DigitValue(c).Some? && DigitValue(c).value < base
  }

  predicate AllDigits(ds: string, base: nat)
  {
    forall k :: 0 <= k < |ds| ==> IsDigit(ds[k], base)
  }

  /** The number the digit string denotes, most significant digit first. */
  function Value(ds: string, base: nat): nat
    requires AllDigits(ds, base)
  {
    if ds == [] then 0
    else Value(ds[..|ds| - 1], base) * base + DigitValue(ds[|ds| - 1]).value
  }

  /** Digits, possibly separated by single underscores, beginning and ending
      with a digit. */
  predicate Grouped(s: string, base: nat)
  {
    && |s| > 0
    && IsDigit(s[0], base) && IsDigit(s[|s| - 1], base)
    && (forall k :: 0 <= k < |s| ==> IsDigit(s[k], base) || s[k] == '_')
    && (forall k :: 0 <= k < |s| - 1 ==> s[k] == '_' ==> s[k + 1] != '_')
  }

  function RemoveUnderscores(s: string): (r: string)
    ensures '_' !in r
    ensures forall c :: c in r ==> c in s
  {
    if s == [] then []
    else if s[0] == '_' then RemoveUnderscores(s[1..])
    else [s[0]] + RemoveUnderscores(s[1..])
  }

  lemma {:induction false} RemoveUnderscoresDigits(s: string, base: nat)
    requires forall k :: 0 <= k < |s| ==> IsDigit(s[k], base) || s[k] == '_'
    ensures AllDigits(RemoveUnderscores(s), base)
  {
    if s != [] {
      RemoveUnderscoresDigits(s[1..], base);
    }
  }

  lemma {:induction false} RemoveUnderscoresNone(s: string, base: nat)
    requires AllDigits(s, base)
    ensures RemoveUnderscores(s) == s
  {
    if s != [] {
      assert s[0] != '_' by { assert DigitValue('_').None?; }
      RemoveUnderscoresNone(s[1..], base);
    }
  }

  /** The value of a grouped digit string, None when it is not one. */
  function ParseDigits(s: string, base: nat): (r: Option<nat>)
    ensures r.Some? <==> Grouped(s, base)
  {
    if Grouped(s, base) then
      RemoveUnderscoresDigits(s, base);
      Some(Value(RemoveUnderscores(s), base))
    else None
  }

  /** A text, already stripped, that `int(t)` accepts: grouped decimal
      digits with an optional sign in front. */
  predicate DecimalLiteral(t: string)
  {
    Grouped(t, 10) || (|t| > 0 && (t[0] == '+' || t[0] == '-') && Grouped(t[1..], 10))
  }

  /** Grouped hexadecimal digits with an optional `0x` or `0X` in front,
      which one underscore may follow. */
  predicate HexMagnitude(t: string)
  {
    || Grouped(t, 16)
    || (&& |t| >= 2 && t[0] == '0' && (t[1] == 'x' || t[1] == 'X')
        && (Grouped(t[2..], 16) || (|t| > 2 && t[2] == '_' && Grouped(t[3..], 16))))
  }

  /** A text, already stripped, that `int(t, 16)` accepts. */
  predicate HexLiteral(t: string)
  {
    HexMagnitude(t) || (|t| > 0 && (t[0] == '+' || t[0] == '-') && HexMagnitude(t[1..]))
  }

  /** The whitespace `int()` skips around its argument: the ASCII space, tab,
      LF, VT, FF and CR, and the non-ASCII whitespace, which CPython turns
      into spaces first. The separators U+001C..U+001F, which
      `str.isspace()` counts, are not skipped. */
  predicate IntSpace(c: char)
  {
    IsSpace(c) && !(0x1C <= c as int <= 0x1F)
  }

  /** The text `int()` reads digits from: `IntSpace` cut from both ends. */
  function IntStrip(s: string): (r: string)
    ensures |r| <= |s|
    ensures r != [] ==> !IntSpace(r[0]) && !IntSpace(r[|r| - 1])
    ensures forall k :: 0 <= k < |r| ==> r[k] in s
    decreases |s|
  {
    if s != [] && IntSpace(s[0]) then IntStrip(s[1..])
    else if s != [] && IntSpace(s[|s| - 1]) then IntStrip(s[..|s| - 1])
    else s
  }

  /** Text that `strip()` empties holds no digit and no sign, so `int()`
      finds no literal in it either. */
  lemma BlankNotLiteral(s: string)
    ensures Strip(s) == [] ==> !DecimalLiteral(IntStrip(s)) && !HexLiteral(IntStrip(s))
  {
    if Strip(s) == [] {
      var i := StripSlice(s);
      var t := IntStrip(s);
      if t != [] {
        assert t[0] in s;
        var k :| 0 <= k < |s| && s[k] == t[0];
        assert IsSpace(t[0]);
      }
    }
  }

  /** `int(s)`: None where Python raises ValueError. */
  function ParseInt(s: string): (r: Option<int>)
    ensures r.Some? ==> Strip(s) != []
    ensures r.Some? <==> DecimalLiteral(IntStrip(s))
  {
    BlankNotLiteral(s);
    var t := IntStrip(s);
    if |t| > 0 && (t[0] == '+' || t[0] == '-') then
      match ParseDigits(t[1..], 10)
      case None => None
      case Some(n) =>
        var v: int := if t[0] == '-' then -(n as int) else n;
        Some(v)
    else
      match ParseDigits(t, 10)
      case None => None
      case Some(n) => Some(n)
  }

  /** The digits of `int(t, 16)` once the sign is gone: an optional `0x` or
      `0X` prefix, which one underscore may follow. */
  function ParseHexMagnitude(t: string): (r: Option<nat>)
    ensures r.Some? ==> t != []
    ensures r.Some? <==> HexMagnitude(t)
  {
    if |t| >= 2 && t[0] == '0' && (t[1] == 'x' || t[1] == 'X') then
      var u := t[2..];
      if |u| > 0 && u[0] == '_' then ParseDigits(u[1..], 16) else ParseDigits(u, 16)
    else ParseDigits(t, 16)
  }

  /** `int(s, 16)`: None where Python raises ValueError. */
  function ParseHex(s: string): (r: Option<int>)
    ensures r.Some? ==> Strip(s) != []
    ensures r.Some? <==> HexLiteral(IntStrip(s))
  {
    BlankNotLiteral(s);
    var t := IntStrip(s);
    if |t| > 0 && (t[0] == '+' || t[0] == '-') then
      match ParseHexMagnitude(t[1..])
      case None => None
      case Some(n) =>
        var v: int := if t[0] == '-' then -(n as int) else n;
        Some(v)
    else
      match ParseHexMagnitude(t)
      case None => None
      case Some(n) => Some(n)
  }

  /** The lower-case digit for `d` below 16. */
  function DigitChar(d: nat): char
    requires d < 16
  {
    if d < 10 then ('0' as int + d) as char else ('a' as int + d - 10) as char
  }

  /** The digits of `n` in base `base` (10 or 16), lower-case, no leading
      zero. */
  function Show(n: nat, base: nat): (r: string)
    requires base == 10 || base == 16
    ensures |r| > 0 && AllDigits(r, base)
    ensures r[0] == '0' ==> n == 0
  {
    if n < base then [DigitChar(n)]
    else Show(n / base, base) + [DigitChar(n % base)]
  }

  /** `str(n)` for an integer */
  function ShowInt(n: int): string
  {
    if n < 0 then "-" + Show(-n, 10) else Show(n, 10)
  }

  /** `format(n, "x")` */
  function ShowHex(n: nat): string
  {
    Show(n, 16)
  }

  lemma HexDigitValue(d: nat)
    requires d < 16
    ensures DigitValue(DigitChar(d)) == Some(d)
  {
  }

  lemma {:induction false} ValueShow(n: nat, base: nat)
    requires base == 10 || base == 16
    ensures Value(Show(n, base), base) == n
    decreases n
  {
    var s := Show(n, base);
    if n < base {
      HexDigitValue(n);
    } else {
      var q, d := n / base, n % base;
      ValueShow(q, base);
      assert s[..|s| - 1] == Show(q, base);
      HexDigitValue(d);
      assert Value(s, base) == Value(Show(q, base), base) * base + d;
      assert q * base + d == n;
    }
  }

  lemma ShowIsGrouped(n: nat, base: nat)
    requires base == 10 || base == 16
    ensures Grouped(Show(n, base), base)
    ensures ParseDigits(Show(n, base), base) == Some(n)
  {
    var s := Show(n, base);
    assert forall k :: 0 <= k < |s| ==> s[k] != '_' by {
      assert forall k :: 0 <= k < |s| ==> IsDigit(s[k], base);
    }
    RemoveUnderscoresNone(s, base);
    ValueShow(n, base);
  }

  lemma ShowHasNoSpace(n: nat, base: nat)
    requires base == 10 || base == 16
    ensures Strip(Show(n, base)) == Show(n, base)
    ensures IntStrip(Show(n, base)) == Show(n, base)
    ensures Show(n, base)[0] != '+' && Show(n, base)[0] != '-'
  {
    var s := Show(n, base);
    assert IsDigit(s[0], base) && IsDigit(s[|s| - 1], base);
    StripNoSpace(s);
  }

  /** `int(str(n)) == n` */
  lemma ParseShowInt(n: int)
    ensures ParseInt(ShowInt(n)) == Some(n)
  {
    if n < 0 {
      ParseShowNegative(n);
    } else {
      ParseShowNatural(n);
    }
  }

  lemma ParseShowNatural(n: int)
    requires n >= 0
    ensures ParseInt(ShowInt(n)) == Some(n)
  {
    ShowIsGrouped(n, 10);
    ShowHasNoSpace(n, 10);
  }

  lemma ParseShowNegative(n: int)
    requires n < 0
    ensures ParseInt(ShowInt(n)) == Some(n)
  {
    NegativeText(n);
    ShowIsGrouped(-n, 10);
  }

  /** `str(n)` of a negative number: a minus sign, then the digits of `-n`,
      nothing to strip. */
  lemma NegativeText(n: int)
    requires n < 0
    ensures var s := ShowInt(n);
            |s| > 1 && s[0] == '-' && s[1..] == Show(-n, 10) && Strip(s) == s && IntStrip(s) == s
  {
    var d := Show(-n, 10);
    var s := ShowInt(n);
    assert s == "-" + d;
    assert s[0] == '-' && s[1..] == d && s[|s| - 1] == d[|d| - 1];
    assert IsDigit(d[|d| - 1], 10);
    StripNoSpace(s);
  }

  /** `int(format(n, "x"), 16) == n` */
  lemma ParseShowHex(n: nat)
    ensures ParseHex(ShowHex(n)) == Some(n)
  {
    var s := ShowHex(n);
    ShowIsGrouped(n, 16);
    ShowHasNoSpace(n, 16);
    assert |s| >= 2 ==> s[1] != 'x' && s[1] != 'X' by {
      if |s| >= 2 { assert IsDigit(s[1], 16); }
    }
  }

  /** int() accepts nothing that is empty once stripped. */
  lemma ParseIntBlank(s: string)
    requires Strip(s) == []
    ensures ParseInt(s) == None && ParseHex(s) == None
  {
  }

  /** `int()` does not skip the separator U+001C that `strip()` removes:
      `int("\x1c80")` fails although `"\x1c80".strip()` is `"80"`. */
  lemma SeparatorNotSkipped()
    ensures Strip("\U{1C}80") == "80"
    ensures ParseInt("\U{1C}80") == None
  {
    assert "\U{1C}80"[1..] == "80";
    StripNoSpace("80");
    assert IntStrip("\U{1C}80") == "\U{1C}80";
    assert !IsDigit('\U{1C}', 10);
  }
}
