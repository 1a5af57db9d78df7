/** The handful of Python `str` operations the pipeline relies on, written out
    over `seq<char>`: `isspace`, `strip`, `in`, `startswith`, `endswith`,
    `split` on one character, `join`, `str(n)` for naturals and `int(text)`
    on ASCII digits. */
module Text {
  import opened Results

  /** Python's `str.isspace()` for a single character: the characters that
      `str.strip()` with no argument removes. */
  predicate IsSpace(c: char) {
    || ('\t' <= c <= '\r')
    || ('\U{1C}' <= c <= ' ')
    || c == '\U{85}' || c == '\U{A0}' || c == '\U{1680}'
    || ('\U{2000}' <= c <= '\U{200A}')
    || c == '\U{2028}' || c == '\U{2029}' || c == '\U{202F}'
    || c == '\U{205F}' || c == '\U{3000}'
  }

  predicate StartsWith(s: string, prefix: string) {
    |prefix| <= |s| && s[..|prefix|] == prefix
  }

  predicate EndsWith(s: string, suffix: string) {
    |suffix| <= |s| && s[|s| - |suffix|..] == suffix
  }

  /** `w` occurs in `s` starting at index `i`. */
  predicate OccursAt(s: string, w: string, i: nat) {
    i + |w| <= |s| && s[i..i + |w|] == w
  }

  /** Python's `w in s` for strings. */
  predicate Contains(s: string, w: string) {
    exists i: nat | i <= |s| :: OccursAt(s, w, i)
  }

  /** The first index from `i` on whose character is not in `ws`, or `|s|`:
      where `s.lstrip()` for the whitespace set `ws` starts cutting. */
  function SkipBlanks(s: string, ws: char -> bool, i: nat): (j: nat)
    requires i <= |s|
    ensures i <= j <= |s|
    ensures forall k :: i <= k < j ==> ws(s[k])
    ensures j == |s| || !ws(s[j])
    decreases |s| - i
  {
    if i < |s| && ws(s[i]) then SkipBlanks(s, ws, i + 1) else i
  }

  /** Where `s[lo..j]` ends once trailing characters in `ws` are dropped:
      the cut of `s.rstrip()`, never going below `lo`. */
  function SkipBlanksBack(s: string, ws: char -> bool, lo: nat, j: nat): (e: nat)
    requires lo <= j <= |s|
    ensures lo <= e <= j
    ensures forall k :: e <= k < j ==> ws(s[k])
    ensures e == lo || !ws(s[e - 1])
    decreases j
  {
    if j > lo && ws(s[j - 1]) then SkipBlanksBack(s, ws, lo, j - 1) else j
  }

  /** Python's `s.strip()` for the whitespace set `ws`: the window between
      the leading and the trailing run of characters in `ws`. */
  function Trim(s: string, ws: char -> bool): (r: string)
    ensures |r| <= |s|
    ensures r == [] || (!ws(r[0]) && !ws(r[|r| - 1]))
    ensures |s| > 0 && !ws(s[0]) && !ws(s[|s| - 1]) ==> r == s
  {
    var i := SkipBlanks(s, ws, 0);
    var e := SkipBlanksBack(s, ws, i, |s|);
    assert |s| > 0 && !ws(s[0]) && !ws(s[|s| - 1]) ==> i == 0 && e == |s|;
    s[i..e]
  }

  /** Python's `s.strip()`. */
  function Strip(s: string): (r: string)
    ensures |r| <= |s|
    ensures r == [] || (!IsSpace(r[0]) && !IsSpace(r[|r| - 1]))
    ensures |s| > 0 && !IsSpace(s[0]) && !IsSpace(s[|s| - 1]) ==> r == s
  {
    Trim(s, IsSpace)
  }

  /** The window of `s` that `Strip` keeps: only whitespace lies outside it. */
  lemma StripWindow(s: string) returns (i: nat)
    ensures i + |Strip(s)| <= |s| && Strip(s) == s[i..i + |Strip(s)|]
    ensures forall k :: 0 <= k < i ==> IsSpace(s[k])
    ensures forall k :: i + |Strip(s)| <= k < |s| ==> IsSpace(s[k])
  {
    i := SkipBlanks(s, IsSpace, 0);
    var e := SkipBlanksBack(s, IsSpace, i, |s|);
    assert Strip(s) == s[i..e];
  }

  /** A witness for `Contains`. */
  lemma ContainsAt(s: string, w: string, i: nat)
    requires OccursAt(s, w, i)
    ensures Contains(s, w)
  {
  }

  /** Stripping never invents text: whatever the stripped string contains,
      the original contains too. */
  lemma StripContainsOnlyOriginal(s: string, w: string)
    requires Contains(Strip(s), w)
    ensures Contains(s, w)
  {
    var i := StripWindow(s);
    WindowContainsOnlyOriginal(s, Strip(s), i, w);
  }

  lemma WindowContainsOnlyOriginal(s: string, r: string, i: nat, w: string)
    requires i + |r| <= |s| && r == s[i..i + |r|]
    requires Contains(r, w)
    ensures Contains(s, w)
  {
    var p: nat :| p <= |r| && OccursAt(r, w, p);
    assert OccursAt(s, w, i + p) by {
      SliceOfSlice(s, i, i + |r|, p, p + |w|);
    }
    ContainsAt(s, w, i + p);
  }

  /** Stripping keeps every occurrence of a word that neither starts nor
      ends with whitespace. */
  lemma StripKeepsWord(s: string, w: string)
    requires Contains(s, w)
    requires |w| > 0 && !IsSpace(w[0]) && !IsSpace(w[|w| - 1])
    ensures Contains(Strip(s), w)
  {
    var i := StripWindow(s);
    WindowKeepsWord(s, Strip(s), i, w);
  }

  /** A word whose ends are not whitespace cannot overlap the whitespace
      outside a window, so it lies inside. */
  lemma WindowKeepsWord(s: string, r: string, i: nat, w: string)
    requires i + |r| <= |s| && r == s[i..i + |r|]
    requires forall k :: 0 <= k < i ==> IsSpace(s[k])
    requires forall k :: i + |r| <= k < |s| ==> IsSpace(s[k])
    requires Contains(s, w)
    requires |w| > 0 && !IsSpace(w[0]) && !IsSpace(w[|w| - 1])
    ensures Contains(r, w)
  {
    var p: nat :| p <= |s| && OccursAt(s, w, p);
    assert i <= p by {
      assert s[p] == s[p..p + |w|][0] == w[0];
    }
    assert p + |w| <= i + |r| by {
      assert s[p + |w| - 1] == s[p..p + |w|][|w| - 1] == w[|w| - 1];
    }
    assert OccursAt(r, w, p - i) by {
      SliceOfSlice(s, i, i + |r|, p - i, p - i + |w|);
    }
    ContainsAt(r, w, p - i);
  }

  lemma SliceOfSlice(s: string, i: nat, j: nat, p: nat, q: nat)
    requires i <= j <= |s| && p <= q <= j - i
    ensures s[i..j][p..q] == s[i + p..i + q]
  {
    var t := s[i..j];
    assert forall k :: 0 <= k < q - p ==> t[p..q][k] == t[p + k] == s[i + p + k];
  }

  /** Python's `sep.join(parts)`. */
  function Join(parts: seq<string>, sep: string): string
    decreases |parts|
  {
    if |parts| == 0 then ""
    else if |parts| == 1 then parts[0]
    else parts[0] + sep + Join(parts[1..], sep)
  }

  /** Python's `s.split(sep)` for a one-character separator: never empty,
      and no piece holds the separator. */
  function Split(s: string, sep: char): (r: seq<string>)
    ensures |r| >= 1
    ensures forall p <- r :: sep !in p
    decreases |s|
  {
    if |s| == 0 then [""]
    else
      var rest := Split(s[1..], sep);
      if s[0] == sep then
        [""] + rest
      else
        var r := [[s[0]] + rest[0]] + rest[1..];
        assert r[1..] == rest[1..];
        r
  }

  /** Joining the pieces back with the separator gives `s` again. */
  lemma {:induction false} JoinSplit(s: string, sep: char)
    ensures Join(Split(s, sep), [sep]) == s
    decreases |s|
  {
    if |s| > 0 {
      JoinSplit(s[1..], sep);
      var rest := Split(s[1..], sep);
      if s[0] == sep {
        assert Split(s, sep) == [""] + rest;
        assert ([""] + rest)[1..] == rest;
        assert s == [sep] + s[1..];
      } else {
        var r := [[s[0]] + rest[0]] + rest[1..];
        assert Split(s, sep) == r;
        assert r[1..] == rest[1..];
        if |rest| == 1 {
          assert s == [s[0]] + rest[0];
        } else {
          assert Join(rest, [sep]) == rest[0] + [sep] + Join(rest[1..], [sep]);
          assert s == [s[0]] + s[1..];
        }
      }
    }
  }

  lemma {:induction false} SplitWithoutSeparator(s: string, sep: char)
    requires sep !in s
    ensures Split(s, sep) == [s]
    decreases |s|
  {
    if |s| > 0 {
      SplitWithoutSeparator(s[1..], sep);
      assert [s[0]] + s[1..] == s;
    }
  }

  /** Splitting at a separator splits the two sides independently. */
  lemma {:induction false} SplitAtSeparator(a: string, b: string, sep: char)
    ensures Split(a + [sep] + b, sep) == Split(a, sep) + Split(b, sep)
    decreases |a|
  {
    if |a| == 0 {
      assert a + [sep] + b == [sep] + b;
      SplitCons(sep, b, sep);
      assert Split(a, sep) == [""];
    } else {
      var t := a[1..];
      assert a == [a[0]] + t;
      assert a + [sep] + b == [a[0]] + (t + [sep] + b);
      SplitCons(a[0], t + [sep] + b, sep);
      SplitCons(a[0], t, sep);
      SplitAtSeparator(t, b, sep);
      GlueHead(a[0] == sep, [a[0]], Split(t, sep), Split(b, sep));
    }
  }

  /** The list algebra behind one step of `SplitAtSeparator`: a new first
      piece, or a character glued to the first piece, commutes with
      appending more pieces. */
  lemma GlueHead(cut: bool, c: string, ra: seq<string>, rb: seq<string>)
    requires |ra| >= 1
    ensures (if cut then [""] + (ra + rb) else [c + (ra + rb)[0]] + (ra + rb)[1..])
            == (if cut then [""] + ra else [c + ra[0]] + ra[1..]) + rb
  {
    if !cut {
      assert (ra + rb)[1..] == ra[1..] + rb;
    }
  }

  /** One step of `Split`, on a string given by its first character. */
  lemma SplitCons(c: char, t: string, sep: char)
    ensures Split([c] + t, sep)
            == if c == sep then [""] + Split(t, sep) else [[c] + Split(t, sep)[0]] + Split(t, sep)[1..]
  {
    assert ([c] + t)[0] == c && ([c] + t)[1..] == t;
  }

  /** Reading a file in text mode with universal newlines: a `"\r\n"` pair
      and a lone `'\r'` each become one `'\n'`; no `'\r'` is left. */
  function TranslateNewlines(s: string): (t: string)
    ensures '\r' !in t
    ensures |t| <= |s|
    decreases |s|
  {
    if |s| == 0 then ""
    else if s[0] == '\r' then "\n" + TranslateNewlines(if |s| > 1 && s[1] == '\n' then s[2..] else s[1..])
    else [s[0]] + TranslateNewlines(s[1..])
  }

  /** Text without a carriage return reads back unchanged. */
  lemma {:induction false} TranslatePlain(s: string)
    requires '\r' !in s
    ensures TranslateNewlines(s) == s
    decreases |s|
  {
    if |s| > 0 {
      TranslatePlain(s[1..]);
      assert s == [s[0]] + s[1..];
    }
  }

  /** Translation passes a prefix without carriage returns through and
      carries on with the rest. */
  lemma {:induction false} TranslateAfterPlain(a: string, b: string)
    requires '\r' !in a
    ensures TranslateNewlines(a + b) == a + TranslateNewlines(b)
    decreases |a|
  {
    if |a| == 0 {
      assert a + b == b;
    } else {
      var t := a[1..];
      assert (a + b)[0] == a[0] && (a + b)[1..] == t + b;
      assert a[0] != '\r' && '\r' !in t by { assert a[0] in a && forall c <- t :: c in a; }
      TranslateAfterPlain(t, b);
      calc {
        TranslateNewlines(a + b);
        [a[0]] + TranslateNewlines(t + b);
        [a[0]] + (t + TranslateNewlines(b));
        { assert a == [a[0]] + t; }
        a + TranslateNewlines(b);
      }
    }
  }

  /** Both Windows and old Mac line ends read as `'\n'`. */
  lemma LineEndsTranslate(b: string)
    ensures TranslateNewlines("\r\n" + b) == "\n" + TranslateNewlines(b)
    ensures |b| == 0 || b[0] != '\n' ==> TranslateNewlines("\r" + b) == "\n" + TranslateNewlines(b)
  {
    assert ("\r\n" + b)[2..] == b;
    assert ("\r" + b)[1..] == b;
  }

  /** The other half of the `Split`/`Join` round trip. */
  lemma {:induction false} SplitJoin(parts: seq<string>, sep: char)
    requires |parts| >= 1
    requires forall p <- parts :: sep !in p
    ensures Split(Join(parts, [sep]), sep) == parts
    decreases |parts|
  {
    if |parts| == 1 {
      SplitWithoutSeparator(parts[0], sep);
    } else {
      SplitJoin(parts[1..], sep);
      SplitAtSeparator(parts[0], Join(parts[1..], [sep]), sep);
      SplitWithoutSeparator(parts[0], sep);
      assert [parts[0]] + parts[1..] == parts;
    }
  }

  predicate IsDigit(c: char) {
    '0' <= c <= '9'
  }

  predicate IsDigitString(s: string) {
    |s| > 0 && forall c <- s :: IsDigit(c)
  }

  function DigitValue(c: char): nat
    requires IsDigit(c)
  {
    c as int - '0' as int
  }

  function DigitChar(d: nat): (c: char)
    requires d < 10
    ensures IsDigit(c) && DigitValue(c) == d
  {
    ('0' as int + d) as char
  }

  /** The value of a run of decimal digits, most significant first. */
  function DigitsValue(s: string): nat
    requires forall c <- s :: IsDigit(c)
    decreases |s|
  {
    if |s| == 0 then 0 else DigitsValue(s[..|s| - 1]) * 10 + DigitValue(s[|s| - 1])
  }

  /** Python's `str(n)` for a natural number: canonical decimal digits that
      read back as `n`. */
  function NatToString(n: nat): (r: string)
    ensures IsDigitString(r)
    ensures DigitsValue(r) == n
    ensures r[0] != '0' || r == "0"
    decreases n
  {
    if n < 10 then [DigitChar(n)]
    else
      var prefix := NatToString(n / 10);
      var r := prefix + [DigitChar(n % 10)];
      assert r[..|r| - 1] == prefix;
      r
  }

  /** The whitespace `int()` ignores around a number: tab to carriage return,
      space, and every non-ASCII character `isspace` accepts. Unlike
      `strip()`, it keeps the ASCII separators U+001C to U+001F. */
  predicate IntSpace(c: char) {
    IsSpace(c) && !('\U{1C}' <= c <= '\U{1F}')
  }

  /** The surrounding whitespace `int()` removes before reading a number. */
  function IntStrip(s: string): (r: string)
    ensures |r| <= |s|
    ensures r == [] || (!IntSpace(r[0]) && !IntSpace(r[|r| - 1]))
    ensures |s| > 0 && !IntSpace(s[0]) && !IntSpace(s[|s| - 1]) ==> r == s
  {
    Trim(s, IntSpace)
  }

  /** Python's `int(text)` on base-10 text, restricted to ASCII digits:
      surrounding `IntSpace` whitespace is ignored, then an optional sign and
      at least one digit `0`-`9`; anything else is the `ValueError`, modelled
      as `None`. Python also reads the decimal digits of other scripts (and
      `_` between digits); this model rejects them. */
  function ParseInt(text: string): Option<int> {
    ParseSignedDigits(IntStrip(text))
  }

  /** `int(text)` once the whitespace is gone. */
  function ParseSignedDigits(t: string): Option<int> {
    if |t| > 0 && (t[0] == '+' || t[0] == '-') then
      var digits := t[1..];
      if IsDigitString(digits) then
        Some(if t[0] == '-' then 0 - DigitsValue(digits) else DigitsValue(digits))
      else None
    else if IsDigitString(t) then Some(DigitsValue(t))
    else None
  }

  lemma DigitsHaveNoSpace(d: string)
    requires IsDigitString(d)
    ensures IntStrip(d) == d
    ensures IntStrip("-" + d) == "-" + d
  {
    assert d[0] in d && d[|d| - 1] in d;
    assert !IntSpace(d[0]) && !IntSpace(d[|d| - 1]);
    var m := "-" + d;
    assert !IntSpace(m[0]);
    assert !IntSpace(m[|m| - 1]);
  }

  /** `int()` skips its own whitespace in front of the digits. */
  lemma ParseIntSkipsSpace(c: char, d: string)
    requires IsDigitString(d) && IntSpace(c)
    ensures ParseInt([c] + d) == Some(DigitsValue(d))
  {
    DigitEnds(d);
    TrimLeading(c, d, IntSpace);
    UnsignedDigits(d);
  }

  /** A file, group, record or unit separator (U+001C to U+001F) in front of
      the digits makes `int()` fail, although `strip()` would remove it. */
  lemma ParseIntRejectsSeparator(c: char, d: string)
    requires IsDigitString(d) && '\U{1C}' <= c <= '\U{1F}'
    ensures IsSpace(c) && !IntSpace(c)
    ensures ParseInt([c] + d) == None
  {
    var t := [c] + d;
    DigitEnds(d);
    assert t[|t| - 1] == d[|d| - 1];
    assert IntStrip(t) == t;
    NoLeadingDigit(t);
  }

  /** Bare digits read as their value. */
  lemma UnsignedDigits(d: string)
    requires IsDigitString(d)
    ensures ParseSignedDigits(d) == Some(DigitsValue(d))
  {
    assert d[0] in d;
  }

  /** Text that starts with neither a sign nor a digit is not a number. */
  lemma NoLeadingDigit(t: string)
    requires |t| > 0 && !IsDigit(t[0]) && t[0] != '+' && t[0] != '-'
    ensures ParseSignedDigits(t) == None
  {
    assert t[0] in t;
  }

  /** A run of digits starts and ends with a digit, which is neither
      whitespace nor a sign. */
  lemma DigitEnds(d: string)
    requires IsDigitString(d)
    ensures !IntSpace(d[0]) && !IntSpace(d[|d| - 1])
    ensures d[0] != '+' && d[0] != '-'
  {
    assert d[0] in d && d[|d| - 1] in d;
  }

  /** One whitespace character in front of unpadded text is all that goes. */
  lemma TrimLeading(c: char, d: string, ws: char -> bool)
    requires |d| > 0 && ws(c) && !ws(d[0]) && !ws(d[|d| - 1])
    ensures Trim([c] + d, ws) == d
  {
    var t := [c] + d;
    assert SkipBlanks(t, ws, 0) == 1 by {
      assert t[1] == d[0];
      assert SkipBlanks(t, ws, 1) == 1;
    }
    assert SkipBlanksBack(t, ws, 1, |t|) == |t| by {
      assert t[|t| - 1] == d[|d| - 1];
    }
    assert t[1..|t|] == d;
  }

  /** `int(str(n)) == n` for naturals, and with a leading minus sign for the
      negation. */
  lemma ParseIntOfNatToString(n: nat)
    ensures ParseInt(NatToString(n)) == Some(n)
    ensures ParseInt("-" + NatToString(n)) == Some(0 - n as int)
  {
    var d := NatToString(n);
    DigitsHaveNoSpace(d);
    assert d[0] != '+' && d[0] != '-' by { assert IsDigit(d[0]); }
    assert ParseSignedDigits(d) == Some(n);
    assert ("-" + d)[1..] == d;
  }
}
