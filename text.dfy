/** The java.lang.String and Character behaviour the sort and filter inputs
    go through: white space (Character.isWhitespace), String.isBlank and
    Spring's StringUtils.hasText, upper-casing, equalsIgnoreCase, and
    String.split with a one-character separator. */
module Text {

  /** Character.isWhitespace: the Unicode space, line and paragraph
      separators except the no-break spaces U+00A0, U+2007 and U+202F, plus
      the ASCII controls U+0009..U+000D and U+001C..U+001F. */
  predicate IsWhitespace(c: char) {
    var n := c as int;
    || (0x09 <= n <= 0x0D) || (0x1C <= n <= 0x20)
    || n == 0x1680 || (0x2000 <= n <= 0x2006) || (0x2008 <= n <= 0x200A)
    || n == 0x2028 || n == 0x2029 || n == 0x205F || n == 0x3000
  }

  /** String.isBlank: empty, or white space only. */
  predicate IsBlank(s: string) {
    forall i :: 0 <= i < |s| ==> IsWhitespace(s[i])
  }

  /** StringUtils.hasText (for a non-null string): some character is not white space. */
  predicate HasText(s: string) {
    exists i :: 0 <= i < |s| && !IsWhitespace(s[i])
  }

  lemma HasTextIsNotBlank(s: string)
    ensures HasText(s) <==> !IsBlank(s)
  {
  }

  /** Character.toUpperCase, restricted to the upper-case mappings that can
      produce a letter of "ASC" or "DESC": a..z, and U+017F (long s) to S.
      Every other character is its own image here. */
  function Upper(c: char): char {
    if 'a' <= c <= 'z' then (c as int - 32) as char
    else if c == 'ſ' then 'S'
    else c
  }

  /** Character.toLowerCase on Basic Latin letters only (U+0130 and U+212A,
      which Java lower-cases to i and k, are left out). */
  function Lower(c: char): char {
    if 'A' <= c <= 'Z' then (c as int + 32) as char else c
  }

  /** String.toUpperCase(Locale.US), character by character. */
  function UpperCase(s: string): (r: string)
    ensures |r| == |s| && forall i :: 0 <= i < |s| ==> r[i] == Upper(s[i])
  {
    seq(|s|, i requires 0 <= i < |s| => Upper(s[i]))
  }

  /** The per-character test of String.equalsIgnoreCase. */
  predicate CharEqualsIgnoreCase(a: char, b: char) {
    a == b || Upper(a) == Upper(b) || Lower(Upper(a)) == Lower(Upper(b))
  }

  predicate EqualsIgnoreCase(a: string, b: string) {
    |a| == |b| && forall i :: 0 <= i < |a| ==> CharEqualsIgnoreCase(a[i], b[i])
  }

  /** Against a lower-case ASCII word, equalsIgnoreCase and comparing the
      upper-cased string with the upper-cased word agree. */
  lemma {:induction false} EqualsIgnoreCaseByUpper(a: string, w: string)
    requires forall i :: 0 <= i < |w| ==> 'a' <= w[i] <= 'z'
    ensures EqualsIgnoreCase(a, w) <==> UpperCase(a) == UpperCase(w)
  {
    if EqualsIgnoreCase(a, w) {
      forall i | 0 <= i < |a| ensures UpperCase(a)[i] == UpperCase(w)[i] {
        assert CharEqualsIgnoreCase(a[i], w[i]);
      }
    }
    if UpperCase(a) == UpperCase(w) {
      forall i | 0 <= i < |a| ensures CharEqualsIgnoreCase(a[i], w[i]) {
        assert UpperCase(a)[i] == UpperCase(w)[i];
      }
    }
  }

  /** Every piece between separators, keeping empty ones: `k` separators
      give `k + 1` pieces. */
  function SplitAll(s: string, sep: char): (parts: seq<string>)
    ensures |parts| >= 1
    decreases |s|
  {
    if |s| == 0 then [""]
    else
      var rest := SplitAll(s[1..], sep);
      if s[0] == sep then [""] + rest
      else [[s[0]] + rest[0]] + rest[1..]
  }

  /** Concatenation of pieces with the separator between neighbours. */
  function Join(parts: seq<string>, sep: char): string
    requires |parts| >= 1
  {
    if |parts| == 1 then parts[0] else parts[0] + [sep] + Join(parts[1..], sep)
  }

  /** Splitting loses nothing: joining the pieces rebuilds the string, and
      no piece holds a separator. */
  lemma {:induction false} SplitAllJoin(s: string, sep: char)
    ensures Join(SplitAll(s, sep), sep) == s
    ensures forall k :: 0 <= k < |SplitAll(s, sep)| ==> sep !in SplitAll(s, sep)[k]
    decreases |s|
  {
    if |s| > 0 {
      var rest := SplitAll(s[1..], sep);
      SplitAllJoin(s[1..], sep);
      if s[0] == sep {
        assert SplitAll(s, sep)[1..] == rest;
        assert s == [sep] + s[1..];
      } else {
        var parts := SplitAll(s, sep);
        assert parts[1..] == rest[1..];
        if |rest| == 1 {
          assert s == [s[0]] + s[1..];
        } else {
          assert Join(rest, sep) == rest[0] + [sep] + Join(rest[1..], sep);
          assert s == [s[0]] + s[1..];
        }
      }
    }
  }

  lemma {:induction false} SplitAllWithoutSeparator(s: string, sep: char)
    requires sep !in s
    ensures SplitAll(s, sep) == [s]
    decreases |s|
  {
    if |s| > 0 {
      SplitAllWithoutSeparator(s[1..], sep);
      assert [s[0]] + s[1..] == s;
    }
  }

  /** Splitting at one separator splits each side on its own. */
  lemma {:induction false} SplitAllConcat(x: string, sep: char, y: string)
    ensures SplitAll(x + [sep] + y, sep) == SplitAll(x, sep) + SplitAll(y, sep)
    decreases |x|
  {
    var s := x + [sep] + y;
    if |x| == 0 {
      assert s[1..] == y;
    } else {
      assert s[0] == x[0] && s[1..] == x[1..] + [sep] + y;
      SplitAllConcat(x[1..], sep, y);
      var left := SplitAll(x[1..], sep);
      if x[0] != sep {
        assert (left + SplitAll(y, sep))[0] == left[0];
        assert (left + SplitAll(y, sep))[1..] == left[1..] + SplitAll(y, sep);
      }
    }
  }

  /** Every character of t is the separator. */
  predicate OnlySeparators(t: string, sep: char) {
    forall i :: 0 <= i < |t| ==> t[i] == sep
  }

  /** k separators alone give k + 1 empty pieces. */
  lemma {:induction false} SplitAllOnlySeparators(t: string, sep: char)
    requires OnlySeparators(t, sep)
    ensures |SplitAll(t, sep)| == |t| + 1
    ensures forall k :: 0 <= k < |SplitAll(t, sep)| ==> SplitAll(t, sep)[k] == ""
    decreases |t|
  {
    if |t| > 0 {
      SplitAllOnlySeparators(t[1..], sep);
    }
  }

  /** A string that does not end with the separator has a non-empty last piece. */
  lemma {:induction false} SplitAllLastPiece(s: string, sep: char)
    requires s != "" && s[|s| - 1] != sep
    ensures SplitAll(s, sep)[|SplitAll(s, sep)| - 1] != ""
    decreases |s|
  {
    if |s| > 1 {
      assert s[1..][|s[1..]| - 1] == s[|s| - 1];
      SplitAllLastPiece(s[1..], sep);
    }
  }

  /** Removes the empty strings at the end, as String.split with limit 0 does. */
  function DropTrailingEmpty(parts: seq<string>): (r: seq<string>)
    ensures |r| <= |parts| && r == parts[..|r|]
    ensures |r| > 0 ==> r[|r| - 1] != ""
    ensures forall k :: |r| <= k < |parts| ==> parts[k] == ""
  {
    if |parts| == 0 then []
    else if parts[|parts| - 1] == "" then DropTrailingEmpty(parts[..|parts| - 1])
    else parts
  }

  /** Empty pieces appended at the end are all dropped again. */
  lemma {:induction false} DropTrailingEmptyOfEmpties(p: seq<string>, q: seq<string>)
    requires forall k :: 0 <= k < |q| ==> q[k] == ""
    ensures DropTrailingEmpty(p + q) == DropTrailingEmpty(p)
    decreases |q|
  {
    if |q| == 0 {
      assert p + q == p;
    } else {
      assert (p + q)[..|p + q| - 1] == p + q[..|q| - 1];
      DropTrailingEmptyOfEmpties(p, q[..|q| - 1]);
    }
  }

  /** String.split(String.valueOf(sep)): without a separator the whole
      string is the only piece (even when empty); otherwise every piece,
      minus the trailing empty ones. No piece holds the separator. */
  function Split(s: string, sep: char): (r: seq<string>)
    ensures sep !in s ==> r == [s]
    ensures sep in s ==> && |r| <= |SplitAll(s, sep)| && r == SplitAll(s, sep)[..|r|]
                         && forall k :: |r| <= k < |SplitAll(s, sep)| ==> SplitAll(s, sep)[k] == ""
    ensures sep in s && |r| > 0 ==> r[|r| - 1] != ""
    ensures forall k :: 0 <= k < |r| ==> sep !in r[k]
  {
    SplitAllJoin(s, sep);
    if sep !in s then [s] else DropTrailingEmpty(SplitAll(s, sep))
  }

  /** With two or more pieces, the first piece is followed by a separator
      in the string. */
  lemma SplitFirstPiece(s: string, sep: char)
    requires |Split(s, sep)| >= 2
    ensures var first := Split(s, sep)[0];
            |first| < |s| && first == s[..|first|] && s[|first|] == sep
  {
    var parts := SplitAll(s, sep);
    SplitAllJoin(s, sep);
    assert Join(parts, sep) == parts[0] + [sep] + Join(parts[1..], sep);
  }

  /** split ignores any run of trailing separators: a string not ending
      with the separator, followed by such a run, splits into all the
      pieces of that string, empty ones included. */
  lemma SplitIgnoresTrailingSeparators(body: string, sep: char, t: string)
    requires body != "" && body[|body| - 1] != sep && OnlySeparators(t, sep)
    ensures Split(body + t, sep) == SplitAll(body, sep)
  {
    var parts := SplitAll(body, sep);
    SplitAllLastPiece(body, sep);
    assert DropTrailingEmpty(parts) == parts;
    if t == "" {
      assert body + t == body;
      if sep !in body {
        SplitAllWithoutSeparator(body, sep);
      }
    } else {
      assert body + t == body + [sep] + t[1..];
      assert (body + t)[|body|] == sep;
      SplitAllConcat(body, sep, t[1..]);
      SplitAllOnlySeparators(t[1..], sep);
      DropTrailingEmptyOfEmpties(parts, SplitAll(t[1..], sep));
    }
  }

  /** A non-empty run of separators alone has no pieces at all. */
  lemma SplitOnlySeparators(t: string, sep: char)
    requires t != "" && OnlySeparators(t, sep)
    ensures Split(t, sep) == []
  {
    assert t[0] == sep;
    SplitAllOnlySeparators(t, sep);
    DropTrailingEmptyOfEmpties([], SplitAll(t, sep));
    assert [] + SplitAll(t, sep) == SplitAll(t, sep);
  }
}
