/** Models of the Python `str` operations the organizer uses: case mapping,
    `strip`, `split`, `join`, `replace`, `startswith` and the substring test `in`.
    Whitespace is Python's full `str.isspace` set. Case mapping touches only the letters A-Z
    and a-z; every other character is left as it is. */
module Text {

  /** `str.isspace`, the whitespace `strip()` and `split()` use: tab, line feed, vertical tab,
      form feed, carriage return, the separator controls 0x1C-0x1F, space, next line 0x85,
      no-break space 0xA0, ogham space 0x1680, the spaces 0x2000-0x200A, the line and
      paragraph separators 0x2028 and 0x2029, 0x202F, 0x205F and the ideographic space 0x3000. */
  predicate IsSpace(c: char) {
    var n := c as int;
    || n == 0x20 || (0x09 <= n <= 0x0D) || (0x1C <= n <= 0x1F)
    || n == 0x85 || n == 0xA0 || n == 0x1680 || (0x2000 <= n <= 0x200A)
    || n == 0x2028 || n == 0x2029 || n == 0x202F || n == 0x205F || n == 0x3000
  }

  /** An ASCII digit, the characters `int()` and the formatting code work with. */
  predicate IsDigit(c: char) {
    '0' <= c <= '9'
  }

  function ToLower(c: char): char {
    if 'A' <= c <= 'Z' then (c as int + 32) as char else c
  }

  function ToUpper(c: char): char {
    if 'a' <= c <= 'z' then (c as int - 32) as char else c
  }

  /** A character that is not a letter is left alone by both case mappings. */
  lemma CaseMappingKeepsNonLetters(c: char)
    requires !('A' <= c <= 'Z') && !('a' <= c <= 'z')
    ensures ToLower(c) == c && ToUpper(c) == c
  {
  }

  /** `str.isdigit` on one character (Unicode 15.0): the decimal digits of every script,
      superscripts, subscripts, circled and parenthesised digits, and the other characters
      whose numeric type is "digit". */
  predicate IsUnicodeDigit(c: char) {
    var n := c as int;
    || (0x30 <= n <= 0x39) || (0xB2 <= n <= 0xB3) || n == 0xB9 || (0x660 <= n <= 0x669)
    || (0x6F0 <= n <= 0x6F9) || (0x7C0 <= n <= 0x7C9) || (0x966 <= n <= 0x96F)
    || (0x9E6 <= n <= 0x9EF) || (0xA66 <= n <= 0xA6F) || (0xAE6 <= n <= 0xAEF)
    || (0xB66 <= n <= 0xB6F) || (0xBE6 <= n <= 0xBEF) || (0xC66 <= n <= 0xC6F)
    || (0xCE6 <= n <= 0xCEF) || (0xD66 <= n <= 0xD6F) || (0xDE6 <= n <= 0xDEF)
    || (0xE50 <= n <= 0xE59) || (0xED0 <= n <= 0xED9) || (0xF20 <= n <= 0xF29)
    || (0x1040 <= n <= 0x1049) || (0x1090 <= n <= 0x1099) || (0x1369 <= n <= 0x1371)
    || (0x17E0 <= n <= 0x17E9) || (0x1810 <= n <= 0x1819) || (0x1946 <= n <= 0x194F)
    || (0x19D0 <= n <= 0x19DA) || (0x1A80 <= n <= 0x1A89) || (0x1A90 <= n <= 0x1A99)
    || (0x1B50 <= n <= 0x1B59) || (0x1BB0 <= n <= 0x1BB9) || (0x1C40 <= n <= 0x1C49)
    || (0x1C50 <= n <= 0x1C59) || n == 0x2070 || (0x2074 <= n <= 0x2079)
    || (0x2080 <= n <= 0x2089) || (0x2460 <= n <= 0x2468) || (0x2474 <= n <= 0x247C)
    || (0x2488 <= n <= 0x2490) || n == 0x24EA || (0x24F5 <= n <= 0x24FD) || n == 0x24FF
    || (0x2776 <= n <= 0x277E) || (0x2780 <= n <= 0x2788) || (0x278A <= n <= 0x2792)
    || (0xA620 <= n <= 0xA629) || (0xA8D0 <= n <= 0xA8D9) || (0xA900 <= n <= 0xA909)
    || (0xA9D0 <= n <= 0xA9D9) || (0xA9F0 <= n <= 0xA9F9) || (0xAA50 <= n <= 0xAA59)
    || (0xABF0 <= n <= 0xABF9) || (0xFF10 <= n <= 0xFF19) || (0x104A0 <= n <= 0x104A9)
    || (0x10A40 <= n <= 0x10A43) || (0x10D30 <= n <= 0x10D39) || (0x10E60 <= n <= 0x10E68)
    || (0x11052 <= n <= 0x1105A) || (0x11066 <= n <= 0x1106F) || (0x110F0 <= n <= 0x110F9)
    || (0x11136 <= n <= 0x1113F) || (0x111D0 <= n <= 0x111D9) || (0x112F0 <= n <= 0x112F9)
    || (0x11450 <= n <= 0x11459) || (0x114D0 <= n <= 0x114D9) || (0x11650 <= n <= 0x11659)
    || (0x116C0 <= n <= 0x116C9) || (0x11730 <= n <= 0x11739) || (0x118E0 <= n <= 0x118E9)
    || (0x11950 <= n <= 0x11959) || (0x11C50 <= n <= 0x11C59) || (0x11D50 <= n <= 0x11D59)
    || (0x11DA0 <= n <= 0x11DA9) || (0x11F50 <= n <= 0x11F59) || (0x16A60 <= n <= 0x16A69)
    || (0x16AC0 <= n <= 0x16AC9) || (0x16B50 <= n <= 0x16B59) || (0x1D7CE <= n <= 0x1D7FF)
    || (0x1E140 <= n <= 0x1E149) || (0x1E2F0 <= n <= 0x1E2F9) || (0x1E4F0 <= n <= 0x1E4F9)
    || (0x1E950 <= n <= 0x1E959) || (0x1F100 <= n <= 0x1F10A) || (0x1FBF0 <= n <= 0x1FBF9)
  }

  /** Every ASCII digit is a digit for `str.isdigit`; so are the fullwidth one and the
      superscript two, while a letter is not. */
  lemma UnicodeDigitExamples(c: char)
    requires IsDigit(c)
    ensures IsUnicodeDigit(c)
    ensures IsUnicodeDigit('\U{FF11}') && IsUnicodeDigit('\U{00B2}')
    ensures !IsUnicodeDigit('a')
  {
  }

  /** `any(c.isdigit() for c in s)` */
  predicate AnyDigit(s: string) {
    exists i :: 0 <= i < |s| && IsUnicodeDigit(s[i])
  }

  /** `str.lower` */
  function Lower(s: string): (r: string)
    ensures |r| == |s|
    ensures forall i :: 0 <= i < |s| ==> r[i] == ToLower(s[i])
  {
    seq(|s|, i requires 0 <= i < |s| => ToLower(s[i]))
  }

  /** `str.upper` */
  function Upper(s: string): (r: string)
    ensures |r| == |s|
    ensures forall i :: 0 <= i < |s| ==> r[i] == ToUpper(s[i])
  {
    seq(|s|, i requires 0 <= i < |s| => ToUpper(s[i]))
  }

  /** `str.capitalize`: the first character upper-cased and every other one lower-cased. */
  function Capitalize(s: string): (r: string)
    ensures |r| == |s|
    ensures |s| > 0 ==> r[0] == ToUpper(s[0])
    ensures forall i :: 1 <= i < |s| ==> r[i] == ToLower(s[i])
  {
    if |s| == 0 then "" else [ToUpper(s[0])] + Lower(s[1..])
  }

  /** `s.startswith(p)` */
  predicate StartsWith(s: string, p: string) {
    |p| <= |s| && s[..|p|] == p
  }

  /** `s.endswith(p)` */
  predicate EndsWith(s: string, p: string) {
    |p| <= |s| && s[|s| - |p|..] == p
  }

  /** `p` occurs in `s` starting at index `i`. */
  predicate OccursAt(s: string, p: string, i: nat) {
    i + |p| <= |s| && s[i..i + |p|] == p
  }

  /** The substring test `p in s`, scanning from the left. */
  predicate Contains(s: string, p: string)
    ensures Contains(s, p) ==> |p| <= |s|
    decreases |s|
  {
    StartsWith(s, p) || (|s| > 0 && Contains(s[1..], p))
  }

  /** The scan finds `p` exactly when `p` occurs somewhere in `s`. */
  lemma {:induction false} ContainsIff(s: string, p: string)
    ensures Contains(s, p) <==> exists i: nat :: OccursAt(s, p, i)
    decreases |s|
  {
    if Contains(s, p) {
      if StartsWith(s, p) {
        assert OccursAt(s, p, 0);
      } else {
        ContainsIff(s[1..], p);
        var i: nat :| OccursAt(s[1..], p, i);
        assert s[i + 1..i + 1 + |p|] == s[1..][i..i + |p|];
        assert OccursAt(s, p, i + 1);
      }
    }
    if exists i: nat :: OccursAt(s, p, i) {
      var i: nat :| OccursAt(s, p, i);
      if i > 0 {
        assert s[1..][i - 1..i - 1 + |p|] == s[i..i + |p|];
        assert OccursAt(s[1..], p, i - 1);
        ContainsIff(s[1..], p);
      }
    }
  }

  /** A single character is contained exactly when it is an element. */
  lemma ContainsChar(s: string, c: char)
    ensures Contains(s, [c]) <==> c in s
  {
    ContainsIff(s, [c]);
    if c in s {
      var i :| 0 <= i < |s| && s[i] == c;
      assert OccursAt(s, [c], i);
    }
    if exists i: nat :: OccursAt(s, [c], i) {
      var i: nat :| OccursAt(s, [c], i);
      assert s[i] == s[i..i + 1][0];
    }
  }

  /** `s.replace(pat, rep)`: every non-overlapping occurrence of `pat`, found from the left,
      is replaced by `rep`. Python's replace with an empty pattern is never used here. */
  function Replace(s: string, pat: string, rep: string): string
    requires |pat| > 0
    decreases |s|
  {
    if |s| == 0 then ""
    else if StartsWith(s, pat) then rep + Replace(s[|pat|..], pat, rep)
    else [s[0]] + Replace(s[1..], pat, rep)
  }

  /** Without an occurrence of the pattern, replacing changes nothing. */
  lemma {:induction false} ReplaceAbsent(s: string, pat: string, rep: string)
    requires |pat| > 0
    requires !Contains(s, pat)
    ensures Replace(s, pat, rep) == s
    decreases |s|
  {
    if |s| > 0 {
      ReplaceAbsent(s[1..], pat, rep);
    }
  }

  /** A character found neither in the text nor in the replacement is not in the result. */
  lemma {:induction false} ReplaceKeepsOut(s: string, pat: string, rep: string, c: char)
    requires |pat| > 0
    requires c !in s && c !in rep
    ensures c !in Replace(s, pat, rep)
    decreases |s|
  {
    if |s| > 0 {
      if StartsWith(s, pat) {
        assert forall x :: x in s[|pat|..] ==> x in s;
        ReplaceKeepsOut(s[|pat|..], pat, rep, c);
      } else {
        assert forall x :: x in s[1..] ==> x in s;
        ReplaceKeepsOut(s[1..], pat, rep, c);
      }
    }
  }

  /** Replacing a single character by a text that lacks it removes every copy of it. */
  lemma {:induction false} ReplaceCharRemoves(s: string, c: char, rep: string)
    requires c !in rep
    ensures c !in Replace(s, [c], rep)
    decreases |s|
  {
    if |s| > 0 {
      if StartsWith(s, [c]) {
        ReplaceCharRemoves(s[1..], c, rep);
      } else {
        assert s[0] != c by { assert s[..1] == [s[0]]; }
        ReplaceCharRemoves(s[1..], c, rep);
      }
    }
  }

  /** Replacing by something shorter never lengthens, and strictly shortens once there is a match. */
  lemma {:induction false} ReplaceShrinks(s: string, pat: string, rep: string)
    requires 0 < |pat| && |rep| < |pat|
    ensures |Replace(s, pat, rep)| <= |s|
    ensures Contains(s, pat) ==> |Replace(s, pat, rep)| < |s|
    decreases |s|
  {
    if |s| > 0 {
      if StartsWith(s, pat) {
        ReplaceShrinks(s[|pat|..], pat, rep);
      } else {
        ReplaceShrinks(s[1..], pat, rep);
      }
    }
  }

  /** Drop the leading characters that satisfy `drop`: the result is a suffix of `s`. */
  function TrimStart(s: string, drop: char -> bool): (r: string)
    ensures |r| <= |s| && r == s[|s| - |r|..]
    ensures |r| > 0 ==> !drop(r[0])
    decreases |s|
  {
    if |s| > 0 && drop(s[0]) then TrimStart(s[1..], drop) else s
  }

  /** Drop the trailing characters that satisfy `drop`: the result is a prefix of `s`. */
  function TrimEnd(s: string, drop: char -> bool): (r: string)
    ensures |r| <= |s| && r == s[..|r|]
    ensures |r| > 0 ==> !drop(r[|r| - 1])
    decreases |s|
  {
    if |s| > 0 && drop(s[|s| - 1]) then TrimEnd(s[..|s| - 1], drop) else s
  }

  /** `str.strip()`: surrounding white space removed. */
  function StripSpace(s: string): (r: string)
    ensures |r| > 0 ==> !IsSpace(r[0]) && !IsSpace(r[|r| - 1])
  {
    TrimEnd(TrimStart(s, IsSpace), IsSpace)
  }

  /** The test for one character, as a function value. */
  function Is(c: char): char -> bool {
    x => x == c
  }

  /** `str.strip(c)` for one character `c`: the result is a slice of `s`. */
  function StripChar(s: string, c: char): (r: string)
    ensures |r| > 0 ==> r[0] != c && r[|r| - 1] != c
    ensures exists i, j :: 0 <= i <= j <= |s| && r == s[i..j]
  {
    var t := TrimStart(s, Is(c));
    var r := TrimEnd(t, Is(c));
    assert r == s[|s| - |t|..|s| - |t| + |r|];
    r
  }

  /** Every character `TrimStart` drops satisfies `drop`. */
  lemma {:induction false} TrimStartDrops(s: string, drop: char -> bool)
    ensures forall k :: 0 <= k < |s| - |TrimStart(s, drop)| ==> drop(s[k])
    decreases |s|
  {
    if |s| > 0 && drop(s[0]) {
      TrimStartDrops(s[1..], drop);
      assert forall k :: 1 <= k < |s| ==> s[1..][k - 1] == s[k];
    }
  }

  /** Every character `TrimEnd` drops satisfies `drop`. */
  lemma {:induction false} TrimEndDrops(s: string, drop: char -> bool)
    ensures forall k :: |TrimEnd(s, drop)| <= k < |s| ==> drop(s[k])
    decreases |s|
  {
    if |s| > 0 && drop(s[|s| - 1]) {
      TrimEndDrops(s[..|s| - 1], drop);
    }
  }

  lemma DropsAfterShift(s: string, i: nat, n: nat, drop: char -> bool)
    requires i + n <= |s|
    requires forall k :: n <= k < |s[i..]| ==> drop(s[i..][k])
    ensures forall k :: i + n <= k < |s| ==> drop(s[k])
  {
    forall k | i + n <= k < |s|
      ensures drop(s[k])
    {
      assert s[i..][k - i] == s[k];
    }
  }

  /** Trimming both ends keeps the slice `s[i..j]`, whose own first and last characters do not
      satisfy `drop`. */
  lemma TrimSlice(s: string, drop: char -> bool) returns (i: nat, j: nat)
    ensures i == |s| - |TrimStart(s, drop)|
    ensures j == i + |TrimEnd(TrimStart(s, drop), drop)| <= |s|
    ensures TrimEnd(TrimStart(s, drop), drop) == s[i..j]
    ensures i < j ==> !drop(s[i]) && !drop(s[j - 1])
  {
    var t := TrimStart(s, drop);
    var r := TrimEnd(t, drop);
    i := |s| - |t|;
    j := i + |r|;
    assert t == s[i..];
    assert r == t[..|r|];
    assert s[i..][..|r|] == s[i..j];
    if i < j {
      assert s[i] == r[0] && s[j - 1] == r[|r| - 1];
    }
  }

  /** Everything outside the slice that trimming keeps satisfies `drop`. */
  lemma TrimOutside(s: string, drop: char -> bool, i: nat, j: nat)
    requires i == |s| - |TrimStart(s, drop)|
    requires j == i + |TrimEnd(TrimStart(s, drop), drop)|
    ensures forall k :: 0 <= k < i ==> drop(s[k])
    ensures forall k :: j <= k < |s| ==> drop(s[k])
  {
    var t := TrimStart(s, drop);
    TrimStartDrops(s, drop);
    TrimEndDrops(t, drop);
    DropsAfterShift(s, i, |TrimEnd(t, drop)|, drop);
  }

  /** `str.strip()` removes exactly the white space at the two ends: the result is a slice
      `s[i..j]` with only white space outside it and none at its own ends, so no shorter
      slice is left after stripping. */
  lemma StripSpaceSlice(s: string) returns (i: nat, j: nat)
    ensures i <= j <= |s| && StripSpace(s) == s[i..j]
    ensures forall k :: 0 <= k < i ==> IsSpace(s[k])
    ensures forall k :: j <= k < |s| ==> IsSpace(s[k])
    ensures i < j ==> !IsSpace(s[i]) && !IsSpace(s[j - 1])
  {
    i, j := TrimSlice(s, IsSpace);
    TrimOutside(s, IsSpace, i, j);
  }

  /** Whitespace beyond ASCII counts too: a lone no-break space strips to nothing. */
  lemma StripNoBreakSpace()
    ensures StripSpace(['\U{00A0}']) == []
  {
    assert IsSpace('\U{00A0}');
    assert TrimStart(['\U{00A0}'], IsSpace) == TrimStart([], IsSpace);
  }

  /** A word followed by an ideographic space strips to the word. */
  lemma StripIdeographicSpace(w: string)
    requires |w| > 0 && !IsSpace(w[0]) && !IsSpace(w[|w| - 1])
    ensures StripSpace(w + ['\U{3000}']) == w
  {
    var s := w + ['\U{3000}'];
    assert IsSpace(s[|s| - 1]);
    assert s[..|s| - 1] == w;
    assert TrimEnd(w, IsSpace) == w;
    assert TrimStart(s, IsSpace) == s;
  }

  /** `str.strip(c)` removes exactly the copies of `c` at the two ends. */
  lemma StripCharSlice(s: string, c: char) returns (i: nat, j: nat)
    ensures i <= j <= |s| && StripChar(s, c) == s[i..j]
    ensures forall k :: 0 <= k < i ==> s[k] == c
    ensures forall k :: j <= k < |s| ==> s[k] == c
    ensures i < j ==> s[i] != c && s[j - 1] != c
  {
    i, j := TrimSlice(s, Is(c));
    TrimOutside(s, Is(c), i, j);
    assert forall x :: Is(c)(x) <==> x == c;
  }

  /** Number of leading characters that are not white space. */
  function WordLength(s: string): (n: nat)
    ensures n <= |s|
    ensures forall i :: 0 <= i < n ==> !IsSpace(s[i])
    ensures n < |s| ==> IsSpace(s[n])
    decreases |s|
  {
    if |s| == 0 || IsSpace(s[0]) then 0 else 1 + WordLength(s[1..])
  }

  predicate NoSpace(w: string) {
    forall i :: 0 <= i < |w| ==> !IsSpace(w[i])
  }

  /** `str.split()` with no argument: the maximal runs of characters that are not white space. */
  function SplitWords(s: string): (r: seq<string>)
    ensures forall k :: 0 <= k < |r| ==> |r[k]| > 0 && NoSpace(r[k])
    decreases |s|
  {
    if |s| == 0 then []
    else if IsSpace(s[0]) then SplitWords(s[1..])
    else
      var n := WordLength(s);
      [s[..n]] + SplitWords(s[n..])
  }

  /** Every character of `g` is white space. */
  predicate AllSpace(g: string) {
    forall i :: 0 <= i < |g| ==> IsSpace(g[i])
  }

  /** `gaps[0] + words[0] + gaps[1] + ... + words[n - 1] + gaps[n]`. */
  function Weave(gaps: seq<string>, words: seq<string>): string
    requires |gaps| == |words| + 1
    decreases |words|
  {
    if |words| == 0 then gaps[0] else gaps[0] + words[0] + Weave(gaps[1..], words[1..])
  }

  lemma WeavePrepend(x: string, gaps: seq<string>, words: seq<string>)
    requires |gaps| == |words| + 1
    ensures Weave([x + gaps[0]] + gaps[1..], words) == x + Weave(gaps, words)
  {
    var g := [x + gaps[0]] + gaps[1..];
    if |words| > 0 {
      assert g[1..] == gaps[1..];
    }
  }

  /** `s` is `words` interleaved with the white-space `gaps`, and every gap between two words
      is non-empty: the words are the maximal runs of non-space characters of `s`. */
  predicate Runs(s: string, words: seq<string>, gaps: seq<string>) {
    && |gaps| == |words| + 1
    && s == Weave(gaps, words)
    && (forall k :: 0 <= k < |gaps| ==> AllSpace(gaps[k]))
    && (forall k :: 0 < k < |gaps| - 1 ==> |gaps[k]| > 0)
  }

  lemma RunsSpace(c: char, rest: string, words: seq<string>, g: seq<string>)
    requires IsSpace(c) && Runs(rest, words, g)
    ensures Runs([c] + rest, words, [[c] + g[0]] + g[1..])
  {
    var gaps := [[c] + g[0]] + g[1..];
    WeavePrepend([c], g, words);
    assert AllSpace(g[0]);
    assert forall k :: 0 < k < |gaps| ==> gaps[k] == g[k];
  }

  lemma RunsWord(w: string, rest: string, words: seq<string>, g: seq<string>)
    requires |w| > 0 && NoSpace(w) && Runs(rest, words, g)
    requires |rest| > 0 ==> IsSpace(rest[0])
    requires |words| > 0 ==> |words[0]| > 0 && NoSpace(words[0])
    ensures Runs(w + rest, [w] + words, [""] + g)
  {
    var gaps := [""] + g;
    assert gaps[1..] == g;
    assert ([w] + words)[1..] == words;
    assert Weave(gaps, [w] + words) == w + Weave(g, words);
    if |words| > 0 {
      assert rest == g[0] + words[0] + Weave(g[1..], words[1..]);
      assert |g[0]| > 0;
    }
    assert forall k :: 0 < k < |gaps| ==> gaps[k] == g[k - 1];
  }

  /** `str.split()` yields the maximal runs of non-space characters of `s`, in order. */
  lemma {:induction false} SplitWordsRuns(s: string) returns (gaps: seq<string>)
    ensures Runs(s, SplitWords(s), gaps)
    decreases |s|
  {
    if |s| == 0 {
      gaps := [""];
    } else if IsSpace(s[0]) {
      var g := SplitWordsRuns(s[1..]);
      RunsSpace(s[0], s[1..], SplitWords(s[1..]), g);
      gaps := [[s[0]] + g[0]] + g[1..];
      assert s == [s[0]] + s[1..];
    } else {
      var n := WordLength(s);
      var g := SplitWordsRuns(s[n..]);
      RunsWord(s[..n], s[n..], SplitWords(s[n..]), g);
      gaps := [""] + g;
      assert s == s[..n] + s[n..];
    }
  }

  /** `sep.join(parts)` */
  function Join(sep: string, parts: seq<string>): string
    decreases |parts|
  {
    if |parts| == 0 then ""
    else if |parts| == 1 then parts[0]
    else parts[0] + sep + Join(sep, parts[1..])
  }

  /** `s.split(c)` for one separator character: never empty, and no part holds `c`. */
  function SplitOn(s: string, c: char): (r: seq<string>)
    ensures |r| >= 1
    ensures forall k :: 0 <= k < |r| ==> c !in r[k]
    ensures forall k :: 0 <= k < |r| ==> forall x :: x in r[k] ==> x in s
    decreases |s|
  {
    if |s| == 0 then [""]
    else
      var rest := SplitOn(s[1..], c);
      if s[0] == c then [""] + rest
      else [[s[0]] + rest[0]] + rest[1..]
  }

  /** Splitting on a character and joining with it again gives back the text. */
  lemma {:induction false} JoinSplitOn(s: string, c: char)
    ensures Join([c], SplitOn(s, c)) == s
    decreases |s|
  {
    if |s| > 0 {
      var rest := SplitOn(s[1..], c);
      JoinSplitOn(s[1..], c);
      if s[0] == c {
        assert [""] + rest == [""] + rest;
        assert Join([c], [""] + rest) == "" + [c] + Join([c], rest);
      } else if |rest| == 1 {
        assert Join([c], rest) == rest[0];
      } else {
        var parts := [[s[0]] + rest[0]] + rest[1..];
        assert parts[1..] == rest[1..];
        assert Join([c], rest) == rest[0] + [c] + Join([c], rest[1..]);
      }
    }
  }

  /** Text without `c` is a single part. */
  lemma {:induction false} SplitOnWithout(d: string, c: char)
    requires c !in d
    ensures SplitOn(d, c) == [d]
    decreases |d|
  {
    if |d| > 0 {
      SplitOnWithout(d[1..], c);
      assert d == [d[0]] + d[1..];
    }
  }

  /** Text without `c`, then `c`, then more text: the first part is that text. */
  lemma {:induction false} SplitOnAfter(d: string, rest: string, c: char)
    requires c !in d
    ensures SplitOn(d + [c] + rest, c) == [d] + SplitOn(rest, c)
    decreases |d|
  {
    if |d| == 0 {
      assert d + [c] + rest == [c] + rest;
      assert ([c] + rest)[1..] == rest;
    } else {
      SplitOnAfter(d[1..], rest, c);
      assert (d + [c] + rest)[1..] == d[1..] + [c] + rest;
      assert [d[0]] + d[1..] == d;
    }
  }

  /** Joining parts that do not hold `c` with `c` and splitting on it gives back the parts. */
  lemma {:induction false} SplitJoin(parts: seq<string>, c: char)
    requires |parts| >= 1
    requires forall k :: 0 <= k < |parts| ==> c !in parts[k]
    ensures SplitOn(Join([c], parts), c) == parts
    decreases |parts|
  {
    if |parts| == 1 {
      SplitOnWithout(parts[0], c);
    } else {
      SplitJoin(parts[1..], c);
      SplitOnAfter(parts[0], Join([c], parts[1..]), c);
      assert Join([c], parts) == parts[0] + [c] + Join([c], parts[1..]);
      assert [parts[0]] + parts[1..] == parts;
    }
  }

  /** `s.split(sep)[0]`: the text before the first occurrence of `sep`. */
  function BeforeFirst(s: string, sep: string): (r: string)
    requires |sep| > 0
    ensures StartsWith(s, r)
    decreases |s|
  {
    if |s| == 0 || StartsWith(s, sep) then "" else [s[0]] + BeforeFirst(s[1..], sep)
  }

  /** An occurrence past the first character is an occurrence in the tail. */
  lemma OccursInTail(s: string, p: string, i: nat)
    requires |s| > 0 && i > 0
    ensures OccursAt(s, p, i) <==> OccursAt(s[1..], p, i - 1)
  {
    if i + |p| <= |s| {
      assert s[1..][i - 1..i - 1 + |p|] == s[i..i + |p|];
    }
  }

  /** `s.split(sep)[0]` stops at the first occurrence of `sep`, or is all of `s` when there is
      none: `sep` starts at no earlier index. */
  lemma {:induction false} BeforeFirstStopsAtFirst(s: string, sep: string)
    requires |sep| > 0
    ensures BeforeFirst(s, sep) == s || OccursAt(s, sep, |BeforeFirst(s, sep)|)
    ensures forall i: nat :: i < |BeforeFirst(s, sep)| ==> !OccursAt(s, sep, i)
    decreases |s|
  {
    var r := BeforeFirst(s, sep);
    if |s| > 0 && StartsWith(s, sep) {
      assert OccursAt(s, sep, 0);
    } else if |s| > 0 {
      var t := s[1..];
      BeforeFirstStopsAtFirst(t, sep);
      var r' := BeforeFirst(t, sep);
      assert r == [s[0]] + r';
      if r' != t {
        OccursInTail(s, sep, |r|);
      } else {
        assert s == [s[0]] + t;
      }
      forall i: nat | i < |r|
        ensures !OccursAt(s, sep, i)
      {
        if i == 0 {
          if |sep| <= |s| {
            assert s[0..|sep|] == s[..|sep|];
          }
        } else {
          OccursInTail(s, sep, i);
        }
      }
    }
  }

  /** The text before the first separator does not contain the separator. */
  lemma BeforeFirstLacksSep(s: string, sep: string)
    requires |sep| > 0
    ensures !Contains(BeforeFirst(s, sep), sep)
  {
    var r := BeforeFirst(s, sep);
    BeforeFirstStopsAtFirst(s, sep);
    ContainsIff(r, sep);
  }

  /** A prefix that lacks the separator's first character passes through unchanged. */
  lemma {:induction false} BeforeFirstSkips(p: string, t: string, sep: string)
    requires |sep| > 0 && sep[0] !in p
    ensures BeforeFirst(p + t, sep) == p + BeforeFirst(t, sep)
    decreases |p|
  {
    if |p| > 0 {
      assert (p + t)[1..] == p[1..] + t;
      assert !StartsWith(p + t, sep) by { assert (p + t)[0] == p[0]; }
      assert sep[0] !in p[1..];
      BeforeFirstSkips(p[1..], t, sep);
      assert BeforeFirst(p + t, sep) == [p[0]] + BeforeFirst(p[1..] + t, sep);
      assert p == [p[0]] + p[1..];
    } else {
      assert p + t == t;
    }
  }
}
