/** The JavaScript string operations the components rely on, over `string` (= `seq<char>`):
    `indexOf`/`includes`, `split`, `replace` with a string pattern, `trim`, `toLowerCase`,
    the regular expression `/\D/g` (every non-digit), `parseInt` of digit strings,
    zero padding, and the `<`/`>` ordering of strings. */
module Strings {
  import opened Wrappers
  import opened Seqs

  // ---------------------------------------------------------------- searching

  /** `pat` occurs in `s` starting at position `i`. */
  predicate OccursAt(s: string, pat: string, i: nat) {
    i + |pat| <= |s| && s[i..i + |pat|] == pat
  }

  function IndexOfFrom(s: string, pat: string, from: nat): (r: Option<nat>)
    ensures r.Some? ==> from <= r.value && OccursAt(s, pat, r.value)
    ensures r.Some? ==> forall j :: from <= j < r.value ==> !OccursAt(s, pat, j)
    ensures r.None? ==> forall j :: from <= j ==> !OccursAt(s, pat, j)
    decreases |s| - from
  {
    if from + |pat| > |s| then None
    else if OccursAt(s, pat, from) then Some(from)
    else IndexOfFrom(s, pat, from + 1)
  }

  /** `s.indexOf(pat)`: the first position where `pat` occurs, if any. */
  function IndexOf(s: string, pat: string): (r: Option<nat>)
    ensures r.Some? ==> OccursAt(s, pat, r.value) && forall j :: 0 <= j < r.value ==> !OccursAt(s, pat, j)
    ensures r.None? ==> forall j :: !OccursAt(s, pat, j)
  {
    IndexOfFrom(s, pat, 0)
  }

  /** `s.includes(pat)`. */
  predicate Contains(s: string, pat: string) {
    IndexOf(s, pat).Some?
  }

  /** A character of `pat` that `s` lacks keeps `pat` out of `s`. */
  lemma NotContainsByChar(s: string, pat: string, k: nat)
    requires k < |pat| && pat[k] !in s
    ensures !Contains(s, pat)
  {
    forall i: nat | i + |pat| <= |s|
      ensures !OccursAt(s, pat, i)
    {
      assert s[i..i + |pat|][k] == s[i + k];
    }
  }

  /** The empty pattern is found in every string. */
  lemma ContainsEmpty(s: string)
    ensures Contains(s, "")
  {
    assert OccursAt(s, "", 0);
  }

  // ---------------------------------------------------------------- split / join

  /** `s.split(sep)` for a non-empty separator: the pieces between the occurrences of `sep`,
      found left to right. */
  function Split(s: string, sep: string): (parts: seq<string>)
    requires |sep| > 0
    ensures |parts| >= 1
    decreases |s|
  {
    match IndexOf(s, sep)
    case None => [s]
    case Some(i) => [s[..i]] + Split(s[i + |sep|..], sep)
  }

  /** The text before the first `sep`, or all of `s` when there is none. */
  function BeforeFirst(s: string, sep: string): (r: string)
    ensures |r| <= |s| && r == s[..|r|]
    ensures |sep| > 0 ==> r == Split(s, sep)[0]
  {
    match IndexOf(s, sep)
    case None => s
    case Some(i) => s[..i]
  }

  /** The text after the first `sep`, or `""` when there is none. */
  function AfterFirst(s: string, sep: string): (r: string)
    ensures |sep| > 0 && Contains(s, sep) ==> Split(s, sep)[1..] == Split(r, sep)
  {
    match IndexOf(s, sep)
    case None => ""
    case Some(i) => s[i + |sep|..]
  }

  /** `parts.join(sep)`. */
  function Join(parts: seq<string>, sep: string): string
  {
    if |parts| == 0 then ""
    else if |parts| == 1 then parts[0]
    else parts[0] + sep + Join(parts[1..], sep)
  }

  lemma JoinCons(a: string, parts: seq<string>, sep: string)
    requires |parts| >= 1
    ensures Join([a] + parts, sep) == a + sep + Join(parts, sep)
  {
    assert ([a] + parts)[1..] == parts;
  }

  /** Where `pat` occurs, the text is what comes before it, `pat` and what follows it. */
  lemma AroundOccurrence(s: string, pat: string, i: nat)
    requires OccursAt(s, pat, i)
    ensures s == s[..i] + pat + s[i + |pat|..]
  {
    assert s == s[..i] + s[i..i + |pat|] + s[i + |pat|..];
  }

  /** At the first separator the split is the piece before it and the split of the rest. */
  lemma SplitAtFirst(s: string, sep: string, i: nat)
    requires |sep| > 0 && IndexOf(s, sep) == Some(i)
    ensures i + |sep| <= |s|
    ensures Split(s, sep) == [s[..i]] + Split(s[i + |sep|..], sep)
  {
  }

  /** Joining the pieces of a split with the same separator gives back the text. */
  lemma {:induction false} JoinSplit(s: string, sep: string)
    requires |sep| > 0
    ensures Join(Split(s, sep), sep) == s
    decreases |s|
  {
    var found := IndexOf(s, sep);
    if found.Some? {
      var i := found.value;
      var rest := s[i + |sep|..];
      SplitAtFirst(s, sep, i);
      AroundOccurrence(s, sep, i);
      JoinSplit(rest, sep);
      JoinCons(s[..i], Split(rest, sep), sep);
    }
  }

  /** No piece of a split contains the separator. */
  lemma {:induction false} SplitPiecesFree(s: string, sep: string)
    requires |sep| > 0
    ensures forall k :: 0 <= k < |Split(s, sep)| ==> !Contains(Split(s, sep)[k], sep)
    decreases |s|
  {
    match IndexOf(s, sep)
    case None =>
    case Some(i) =>
      var rest := s[i + |sep|..];
      SplitPiecesFree(rest, sep);
      forall j: nat | j + |sep| <= i
        ensures !OccursAt(s[..i], sep, j)
      {
        assert s[..i][j..j + |sep|] == s[j..j + |sep|];
        assert !OccursAt(s, sep, j);
      }
      assert Split(s, sep) == [s[..i]] + Split(rest, sep);
  }

  /** A text without the separator is one piece. */
  lemma SplitWithout(s: string, sep: string)
    requires |sep| > 0 && !Contains(s, sep)
    ensures Split(s, sep) == [s]
  {
  }

  /** When the slash of " / " is absent from `a`, the first " / " of `a + " / " + rest`
      is the one right after `a`. */
  lemma {:induction false} IndexOfSlashSeparator(a: string, rest: string)
    requires '/' !in a
    ensures IndexOf(a + " / " + rest, " / ") == Some(|a|)
  {
    var s := a + " / " + rest;
    assert OccursAt(s, " / ", |a|) by { assert s[|a|..|a| + 3] == " / "; }
    forall j: nat | j < |a|
      ensures !OccursAt(s, " / ", j)
    {
      if j + 1 < |a| {
        assert s[j..j + 3][1] == s[j + 1] == a[j + 1];
      } else {
        assert s[j..j + 3][1] == s[j + 1] == ' ';
      }
    }
  }

  /** Splitting on " / " peels off a leading piece that has no slash. */
  lemma SplitSlashSeparator(a: string, rest: string)
    requires '/' !in a
    ensures Split(a + " / " + rest, " / ") == [a] + Split(rest, " / ")
  {
    var s := a + " / " + rest;
    IndexOfSlashSeparator(a, rest);
    assert s[..|a|] == a;
    assert s[|a| + 3..] == rest;
  }

  /** A text without a slash is a single " / " piece. */
  lemma SplitNoSlash(a: string)
    requires '/' !in a
    ensures Split(a, " / ") == [a]
  {
    NotContainsByChar(a, " / ", 1);
  }

  /** Splitting on a one-character separator peels off a leading piece without it. */
  lemma {:induction false} SplitCharSeparator(a: string, c: char, rest: string)
    requires c !in a
    ensures Split(a + [c] + rest, [c]) == [a] + Split(rest, [c])
  {
    var s := a + [c] + rest;
    assert OccursAt(s, [c], |a|) by { assert s[|a|..|a| + 1] == [c]; }
    forall j: nat | j < |a|
      ensures !OccursAt(s, [c], j)
    {
      assert s[j..j + 1][0] == s[j] == a[j];
    }
    assert s[..|a|] == a;
    assert s[|a| + 1..] == rest;
  }

  /** The same for the " (" separator, when `a` has no opening parenthesis. */
  lemma {:induction false} SplitParenSeparator(a: string, rest: string)
    requires '(' !in a
    ensures Split(a + " (" + rest, " (") == [a] + Split(rest, " (")
  {
    var s := a + " (" + rest;
    assert OccursAt(s, " (", |a|) by { assert s[|a|..|a| + 2] == " ("; }
    forall j: nat | j < |a|
      ensures !OccursAt(s, " (", j)
    {
      if j + 1 < |a| {
        assert s[j..j + 2][1] == s[j + 1] == a[j + 1];
      } else {
        assert s[j..j + 2][1] == s[j + 1] == ' ';
      }
    }
    assert s[..|a|] == a;
    assert s[|a| + 2..] == rest;
  }

  // ---------------------------------------------------------------- replace

  /** `s.replace(pat, rep)` with a string pattern: only the first occurrence is replaced. */
  function ReplaceFirst(s: string, pat: string, rep: string): (r: string)
    ensures !Contains(s, pat) ==> r == s
    ensures Contains(s, pat) ==> |r| == |s| - |pat| + |rep|
  {
    match IndexOf(s, pat)
    case None => s
    case Some(i) => s[..i] + rep + s[i + |pat|..]
  }

  /** Removing the first `)` of a text whose only `)` follows `a`. */
  lemma RemoveCloseParen(a: string, b: string)
    requires ')' !in a
    ensures ReplaceFirst(a + ")" + b, ")", "") == a + b
  {
    var s := a + ")" + b;
    assert OccursAt(s, ")", |a|) by { assert s[|a|..|a| + 1] == ")"; }
    forall j: nat | j < |a|
      ensures !OccursAt(s, ")", j)
    {
      assert s[j..j + 1][0] == s[j] == a[j];
    }
    assert s[..|a|] == a && s[|a| + 1..] == b;
  }

  // ---------------------------------------------------------------- trim

  /** The characters `String.prototype.trim` removes: ECMAScript WhiteSpace and LineTerminator
      (tab, line feed, vertical tab, form feed and carriage return are U+0009..U+000D). */
  predicate IsWhitespace(c: char) {
    c == ' ' || ('\t' <= c <= '\r') || c == '\U{00A0}' || c == '\U{1680}' || ('\U{2000}' <= c <= '\U{200A}')
    || c == '\U{2028}' || c == '\U{2029}' || c == '\U{202F}' || c == '\U{205F}' || c == '\U{3000}' || c == '\U{FEFF}'
  }

  /** Neither end of `s` is whitespace. */
  predicate IsTrimmed(s: string) {
    s == [] || (!IsWhitespace(s[0]) && !IsWhitespace(s[|s| - 1]))
  }

  /** The first position from `i` on that is not whitespace (`|s|` when there is none). */
  function SkipStart(s: string, i: nat): (k: nat)
    requires i <= |s|
    ensures i <= k <= |s|
    ensures forall j :: i <= j < k ==> IsWhitespace(s[j])
    ensures k == |s| || !IsWhitespace(s[k])
    decreases |s| - i
  {
    if i < |s| && IsWhitespace(s[i]) then SkipStart(s, i + 1) else i
  }

  /** Going down from `k` to no lower than `lo`, the end of the last non-whitespace character. */
  function SkipEnd(s: string, lo: nat, k: nat): (e: nat)
    requires lo <= k <= |s|
    ensures lo <= e <= k
    ensures forall j :: e <= j < k ==> IsWhitespace(s[j])
    ensures e == lo || !IsWhitespace(s[e - 1])
  {
    if lo < k && IsWhitespace(s[k - 1]) then SkipEnd(s, lo, k - 1) else k
  }

  /** `r` is the slice of `s` starting at `i`, and everything of `s` around it is whitespace. */
  ghost predicate TrimmedFrom(r: string, s: string, i: nat) {
    i + |r| <= |s| && r == s[i..i + |r|]
    && (forall j :: 0 <= j < i ==> IsWhitespace(s[j]))
    && (forall j :: i + |r| <= j < |s| ==> IsWhitespace(s[j]))
  }

  /** `s.trim()`: the middle slice of `s` with no whitespace at either end;
      everything cut away is whitespace. */
  function Trim(s: string): (r: string)
    ensures IsTrimmed(r)
    ensures exists i :: TrimmedFrom(r, s, i)
    ensures IsTrimmed(s) ==> r == s
  {
    var i := SkipStart(s, 0);
    var e := SkipEnd(s, i, |s|);
    var r := s[i..e];
    assert TrimmedFrom(r, s, i);
    assert r != [] ==> r[0] == s[i] && r[|r| - 1] == s[e - 1];
    r
  }

  // ---------------------------------------------------------------- case

  /** `toLowerCase` on one character; only ASCII letters are folded. */
  function LowerChar(c: char): char {
    if 'A' <= c <= 'Z' then (c as int + 32) as char else c
  }

  /** `s.toLowerCase()` restricted to ASCII letters. */
  function ToLower(s: string): (r: string)
    ensures |r| == |s|
    ensures forall i :: 0 <= i < |s| ==> r[i] == LowerChar(s[i]) && !('A' <= r[i] <= 'Z')
  {
    seq(|s|, i requires 0 <= i < |s| => LowerChar(s[i]))
  }

  /** Lower-casing twice is lower-casing once. */
  lemma ToLowerIdempotent(s: string)
    ensures ToLower(ToLower(s)) == ToLower(s)
  {
  }

  // ---------------------------------------------------------------- digits

  /** What `\d` matches in a regular expression without the `u` flag. */
  predicate IsDigit(c: char) {
    '0' <= c <= '9'
  }

  predicate AllDigits(s: string) {
    forall i :: 0 <= i < |s| ==> IsDigit(s[i])
  }

  /** `s.replace(/\D/g, '')`: the digits of `s`, in order. */
  function KeepDigits(s: string): (r: string)
    ensures AllDigits(r)
    ensures |r| <= |s|
  {
    Filter(s, IsDigit)
  }

  /** The first `n` characters, as `s.slice(0, n)` gives them. */
  function Take(s: string, n: nat): (r: string)
    ensures |r| == if |s| < n then |s| else n
    ensures r == s[..|r|]
  {
    if |s| <= n then s else s[..n]
  }

  /** `s.slice(from, to)` for non-negative bounds: both are clamped to the length. */
  function Slice(s: string, from: nat, to: nat): (r: string)
    ensures from <= to <= |s| ==> r == s[from..to]
    ensures |s| <= from ==> r == ""
    ensures from <= |s| <= to ==> r == s[from..]
  {
    var i := if from <= |s| then from else |s|;
    var j := if to <= |s| then to else |s|;
    if i <= j then s[i..j] else ""
  }

  /** Removing the non-digits of a concatenation removes them from each part. */
  lemma KeepDigitsConcat(a: string, b: string)
    ensures KeepDigits(a + b) == KeepDigits(a) + KeepDigits(b)
  {
    FilterConcat(a, b, IsDigit);
  }

  /** A text without digits is removed entirely. */
  lemma {:induction false} KeepDigitsOfNone(s: string)
    requires forall i :: 0 <= i < |s| ==> !IsDigit(s[i])
    ensures KeepDigits(s) == ""
  {
    if s != "" {
      KeepDigitsOfNone(s[1..]);
    }
  }

  /** A text of digits has nothing to remove. */
  lemma KeepDigitsOfDigits(s: string)
    requires AllDigits(s)
    ensures KeepDigits(s) == s
  {
    FilterKeepsAll(s, IsDigit);
  }

  /** `parseInt` of a string of decimal digits. */
  function DigitsValue(s: string): (n: nat)
    requires AllDigits(s)
    ensures n < Pow10(|s|)
  {
    if s == [] then 0 else DigitsValue(s[..|s| - 1]) * 10 + (s[|s| - 1] as int - '0' as int)
  }

  function Pow10(n: nat): (p: nat)
    ensures p >= 1
  {
    if n == 0 then 1 else 10 * Pow10(n - 1)
  }

  function DigitChar(d: nat): (c: char)
    requires d < 10
    ensures IsDigit(c)
  {
    ('0' as int + d) as char
  }

  /** Decimal numeral of `n` in exactly `width` digits, padded with leading zeros
      (`String(n).padStart(width, '0')` for `n < 10^width`). */
  function Pad(n: nat, width: nat): (s: string)
    ensures |s| == width && AllDigits(s)
  {
    if width == 0 then "" else Pad(n / 10, width - 1) + [DigitChar(n % 10)]
  }

  /** Reading a padded numeral gives back its number. */
  lemma {:induction false} ValuePad(n: nat, width: nat)
    requires n < Pow10(width)
    ensures DigitsValue(Pad(n, width)) == n
  {
    if width > 0 {
      ValuePad(n / 10, width - 1);
      var s := Pad(n, width);
      assert s[..|s| - 1] == Pad(n / 10, width - 1);
    }
  }

  /** Padding the value of a digit string to its own width gives back the string. */
  lemma {:induction false} PadValue(s: string)
    requires AllDigits(s)
    ensures Pad(DigitsValue(s), |s|) == s
  {
    if s != [] {
      var init := s[..|s| - 1];
      var d := s[|s| - 1] as int - '0' as int;
      PadValue(init);
      var v := DigitsValue(init);
      var n := DigitsValue(s);
      assert n == v * 10 + d;
      DivModDigit(v, d);
      assert DigitChar(d) == s[|s| - 1];
      assert s == init + [s[|s| - 1]];
    }
  }

  lemma DivModDigit(v: nat, d: nat)
    requires d < 10
    ensures (v * 10 + d) / 10 == v && (v * 10 + d) % 10 == d
  {
  }

  // ---------------------------------------------------------------- ordering

  /** JavaScript's `a < b` on strings: lexicographic by character code. */
  predicate StrLess(a: string, b: string) {
    if b == [] then false
    else if a == [] then true
    else if a[0] != b[0] then a[0] < b[0]
    else StrLess(a[1..], b[1..])
  }

  /** Comparing two concatenations whose first parts have equal length. */
  lemma {:induction false} StrLessConcat(a1: string, b1: string, a2: string, b2: string)
    requires |a1| == |a2|
    ensures StrLess(a1 + b1, a2 + b2) <==> StrLess(a1, a2) || (a1 == a2 && StrLess(b1, b2))
  {
    if a1 == [] {
      assert a1 + b1 == b1 && a2 + b2 == b2;
    } else {
      assert (a1 + b1)[0] == a1[0] && (a2 + b2)[0] == a2[0];
      assert (a1 + b1)[1..] == a1[1..] + b1 && (a2 + b2)[1..] == a2[1..] + b2;
      StrLessConcat(a1[1..], b1, a2[1..], b2);
      if a1[0] == a2[0] {
        assert a1 == a2 <==> a1[1..] == a2[1..] by {
          if a1[1..] == a2[1..] { assert a1 == [a1[0]] + a1[1..] && a2 == [a2[0]] + a2[1..]; }
        }
      }
    }
  }

  /** Equal-width padded numerals compare as their numbers do. */
  lemma {:induction false} StrLessPad(x: nat, y: nat, width: nat)
    requires x < Pow10(width) && y < Pow10(width)
    ensures StrLess(Pad(x, width), Pad(y, width)) <==> x < y
    ensures Pad(x, width) == Pad(y, width) <==> x == y
  {
    if width == 0 {
    } else {
      StrLessPad(x / 10, y / 10, width - 1);
      StrLessConcat(Pad(x / 10, width - 1), [DigitChar(x % 10)], Pad(y / 10, width - 1), [DigitChar(y % 10)]);
      assert StrLess([DigitChar(x % 10)], [DigitChar(y % 10)]) <==> x % 10 < y % 10;
      if Pad(x, width) == Pad(y, width) {
        assert Pad(x, width)[width - 1] == DigitChar(x % 10);
        assert Pad(x, width)[..width - 1] == Pad(x / 10, width - 1);
        assert Pad(y, width)[..width - 1] == Pad(y / 10, width - 1);
      }
    }
  }
}
