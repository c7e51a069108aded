/**
 * The JavaScript string operations the application relies on, over strings
 * as sequences of Unicode code points (Dafny's `char`), where JavaScript
 * uses UTF-16 code units: `split` with a one-character separator followed
 * by `pop`, `toLowerCase` (on ASCII letters), `endsWith`, `trim`, and
 * `localeCompare` (as code-point lexicographic order).
 */
module JsStrings {

  // ---------------------------------------------------------------- split

  /** Glues `parts` back together with `sep` between consecutive parts. */
  function Join(parts: seq<string>, sep: char): string
    requires |parts| >= 1
  {
    if |parts| == 1 then parts[0] else parts[0] + [sep] + Join(parts[1..], sep)
  }

  /**
   * `s.split(sep)`: the pieces of `s` between occurrences of `sep`. There is
   * always at least one piece; no piece contains `sep`; and joining the
   * pieces with `sep` gives back `s`.
   */
  function Split(s: string, sep: char): (parts: seq<string>)
    ensures |parts| >= 1
    ensures forall i :: 0 <= i < |parts| ==> sep !in parts[i]
    ensures Join(parts, sep) == s
    decreases |s|
  {
    if |s| == 0 then [""]
    else
      var rest := Split(s[1..], sep);
      if s[0] == sep then
        assert ([""] + rest)[1..] == rest;
        assert s == [s[0]] + s[1..];
        [""] + rest
      else
        var parts := [[s[0]] + rest[0]] + rest[1..];
        assert parts[1..] == rest[1..];
        assert s == [s[0]] + s[1..];
        parts
  }

  /** Number of occurrences of `c` in `s`. */
  function Count(s: string, c: char): nat
  {
    if |s| == 0 then 0 else (if s[0] == c then 1 else 0) + Count(s[1..], c)
  }

  /** `s.split(sep).length` is one more than the number of separators. */
  lemma {:induction false} SplitLength(s: string, sep: char)
    ensures |Split(s, sep)| == Count(s, sep) + 1
    decreases |s|
  {
    if |s| > 0 {
      SplitLength(s[1..], sep);
    }
  }

  /** Splitting a separator-free string yields that string alone. */
  lemma {:induction false} SplitNoSeparator(a: string, sep: char)
    requires sep !in a
    ensures Split(a, sep) == [a]
    decreases |a|
  {
    if |a| > 0 {
      SplitNoSeparator(a[1..], sep);
      assert [a[0]] + a[1..] == a;
    }
  }

  /** Splitting `a + [sep] + b` with a separator-free `a` peels off `a`. */
  lemma {:induction false} SplitAfterFirst(a: string, b: string, sep: char)
    requires sep !in a
    ensures Split(a + [sep] + b, sep) == [a] + Split(b, sep)
    decreases |a|
  {
    var s := a + [sep] + b;
    if |a| == 0 {
      assert s[1..] == b;
    } else {
      assert s[1..] == a[1..] + [sep] + b;
      SplitAfterFirst(a[1..], b, sep);
      assert [a[0]] + a[1..] == a;
    }
  }

  /** The other round trip: separator-free parts survive `Join` then `Split`. */
  lemma {:induction false} SplitJoin(parts: seq<string>, sep: char)
    requires |parts| >= 1
    requires forall i :: 0 <= i < |parts| ==> sep !in parts[i]
    ensures Split(Join(parts, sep), sep) == parts
    decreases |parts|
  {
    if |parts| == 1 {
      SplitNoSeparator(parts[0], sep);
    } else {
      SplitJoin(parts[1..], sep);
      SplitAfterFirst(parts[0], Join(parts[1..], sep), sep);
      assert [parts[0]] + parts[1..] == parts;
    }
  }

  /** Joining splits off the last part in front of the final separator. */
  lemma {:induction false} JoinLast(parts: seq<string>, sep: char)
    requires |parts| >= 2
    ensures Join(parts, sep) == Join(parts[..|parts| - 1], sep) + [sep] + parts[|parts| - 1]
    decreases |parts|
  {
    if |parts| > 2 {
      JoinLast(parts[1..], sep);
      assert parts[1..][..|parts| - 2] == parts[..|parts| - 1][1..];
    }
  }

  // ---------------------------------------------------------------- pop

  /**
   * `r` is the text of `s` after its last `sep`: a suffix of `s` free of
   * `sep` that is either all of `s` or preceded by a `sep`.
   */
  predicate TailAfterLast(s: string, sep: char, r: string)
  {
    && |r| <= |s|
    && r == s[|s| - |r|..]
    && sep !in r
    && (|r| == |s| || s[|s| - |r| - 1] == sep)
  }

  /** There is only one text after the last separator. */
  lemma TailAfterLastUnique(s: string, sep: char, r1: string, r2: string)
    requires TailAfterLast(s, sep, r1) && TailAfterLast(s, sep, r2)
    ensures r1 == r2
  {
  }

  /** `s.split(sep).pop()`: the text after the last `sep`, or all of `s`. */
  function LastSegment(s: string, sep: char): (r: string)
    ensures TailAfterLast(s, sep, r)
  {
    var parts := Split(s, sep);
    if |parts| == 1 then
      parts[0]
    else
      JoinLast(parts, sep);
      parts[|parts| - 1]
  }

  /** Any candidate with the defining property is the last segment. */
  lemma LastSegmentIs(s: string, sep: char, r: string)
    requires TailAfterLast(s, sep, r)
    ensures LastSegment(s, sep) == r
  {
    TailAfterLastUnique(s, sep, LastSegment(s, sep), r);
  }

  // ---------------------------------------------------------------- toLowerCase

  /** Lower-cases an ASCII letter; every other character is kept. */
  function ToLower(c: char): char
  {
    if 'A' <= c <= 'Z' then (c as int + 32) as char else c
  }

  /** `s.toLowerCase()`, restricted to ASCII letters. */
  function Lower(s: string): string
  {
    seq(|s|, i requires 0 <= i < |s| => ToLower(s[i]))
  }

  predicate IsAsciiLetter(c: char)
  {
    'A' <= c <= 'Z' || 'a' <= c <= 'z'
  }

  /** Lower-casing keeps the text after the last non-letter separator in place. */
  lemma LowerLastSegment(s: string, sep: char)
    requires !IsAsciiLetter(sep)
    ensures LastSegment(Lower(s), sep) == Lower(LastSegment(s, sep))
  {
    var r := LastSegment(s, sep);
    var lr, ls := Lower(r), Lower(s);
    assert forall i :: 0 <= i < |lr| ==> lr[i] == ls[|ls| - |lr| + i];
    assert lr == ls[|ls| - |lr|..];
    assert forall i :: 0 <= i < |lr| ==> lr[i] != sep;
    LastSegmentIs(ls, sep, lr);
  }

  // ---------------------------------------------------------------- endsWith

  /** `s.endsWith(suffix)`. */
  predicate EndsWith(s: string, suffix: string)
  {
    |suffix| <= |s| && s[|s| - |suffix|..] == suffix
  }

  // ---------------------------------------------------------------- trim

  /** The characters `String.prototype.trim` removes: white space and line terminators. */
  predicate IsWhiteSpace(c: char)
  {
    || c == '\t' || c == '\n' || c == '\U{B}' || c == '\U{C}' || c == '\r'
    || c == ' ' || c == '\U{A0}' || c == '\U{1680}'
    || ('\U{2000}' <= c <= '\U{200A}')
    || c == '\U{2028}' || c == '\U{2029}' || c == '\U{202F}' || c == '\U{205F}'
    || c == '\U{3000}' || c == '\U{FEFF}'
  }

  function TrimStart(s: string): string
  {
    if |s| > 0 && IsWhiteSpace(s[0]) then TrimStart(s[1..]) else s
  }

  function TrimEnd(s: string): string
  {
    if |s| > 0 && IsWhiteSpace(s[|s| - 1]) then TrimEnd(s[..|s| - 1]) else s
  }

  /** `s.trim()`. */
  function Trim(s: string): string
  {
    TrimEnd(TrimStart(s))
  }

  /** Every character of `s` is white space. */
  predicate IsBlank(s: string)
  {
    forall i :: 0 <= i < |s| ==> IsWhiteSpace(s[i])
  }

  lemma {:induction false} TrimStartEmpty(s: string)
    ensures TrimStart(s) == "" <==> IsBlank(s)
    decreases |s|
  {
    if |s| > 0 && IsWhiteSpace(s[0]) {
      TrimStartEmpty(s[1..]);
      assert forall i :: 1 <= i < |s| ==> s[i] == s[1..][i - 1];
    }
  }

  lemma {:induction false} TrimEndOfNonBlankStart(s: string)
    requires |s| > 0 && !IsWhiteSpace(s[0])
    ensures TrimEnd(s) != ""
    decreases |s|
  {
    if IsWhiteSpace(s[|s| - 1]) {
      TrimEndOfNonBlankStart(s[..|s| - 1]);
    }
  }

  /** `s.trim()` is empty exactly when `s` consists of white space only. */
  lemma TrimEmptyIffBlank(s: string)
    ensures Trim(s) == "" <==> IsBlank(s)
  {
    TrimStartEmpty(s);
    var t := TrimStart(s);
    if t != "" {
      TrimStartNonBlank(s);
      TrimEndOfNonBlankStart(t);
    }
  }

  lemma {:induction false} TrimStartNonBlank(s: string)
    requires TrimStart(s) != ""
    ensures !IsWhiteSpace(TrimStart(s)[0])
    decreases |s|
  {
    if |s| > 0 && IsWhiteSpace(s[0]) {
      TrimStartNonBlank(s[1..]);
    }
  }

  // ---------------------------------------------------------------- localeCompare

  /** Lexicographic order on code points: the order `localeCompare` is modelled by. */
  predicate CodePointLess(a: string, b: string)
    decreases |a|
  {
    if |a| == 0 then |b| > 0
    else if |b| == 0 then false
    else if a[0] != b[0] then a[0] < b[0]
    else CodePointLess(a[1..], b[1..])
  }

  /** `a.localeCompare(b)`: negative, zero or positive as `a` sorts before, with or after `b`. */
  function LocaleCompare(a: string, b: string): int
  {
    if a == b then 0 else if CodePointLess(a, b) then -1 else 1
  }

  lemma {:induction false} CodePointLessIrreflexive(a: string)
    ensures !CodePointLess(a, a)
    decreases |a|
  {
    if |a| > 0 {
      CodePointLessIrreflexive(a[1..]);
    }
  }

  lemma {:induction false} CodePointLessTransitive(a: string, b: string, c: string)
    requires CodePointLess(a, b) && CodePointLess(b, c)
    ensures CodePointLess(a, c)
    decreases |a|
  {
    if |a| > 0 && |b| > 0 && |c| > 0 && a[0] == b[0] == c[0] {
      CodePointLessTransitive(a[1..], b[1..], c[1..]);
    }
  }

  lemma {:induction false} CodePointLessTotal(a: string, b: string)
    requires a != b
    ensures CodePointLess(a, b) || CodePointLess(b, a)
    decreases |a|
  {
    if |a| > 0 && |b| > 0 && a[0] == b[0] {
      assert a == [a[0]] + a[1..] && b == [b[0]] + b[1..];
      CodePointLessTotal(a[1..], b[1..]);
    }
  }

  /** The code-point order is a strict order: never both ways. */
  lemma CodePointLessAsymmetric(a: string, b: string)
    ensures !(CodePointLess(a, b) && CodePointLess(b, a))
  {
    if CodePointLess(a, b) && CodePointLess(b, a) {
      CodePointLessTransitive(a, b, a);
      CodePointLessIrreflexive(a);
    }
  }

  /** `localeCompare` as modelled is antisymmetric and zero only on equal strings. */
  lemma LocaleCompareConsistent(a: string, b: string)
    ensures (LocaleCompare(a, b) == 0) <==> (a == b)
    ensures (LocaleCompare(a, b) < 0) <==> (LocaleCompare(b, a) > 0)
    ensures (LocaleCompare(a, b) < 0) <==> CodePointLess(a, b)
  {
    CodePointLessAsymmetric(a, b);
    if a != b {
      CodePointLessTotal(a, b);
    }
  }
}
