/** The string operations of JavaScript that the site relies on, on
    `seq<char>`: `trim`, `startsWith` (the prefix operator `<=`), `split`
    on one separator character, ASCII upper-casing and decimal rendering of
    a natural number (template-literal interpolation of an index). */
module Text {

  /** The characters `String.prototype.trim` removes: the ECMAScript
      WhiteSpace and LineTerminator code points (tab, line feed, vertical
      tab, form feed, carriage return, space, no-break space, the Unicode
      space separators, line and paragraph separators, and the byte order
      mark). */
  predicate IsWhitespace(c: char) {
    || '\t' <= c <= '\r'
    || c == ' ' || c == '\U{00A0}' || c == '\U{1680}'
    || '\U{2000}' <= c <= '\U{200A}'
    || c == '\U{2028}' || c == '\U{2029}' || c == '\U{202F}' || c == '\U{205F}'
    || c == '\U{3000}' || c == '\U{FEFF}'
  }

  /** A string made of whitespace only (the empty string included). */
  predicate IsBlank(s: string) {
    forall i :: 0 <= i < |s| ==> IsWhitespace(s[i])
  }

  predicate IsDigit(c: char) {
    '0' <= c <= '9'
  }

  predicate AllDigits(s: string) {
    forall i :: 0 <= i < |s| ==> IsDigit(s[i])
  }

  // ---------------------------------------------------------------------
  // trim

  /** The number of whitespace characters `s` starts with. */
  function LeadingBlanks(s: string): (n: nat)
    ensures n <= |s|
    ensures forall k :: 0 <= k < n ==> IsWhitespace(s[k])
    ensures n < |s| ==> !IsWhitespace(s[n])
    decreases |s|
  {
    if |s| > 0 && IsWhitespace(s[0]) then
      var m := LeadingBlanks(s[1..]);
      assert forall k :: 1 <= k < m + 1 ==> s[k] == s[1..][k - 1];
      m + 1
    else 0
  }

  /** The number of whitespace characters `s` ends with. */
  function TrailingBlanks(s: string): (n: nat)
    ensures n <= |s|
    ensures forall k :: |s| - n <= k < |s| ==> IsWhitespace(s[k])
    ensures n < |s| ==> !IsWhitespace(s[|s| - n - 1])
    decreases |s|
  {
    if |s| > 0 && IsWhitespace(s[|s| - 1]) then
      var init := s[..|s| - 1];
      var m := TrailingBlanks(init);
      assert forall k :: |init| - m <= k < |init| ==> s[k] == init[k];
      m + 1
    else 0
  }

  /** Drops the leading whitespace. */
  function TrimStart(s: string): (r: string)
    ensures r == "" <==> IsBlank(s)
    ensures r != "" ==> !IsWhitespace(r[0])
    ensures |r| <= |s| && r == s[|s| - |r|..]
  {
    s[LeadingBlanks(s)..]
  }

  /** Drops the trailing whitespace. */
  function TrimEnd(s: string): (r: string)
    ensures r == "" <==> IsBlank(s)
    ensures |r| <= |s| && r == s[..|r|]
  {
    var n := TrailingBlanks(s);
    assert n < |s| ==> s[..|s| - n][|s| - n - 1] == s[|s| - n - 1];
    s[..|s| - n]
  }

  /** `s.trim()`: the result is empty exactly when `s` is blank. */
  function Trim(s: string): (r: string)
    ensures r == "" <==> IsBlank(s)
  {
    var t := TrimStart(s);
    assert t != "" ==> !IsBlank(t) by {
      if t != "" { assert !IsWhitespace(t[0]); }
    }
    TrimEnd(t)
  }

  // ---------------------------------------------------------------------
  // split / join

  /** Position of the first occurrence of `c` in `s`. */
  function IndexOf(s: string, c: char): (i: nat)
    requires c in s
    ensures i < |s| && s[i] == c
    ensures c !in s[..i]
  {
    if s[0] == c then 0
    else
      var i := IndexOf(s[1..], c);
      assert s[..i + 1] == [s[0]] + s[1..][..i];
      i + 1
  }

  /** `s.split(sep)` for a one-character separator: the maximal pieces of
      `s` between occurrences of `sep`, in order. There is always at least
      one piece. */
  function Split(s: string, sep: char): (parts: seq<string>)
    ensures |parts| >= 1
    decreases |s|
  {
    if sep in s then
      var i := IndexOf(s, sep);
      [s[..i]] + Split(s[i + 1..], sep)
    else
      [s]
  }

  /** `parts.join(sep)`. */
  function Join(parts: seq<string>, sep: char): string
    requires |parts| >= 1
  {
    if |parts| == 1 then parts[0] else parts[0] + [sep] + Join(parts[1..], sep)
  }

  /** No piece of a split contains the separator. */
  lemma {:induction false} SplitSeparatorFree(s: string, sep: char)
    ensures forall k :: 0 <= k < |Split(s, sep)| ==> sep !in Split(s, sep)[k]
    decreases |s|
  {
    if sep in s {
      SplitStep(s, sep);
      SplitSeparatorFree(s[IndexOf(s, sep) + 1..], sep);
    }
  }

  /** Joining the pieces back with the separator gives the original string. */
  lemma {:induction false} JoinSplit(s: string, sep: char)
    ensures Join(Split(s, sep), sep) == s
    decreases |s|
  {
    if sep in s {
      var i := IndexOf(s, sep);
      SplitStep(s, sep);
      JoinSplit(s[i + 1..], sep);
      var parts := Split(s, sep);
      assert parts[1..] == Split(s[i + 1..], sep);
      assert s == s[..i] + [sep] + s[i + 1..];
    }
  }

  /** Splitting a join of separator-free pieces gives back the pieces. */
  lemma {:induction false} SplitJoin(parts: seq<string>, sep: char)
    requires |parts| >= 1
    requires forall k :: 0 <= k < |parts| ==> sep !in parts[k]
    ensures Split(Join(parts, sep), sep) == parts
  {
    if |parts| > 1 {
      var p := parts[0];
      var tail := Join(parts[1..], sep);
      var s := p + [sep] + tail;
      assert Join(parts, sep) == s;
      assert s[|p|] == sep && s[..|p|] == p;
      var i := IndexOf(s, sep);
      // the first separator of `s` is the one after `p`
      assert forall j :: 0 <= j < |p| ==> s[j] == p[j];
      assert forall j :: 0 <= j < i ==> s[..i][j] == s[j];
      assert i == |p|;
      assert s[i + 1..] == tail;
      SplitStep(s, sep);
      SplitJoin(parts[1..], sep);
      ConsTail(parts);
    }
  }

  /** The first piece of a split is the text before the first separator, or
      the whole string when there is none. */
  lemma SplitHead(s: string, sep: char)
    ensures sep in s ==> Split(s, sep)[0] == s[..IndexOf(s, sep)]
    ensures sep !in s ==> Split(s, sep) == [s]
  {
  }

  /** A string has at least two pieces exactly when it holds the separator. */
  lemma SplitCount(s: string, sep: char)
    ensures |Split(s, sep)| >= 2 <==> sep in s
  {
  }

  /** One unfolding of `Split` at its first separator. */
  lemma SplitStep(s: string, sep: char)
    requires sep in s
    ensures Split(s, sep) == [s[..IndexOf(s, sep)]] + Split(s[IndexOf(s, sep) + 1..], sep)
  {
  }

  lemma LastOfCons<T>(x: T, r: seq<T>, a: seq<T>)
    requires |r| >= 1 && a == [x] + r
    ensures a[|a| - 1] == r[|r| - 1]
  {
  }

  /** A suffix of `s[d..]` is a suffix of `s`. */
  lemma SuffixOfDrop<T>(s: seq<T>, d: nat, n: nat)
    requires d <= |s| && n <= |s[d..]|
    ensures s[d..][|s[d..]| - n..] == s[|s| - n..]
  {
  }

  lemma ConsTail<T>(a: seq<T>)
    requires |a| >= 1
    ensures a == [a[0]] + a[1..]
  {
  }

  /** The number of characters other than `sep` that `s` ends with. */
  function TrailingFree(s: string, sep: char): (n: nat)
    ensures n <= |s|
    ensures forall k :: |s| - n <= k < |s| ==> s[k] != sep
    ensures n < |s| ==> s[|s| - n - 1] == sep
    decreases |s|
  {
    if |s| > 0 && s[|s| - 1] != sep then
      var init := s[..|s| - 1];
      var m := TrailingFree(init, sep);
      assert forall k :: |init| - m <= k < |init| ==> s[k] == init[k];
      m + 1
    else 0
  }

  /** The three properties of `TrailingFree` determine it. */
  lemma TrailingFreeUnique(s: string, sep: char, m: nat)
    requires m <= |s|
    requires forall k :: |s| - m <= k < |s| ==> s[k] != sep
    requires m < |s| ==> s[|s| - m - 1] == sep
    ensures m == TrailingFree(s, sep)
  {
  }

  /** The text after the last `sep` in `s`, or all of `s` when it holds
      none. */
  function LastPiece(s: string, sep: char): string {
    s[|s| - TrailingFree(s, sep)..]
  }

  /** The last piece is a separator-free suffix, preceded by the separator
      whenever it is shorter than `s`. */
  lemma LastPieceShape(s: string, sep: char)
    ensures |LastPiece(s, sep)| <= |s|
    ensures LastPiece(s, sep) == s[|s| - |LastPiece(s, sep)|..]
    ensures forall k :: 0 <= k < |LastPiece(s, sep)| ==> LastPiece(s, sep)[k] != sep
    ensures |LastPiece(s, sep)| < |s| ==> s[|s| - |LastPiece(s, sep)| - 1] == sep
  {
    var n := TrailingFree(s, sep);
    assert forall k :: 0 <= k < n ==> LastPiece(s, sep)[k] == s[|s| - n + k];
  }

  /** The last piece holds no separator. */
  lemma LastPieceFree(s: string, sep: char)
    ensures sep !in LastPiece(s, sep)
  {
    LastPieceShape(s, sep);
  }

  /** The last piece is shorter than `s` exactly when `s` holds a
      separator. */
  lemma LastPieceBounds(s: string, sep: char)
    ensures sep in s <==> |LastPiece(s, sep)| < |s|
  {
    LastPieceShape(s, sep);
    LastPieceFree(s, sep);
    var r := LastPiece(s, sep);
    if |r| < |s| {
      assert s[|s| - |r| - 1] in s;
    } else {
      assert r == s;
    }
  }

  /** Only the text after a separator decides the last piece. */
  lemma LastPieceAfter(s: string, sep: char, i: nat)
    requires i < |s| && s[i] == sep
    ensures LastPiece(s, sep) == LastPiece(s[i + 1..], sep)
  {
    var rest := s[i + 1..];
    var m := TrailingFree(rest, sep);
    // `m` has the defining properties of the count for `s` too
    assert forall k :: |s| - m <= k < |s| ==> s[k] == rest[k - i - 1];
    assert m < |rest| ==> s[|s| - m - 1] == rest[|rest| - m - 1];
    TrailingFreeUnique(s, sep, m);
    SuffixOfDrop(s, i + 1, m);
  }

  /** Without a separator, the split is the whole string. */
  lemma SplitWhole(s: string, sep: char)
    requires sep !in s
    ensures Split(s, sep) == [s]
  {
  }

  /** The last piece of a split is that of the text after the first
      separator. */
  lemma SplitLastStep(s: string, sep: char, rest: string)
    requires sep in s && rest == s[IndexOf(s, sep) + 1..]
    ensures var parts, restParts := Split(s, sep), Split(rest, sep);
      parts[|parts| - 1] == restParts[|restParts| - 1]
  {
    SplitStep(s, sep);
    LastOfCons(s[..IndexOf(s, sep)], Split(rest, sep), Split(s, sep));
  }

  /** `split(sep).pop()` is the last piece. */
  lemma {:induction false} SplitLast(s: string, sep: char)
    ensures var parts := Split(s, sep); parts[|parts| - 1] == LastPiece(s, sep)
    decreases |s|
  {
    if sep in s {
      var i := IndexOf(s, sep);
      var rest := s[i + 1..];
      SplitLastStep(s, sep, rest);
      SplitLast(rest, sep);
      LastPieceAfter(s, sep, i);
    } else {
      LastPieceShape(s, sep);
      LastPieceBounds(s, sep);
      SplitWhole(s, sep);
    }
  }

  // ---------------------------------------------------------------------
  // upper case

  /** `toUpperCase` restricted to ASCII letters; every other character is
      kept. */
  function UpperChar(c: char): char {
    if 'a' <= c <= 'z' then (c as int - 32) as char else c
  }

  function Upper(s: string): (r: string)
    ensures |r| == |s|
    ensures forall i :: 0 <= i < |s| ==> r[i] == UpperChar(s[i])
  {
    seq(|s|, i requires 0 <= i < |s| => UpperChar(s[i]))
  }

  // ---------------------------------------------------------------------
  // decimal rendering

  function DigitChar(d: nat): (c: char)
    requires d < 10
    ensures IsDigit(c) && DigitValue(c) == d
  {
    ('0' as int + d) as char
  }

  /** The number a digit character stands for. */
  function DigitValue(c: char): nat
    requires IsDigit(c)
  {
    c as int - '0' as int
  }

  /** The number a digit string denotes, read most significant digit
      first; the empty string denotes 0. */
  function Value(s: string): nat
    requires AllDigits(s)
  {
    if |s| == 0 then 0 else Value(s[..|s| - 1]) * 10 + DigitValue(s[|s| - 1])
  }

  /** The decimal text of `n`, as `${n}` renders a non-negative integer:
      digits denoting `n`, without a leading zero. */
  function Decimal(n: nat): (r: string)
    ensures |r| >= 1 && AllDigits(r)
    ensures Value(r) == n
    ensures |r| > 1 ==> r[0] != '0'
  {
    if n < 10 then [DigitChar(n)]
    else
      var init := Decimal(n / 10);
      var r := init + [DigitChar(n % 10)];
      assert r[..|r| - 1] == init;
      r
  }

  /** Distinct numbers render as distinct texts: the text's value gives the
      number back. */
  lemma DecimalInjective(a: nat, b: nat)
    requires Decimal(a) == Decimal(b)
    ensures a == b
  {
    assert a == Value(Decimal(a)) == Value(Decimal(b)) == b;
  }
}
