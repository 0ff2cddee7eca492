/** The handful of JavaScript string operations the chat client relies on:
    `String.prototype.split` with a one-character separator, joining the
    pieces back, concatenation of a list of strings, and `trim`. */
module Strings {

  /** The position of the first `sep` in `s`. */
  function FirstIndex(s: string, sep: char): (i: nat)
    requires sep in s
    ensures i < |s| && s[i] == sep && sep !in s[..i]
    decreases |s|
  {
    if s[0] == sep then 0
    else
      assert sep in s[1..] by { assert s == [s[0]] + s[1..]; }
      var j := FirstIndex(s[1..], sep);
      assert s[..j + 1] == [s[0]] + s[1..][..j];
      j + 1
  }

  /** `s.split(sep)` for a one-character separator: the maximal separator-free
      pieces of `s`, in order. Like JavaScript it keeps empty pieces (two
      separators in a row, or one at either end) and always returns at least
      one piece. */
  function Split(s: string, sep: char): (parts: seq<string>)
    ensures |parts| >= 1
    decreases |s|
  {
    if sep !in s then [s]
    else
      var i := FirstIndex(s, sep);
      [s[..i]] + Split(s[i + 1..], sep)
  }

  /** `s.startsWith(prefix)`. */
  predicate StartsWith(s: string, prefix: string) {
    |prefix| <= |s| && s[..|prefix|] == prefix
  }

  /** `parts.join(sep)`. */
  function Join(parts: seq<string>, sep: char): string
    decreases |parts|
  {
    if |parts| == 0 then ""
    else if |parts| == 1 then parts[0]
    else parts[0] + [sep] + Join(parts[1..], sep)
  }

  /** The strings of `ss` written one after the other. */
  function Concat(ss: seq<string>): string
    decreases |ss|
  {
    if |ss| == 0 then "" else Concat(ss[..|ss| - 1]) + ss[|ss| - 1]
  }

  lemma {:induction false} ConcatAppend(a: seq<string>, b: seq<string>)
    ensures Concat(a + b) == Concat(a) + Concat(b)
    decreases |b|
  {
    if |b| == 0 {
      assert a + b == a;
    } else {
      var b' := b[..|b| - 1];
      assert (a + b)[..|a + b| - 1] == a + b';
      assert (a + b)[|a + b| - 1] == b[|b| - 1];
      ConcatAppend(a, b');
      AppendAssoc(Concat(a), Concat(b'), b[|b| - 1]);
    }
  }

  /** No piece of a split holds the separator. */
  lemma {:induction false} SplitPiecesLackSep(s: string, sep: char)
    ensures forall i :: 0 <= i < |Split(s, sep)| ==> sep !in Split(s, sep)[i]
    decreases |s|
  {
    if sep in s {
      var i := FirstIndex(s, sep);
      SplitPiecesLackSep(s[i + 1..], sep);
    }
  }

  /** Joining the pieces of a split gives the string back. */
  lemma {:induction false} JoinSplit(s: string, sep: char)
    ensures Join(Split(s, sep), sep) == s
    decreases |s|
  {
    if sep in s {
      var i := FirstIndex(s, sep);
      var rest := Split(s[i + 1..], sep);
      var parts := [s[..i]] + rest;
      JoinSplit(s[i + 1..], sep);
      assert Split(s, sep) == parts;
      assert parts[0] == s[..i] && parts[1..] == rest;
      assert Join(parts, sep) == s[..i] + [sep] + Join(rest, sep);
      assert s == s[..i] + [sep] + s[i + 1..];
    }
  }

  /** A string without the separator splits into itself. */
  lemma SplitWithoutSep(s: string, sep: char)
    requires sep !in s
    ensures Split(s, sep) == [s]
  {
  }

  /** The first separator of `p + [sep] + q`, for a separator-free `p`, is
      the one after `p`. */
  lemma FirstIndexAfter(p: string, q: string, sep: char)
    requires sep !in p
    ensures sep in p + [sep] + q
    ensures FirstIndex(p + [sep] + q, sep) == |p|
  {
    var s := p + [sep] + q;
    assert s[|p|] == sep;
    assert s[..|p|] == p;
  }

  /** Splitting is the inverse of joining separator-free pieces. */
  lemma {:induction false} SplitJoin(parts: seq<string>, sep: char)
    requires |parts| >= 1
    requires forall i :: 0 <= i < |parts| ==> sep !in parts[i]
    ensures Split(Join(parts, sep), sep) == parts
    decreases |parts|
  {
    if |parts| > 1 {
      var p, q := parts[0], Join(parts[1..], sep);
      var s := p + [sep] + q;
      SplitJoin(parts[1..], sep);
      FirstIndexAfter(p, q, sep);
      assert s[..|p|] == p;
      assert s[|p| + 1..] == q;
      assert parts == [p] + parts[1..];
    }
  }

  /** Appending to the last piece appends to the joined string. */
  lemma {:induction false} JoinExtendLast(parts: seq<string>, y: string, sep: char)
    requires |parts| >= 1
    ensures Join(parts[..|parts| - 1] + [parts[|parts| - 1] + y], sep) == Join(parts, sep) + y
    decreases |parts|
  {
    var n := |parts|;
    var ext := parts[..n - 1] + [parts[n - 1] + y];
    if n > 1 {
      JoinExtendLast(parts[1..], y, sep);
      assert ext[0] == parts[0];
      assert ext[1..] == parts[1..][..n - 2] + [parts[1..][n - 2] + y];
    }
  }

  /** Joining the pieces `t` into one last piece, or keeping them apart,
      gives the same string. */
  lemma {:induction false} JoinSplice(init: seq<string>, t: seq<string>, sep: char)
    requires |t| >= 1
    ensures Join(init + [Join(t, sep)], sep) == Join(init + t, sep)
    decreases |init|
  {
    if |init| == 0 {
      assert init + [Join(t, sep)] == [Join(t, sep)];
      assert init + t == t;
    } else {
      JoinSplice(init[1..], t, sep);
      assert (init + [Join(t, sep)])[1..] == init[1..] + [Join(t, sep)];
      assert (init + t)[1..] == init[1..] + t;
    }
  }

  /** Pieces free of the separator stay free of it when put together. */
  lemma PiecesLackSepAppend(a: seq<string>, b: seq<string>, sep: char)
    requires forall i :: 0 <= i < |a| ==> sep !in a[i]
    requires forall i :: 0 <= i < |b| ==> sep !in b[i]
    ensures forall i :: 0 <= i < |a + b| ==> sep !in (a + b)[i]
  {
  }

  /** Splitting `x + y` keeps every complete piece of `x` and re-splits its
      unfinished last piece together with `y`. */
  lemma SplitAppend(x: string, y: string, sep: char)
    ensures var px := Split(x, sep);
            Split(x + y, sep) == px[..|px| - 1] + Split(px[|px| - 1] + y, sep)
  {
    var px := Split(x, sep);
    var n := |px|;
    var init, last := px[..n - 1], px[n - 1] + y;
    var t := Split(last, sep);
    assert Join(init + t, sep) == x + y by {
      JoinSplit(x, sep);
      JoinSplit(last, sep);
      JoinExtendLast(px, y, sep);
      JoinSplice(init, t, sep);
    }
    SplitPiecesLackSep(x, sep);
    SplitPiecesLackSep(last, sep);
    PiecesLackSepAppend(init, t, sep);
    SplitJoin(init + t, sep);
  }

  lemma AppendAssoc(a: string, b: string, c: string)
    ensures (a + b) + c == a + (b + c)
  {
  }

  /** A non-empty sequence is its front followed by its last element. */
  lemma InitLast<T>(xs: seq<T>)
    requires |xs| >= 1
    ensures xs[..|xs| - 1] + [xs[|xs| - 1]] == xs
  {
  }

  /** A sequence is what lies before position `i`, the element there, and
      what lies after it. */
  lemma Around<T>(xs: seq<T>, i: nat)
    requires i < |xs|
    ensures xs == xs[..i] + [xs[i]] + xs[i + 1..]
  {
  }

  /** The characters `String.prototype.trim` removes: ECMAScript WhiteSpace
      (tab, vertical tab, form feed, space, no-break space, byte order mark and
      every Unicode space separator) and LineTerminator (line feed, carriage
      return, line separator, paragraph separator). */
  predicate IsWhitespace(c: char) {
    || c == '\t' || c == '\n' || c == '\U{000B}' || c == '\U{000C}' || c == '\r'
    || c == ' ' || c == '\U{00A0}' || c == '\U{1680}'
    || ('\U{2000}' <= c <= '\U{200A}')
    || c == '\U{2028}' || c == '\U{2029}' || c == '\U{202F}' || c == '\U{205F}'
    || c == '\U{3000}' || c == '\U{FEFF}'
  }

  predicate AllWhitespace(s: string) {
    forall i :: 0 <= i < |s| ==> IsWhitespace(s[i])
  }

  /** Every character of `s` outside the range `[i, j)` is whitespace. */
  predicate WhitespaceOutside(s: string, i: nat, j: nat) {
    forall k :: 0 <= k < |s| && !(i <= k < j) ==> IsWhitespace(s[k])
  }

  /** `s` with its leading whitespace removed. */
  function TrimStart(s: string): (r: string)
    ensures |r| <= |s| && r == s[|s| - |r|..]
    ensures forall k :: 0 <= k < |s| - |r| ==> IsWhitespace(s[k])
    ensures r == "" || !IsWhitespace(r[0])
    decreases |s|
  {
    if |s| > 0 && IsWhitespace(s[0]) then TrimStart(s[1..]) else s
  }

  /** `s` with its trailing whitespace removed. */
  function TrimEnd(s: string): (r: string)
    ensures |r| <= |s| && r == s[..|r|]
    ensures forall k :: |r| <= k < |s| ==> IsWhitespace(s[k])
    ensures r == "" || !IsWhitespace(r[|r| - 1])
    decreases |s|
  {
    if |s| > 0 && IsWhitespace(s[|s| - 1]) then TrimEnd(s[..|s| - 1]) else s
  }

  /** `s.trim()`: the part of `s` between its leading and trailing whitespace. */
  function Trim(s: string): string {
    TrimEnd(TrimStart(s))
  }

  /** Trimming keeps a substring of `s` that neither starts nor ends with
      whitespace and has only whitespace around it. */
  lemma TrimSpec(s: string)
    ensures Trim(s) != "" ==> !IsWhitespace(Trim(s)[0]) && !IsWhitespace(Trim(s)[|Trim(s)| - 1])
    ensures exists i, j :: 0 <= i <= j <= |s| && Trim(s) == s[i..j] && WhitespaceOutside(s, i, j)
  {
    var t := TrimStart(s);
    assert |Trim(s)| > 0 ==> Trim(s)[0] == t[0];
    var i, j := TrimBounds(s);
  }

  /** Where the trimmed text lies in `s`. */
  lemma TrimBounds(s: string) returns (i: nat, j: nat)
    ensures i <= j <= |s| && Trim(s) == s[i..j]
    ensures WhitespaceOutside(s, i, j)
  {
    var t := TrimStart(s);
    var r := TrimEnd(t);
    i, j := |s| - |t|, |s| - |t| + |r|;
    SliceOfSuffix(s, i, |r|);
    forall k | 0 <= k < |s| && !(i <= k < j)
      ensures IsWhitespace(s[k])
    {
      if k >= j {
        SuffixAt(s, i, k);
      }
    }
  }

  lemma SliceOfSuffix(s: string, i: nat, m: nat)
    requires i + m <= |s|
    ensures s[i..][..m] == s[i..i + m]
  {
  }

  lemma SuffixAt(s: string, i: nat, k: nat)
    requires i <= k < |s|
    ensures s[k] == s[i..][k - i]
  {
  }

  /** Trimming yields the empty string exactly when every character is
      whitespace. */
  lemma TrimEmpty(s: string)
    ensures Trim(s) == "" <==> AllWhitespace(s)
  {
    if Trim(s) == "" {
      TrimmedAway(s);
    } else {
      var t := TrimStart(s);
      assert |t| > 0 && t[0] == s[|s| - |t|];
    }
  }

  /** What trimming removes entirely is whitespace. */
  lemma TrimmedAway(s: string)
    requires Trim(s) == ""
    ensures AllWhitespace(s)
  {
    var i, j := TrimBounds(s);
    assert |s[i..j]| == 0;
  }

  /** A string that does not start with whitespace is its own `TrimStart`. */
  lemma TrimStartKeeps(s: string)
    requires s == "" || !IsWhitespace(s[0])
    ensures TrimStart(s) == s
  {
  }

  /** A string that does not end with whitespace is its own `TrimEnd`. */
  lemma TrimEndKeeps(s: string)
    requires s == "" || !IsWhitespace(s[|s| - 1])
    ensures TrimEnd(s) == s
  {
  }

  /** Trimming twice trims no more than trimming once. */
  lemma TrimIdempotent(s: string)
    ensures Trim(Trim(s)) == Trim(s)
  {
    var r := Trim(s);
    TrimSpec(s);
    TrimStartKeeps(r);
    TrimEndKeeps(r);
  }

  /** The character of a decimal digit. */
  function Digit(d: nat): char
    requires d < 10
  {
    "0123456789"[d]
  }

  /** The value of a string of decimal digits. */
  function DigitsValue(s: string): int
    decreases |s|
  {
    if |s| == 0 then 0 else DigitsValue(s[..|s| - 1]) * 10 + (s[|s| - 1] as int - '0' as int)
  }

  predicate IsDigit(c: char) {
    '0' <= c <= '9'
  }

  /** `String(n)` for a non-negative integer: its decimal digits, without
      leading zeros. */
  function Decimal(n: nat): (r: string)
    ensures |r| >= 1
    decreases n
  {
    if n < 10 then [Digit(n)] else Decimal(n / 10) + [Digit(n % 10)]
  }

  /** `Decimal` writes canonical digits that read back as the number. */
  lemma {:induction false} DecimalValue(n: nat)
    ensures forall i :: 0 <= i < |Decimal(n)| ==> IsDigit(Decimal(n)[i])
    ensures |Decimal(n)| > 1 ==> Decimal(n)[0] != '0'
    ensures DigitsValue(Decimal(n)) == n
    decreases n
  {
    if n >= 10 {
      var front := Decimal(n / 10);
      DecimalValue(n / 10);
      var r := front + [Digit(n % 10)];
      assert r[..|r| - 1] == front;
      assert r[0] == front[0];
    }
  }
}
