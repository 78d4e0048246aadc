/**
 * The few JavaScript string operations the chat protocol relies on:
 * `indexOf`, `split`, `join`, `replace` (first occurrence), `startsWith`,
 * `trim` and the decimal rendering of a non-negative integer.
 */
module Strings {
  import opened Wrappers

  /** `pat` occurs in `s` starting at index `i`. */
  predicate OccursAt(s: string, pat: string, i: nat) {
    i + |pat| <= |s| && s[i..i + |pat|] == pat
  }

  predicate StartsWith(s: string, prefix: string) {
    |prefix| <= |s| && s[..|prefix|] == prefix
  }

  lemma OccursAtTail(s: string, pat: string, j: nat)
    requires |s| > 0
    ensures OccursAt(s, pat, j + 1) <==> OccursAt(s[1..], pat, j)
  {
    if j + 1 + |pat| <= |s| {
      assert s[1..][j..j + |pat|] == s[j + 1..j + 1 + |pat|];
    }
  }

  /** `s.indexOf(pat)`: the first position where a non-empty `pat` occurs. */
  function IndexOf(s: string, pat: string): (r: Option<nat>)
    requires pat != ""
    ensures r.Some? ==> OccursAt(s, pat, r.value)
    decreases |s|
  {
    if |s| < |pat| then None
    else if s[..|pat|] == pat then Some(0)
    else
      match IndexOf(s[1..], pat)
      case None => None
      case Some(k) =>
        assert OccursAt(s, pat, k + 1) by { OccursAtTail(s, pat, k); }
        Some(k + 1)
  }

  /** The position found is the first occurrence, and `None` means there is none. */
  lemma {:induction false} IndexOfFirst(s: string, pat: string)
    requires pat != ""
    ensures IndexOf(s, pat).Some? ==> forall j: nat :: j < IndexOf(s, pat).value ==> !OccursAt(s, pat, j)
    ensures IndexOf(s, pat).None? ==> forall j: nat :: !OccursAt(s, pat, j)
    decreases |s|
  {
    if |s| >= |pat| && s[..|pat|] != pat {
      IndexOfFirst(s[1..], pat);
      forall j: nat | j > 0 ensures OccursAt(s, pat, j) <==> OccursAt(s[1..], pat, j - 1) {
        OccursAtTail(s, pat, j - 1);
      }
    }
  }

  /** A string whose characters all differ from the first character of `pat` contains no `pat`. */
  lemma NoOccurrence(s: string, pat: string)
    requires pat != "" && pat[0] !in s
    ensures forall j: nat :: !OccursAt(s, pat, j)
  {
    forall j: nat ensures !OccursAt(s, pat, j) {
      if j + |pat| <= |s| {
        assert s[j..j + |pat|][0] == s[j];
      }
    }
  }

  /** `parts.join(sep)`. */
  function Join(parts: seq<string>, sep: string): string {
    if |parts| == 0 then ""
    else if |parts| == 1 then parts[0]
    else parts[0] + sep + Join(parts[1..], sep)
  }

  /** `s.split(sep)` for a non-empty separator: cut at every occurrence, scanning left to right. */
  function Split(s: string, sep: string): (parts: seq<string>)
    requires sep != ""
    ensures |parts| >= 1
    decreases |s|
  {
    match IndexOf(s, sep)
    case None => [s]
    case Some(i) => [s[..i]] + Split(s[i + |sep|..], sep)
  }

  /** Splitting loses nothing: joining the pieces with the separator gives the string back. */
  lemma {:induction false} SplitJoin(s: string, sep: string)
    requires sep != ""
    ensures Join(Split(s, sep), sep) == s
    decreases |s|
  {
    match IndexOf(s, sep)
    case None =>
    case Some(i) =>
      var head := s[..i];
      var rest := s[i + |sep|..];
      SplitJoin(rest, sep);
      assert Split(s, sep) == [head] + Split(rest, sep);
      JoinCons(head, Split(rest, sep), sep);
      Recut(s, i, sep);
  }

  /**
   * Every cut is at the leftmost occurrence: `s` is one piece exactly when
   * `sep` does not occur in it, and otherwise the first piece runs up to the
   * first occurrence and the text after that occurrence is split the same way.
   */
  lemma {:induction false} SplitLeftmost(s: string, sep: string)
    requires sep != ""
    ensures |Split(s, sep)| == 1 <==> forall j: nat :: !OccursAt(s, sep, j)
    ensures |Split(s, sep)| == 1 ==> Split(s, sep) == [s]
    ensures |Split(s, sep)| > 1 ==>
      var h := |Split(s, sep)[0]|;
      OccursAt(s, sep, h) && (forall j: nat :: j < h ==> !OccursAt(s, sep, j)) &&
      Split(s, sep) == [s[..h]] + Split(s[h + |sep|..], sep)
  {
    IndexOfFirst(s, sep);
    match IndexOf(s, sep)
    case None =>
      SplitNone(s, sep);
    case Some(i) =>
      SplitCut(s, sep, i);
      assert Split(s, sep)[0] == s[..i];
      assert OccursAt(s, sep, i);
  }

  /** The cut `Split` makes at the position `IndexOf` finds. */
  lemma {:induction false} SplitCut(s: string, sep: string, i: nat)
    requires sep != "" && IndexOf(s, sep) == Some(i)
    ensures i + |sep| <= |s|
    ensures |Split(s, sep)| > 1 && |Split(s, sep)[0]| == i
    ensures Split(s, sep) == [s[..i]] + Split(s[i + |sep|..], sep)
  {
    assert OccursAt(s, sep, i);
    var rest := s[i + |sep|..];
    assert Split(s, sep) == [s[..i]] + Split(rest, sep);
  }

  /** Cutting `s` around an occurrence of `pat` and gluing the pieces back gives `s`. */
  lemma Recut(s: string, i: nat, pat: string)
    requires OccursAt(s, pat, i)
    ensures s == s[..i] + pat + s[i + |pat|..]
  {
    assert s == s[..i] + s[i..i + |pat|] + s[i + |pat|..];
  }

  lemma JoinCons(head: string, parts: seq<string>, sep: string)
    requires parts != []
    ensures Join([head] + parts, sep) == head + sep + Join(parts, sep)
  {
    assert ([head] + parts)[1..] == parts;
  }

  /** No piece of a split contains the separator. */
  lemma {:induction false} SplitPiecesFree(s: string, sep: string)
    requires sep != ""
    ensures forall k: nat, j: nat :: k < |Split(s, sep)| ==> !OccursAt(Split(s, sep)[k], sep, j)
    decreases |s|
  {
    IndexOfFirst(s, sep);
    match IndexOf(s, sep)
    case None =>
    case Some(i) =>
      var rest := s[i + |sep|..];
      SplitPiecesFree(rest, sep);
      HeadFree(s, sep, i);
      var parts := Split(s, sep);
      assert parts == [s[..i]] + Split(rest, sep);
      forall k: nat, j: nat | k < |parts| ensures !OccursAt(parts[k], sep, j) {
        if k > 0 {
          assert parts[k] == Split(rest, sep)[k - 1];
        }
      }
  }

  /** The text before the first occurrence of `sep` does not contain `sep`. */
  lemma HeadFree(s: string, sep: string, i: nat)
    requires sep != "" && i <= |s|
    requires forall j: nat :: j < i ==> !OccursAt(s, sep, j)
    ensures forall j: nat :: !OccursAt(s[..i], sep, j)
  {
    forall j: nat ensures !OccursAt(s[..i], sep, j) {
      if OccursAt(s[..i], sep, j) {
        assert s[..i][j..j + |sep|] == s[j..j + |sep|];
        assert OccursAt(s, sep, j);
      }
    }
  }

  /** When `sep` does not occur before the end of the head, the first piece is exactly the head. */
  lemma SplitAt(head: string, sep: string, rest: string)
    requires sep != ""
    requires forall j: nat :: j < |head| ==> !OccursAt(head + sep + rest, sep, j)
    ensures Split(head + sep + rest, sep) == [head] + Split(rest, sep)
  {
    var s := head + sep + rest;
    assert OccursAt(s, sep, |head|) by {
      assert s[|head|..|head| + |sep|] == sep;
    }
    IndexOfFirst(s, sep);
    var i := IndexOf(s, sep).value;
    assert i == |head|;
    assert s[..i] == head;
    assert s[i + |sep|..] == rest;
  }

  /** When the head contains no character that starts `sep`, the first piece is exactly the head. */
  lemma SplitHead(head: string, sep: string, rest: string)
    requires sep != "" && sep[0] !in head
    ensures Split(head + sep + rest, sep) == [head] + Split(rest, sep)
  {
    var s := head + sep + rest;
    forall j: nat | j < |head| ensures !OccursAt(s, sep, j) {
      assert s[j] == head[j];
    }
    SplitAt(head, sep, rest);
  }

  /** A string in which `sep` does not occur is one piece. */
  lemma SplitNone(s: string, sep: string)
    requires sep != ""
    requires forall j: nat :: !OccursAt(s, sep, j)
    ensures Split(s, sep) == [s]
  {
  }

  /** A string free of the separator's first character is not cut at all. */
  lemma SplitWhole(s: string, sep: string)
    requires sep != "" && sep[0] !in s
    ensures Split(s, sep) == [s]
  {
    NoOccurrence(s, sep);
  }

  /** `s.replace(pat, by)` with a string pattern: only the first occurrence is replaced. */
  function ReplaceFirst(s: string, pat: string, replacement: string): string
    requires pat != ""
  {
    match IndexOf(s, pat)
    case None => s
    case Some(i) => s[..i] + replacement + s[i + |pat|..]
  }

  lemma ReplacePrefix(pat: string, body: string)
    requires pat != ""
    ensures ReplaceFirst(pat + body, pat, "") == body
  {
    var s := pat + body;
    assert s[..|pat|] == pat;
    assert IndexOf(s, pat) == Some(0);
    assert s[|pat|..] == body;
  }

  /** The concatenation of a sequence of strings, in order. */
  function Concat(ss: seq<string>): string {
    if ss == [] then "" else ss[0] + Concat(ss[1..])
  }

  lemma {:induction false} ConcatAppend(a: seq<string>, b: seq<string>)
    ensures Concat(a + b) == Concat(a) + Concat(b)
  {
    if a == [] {
      assert a + b == b;
    } else {
      assert (a + b)[1..] == a[1..] + b;
      ConcatAppend(a[1..], b);
      assert Concat(a + b) == a[0] + (Concat(a[1..]) + Concat(b));
    }
  }

  // ---------------------------------------------------------------------
  // Whitespace and String.prototype.trim

  /** ECMAScript WhiteSpace and LineTerminator code points (what `trim` removes). */
  predicate IsWhitespace(c: char) {
    var n := c as int;
    n == 0x09 || n == 0x0A || n == 0x0B || n == 0x0C || n == 0x0D || n == 0x20 ||
    n == 0xA0 || n == 0x1680 || (0x2000 <= n <= 0x200A) || n == 0x2028 || n == 0x2029 ||
    n == 0x202F || n == 0x205F || n == 0x3000 || n == 0xFEFF
  }

  predicate Blank(s: string) {
    forall i :: 0 <= i < |s| ==> IsWhitespace(s[i])
  }

  function TrimStart(s: string): (r: string)
    ensures r == "" || !IsWhitespace(r[0])
    decreases |s|
  {
    if s != "" && IsWhitespace(s[0]) then TrimStart(s[1..]) else s
  }

  function TrimEnd(s: string): string
    decreases |s|
  {
    if s != "" && IsWhitespace(s[|s| - 1]) then TrimEnd(s[..|s| - 1]) else s
  }

  /** `s.trim()`. */
  function Trim(s: string): string {
    TrimEnd(TrimStart(s))
  }

  lemma {:induction false} TrimStartEmpty(s: string)
    ensures TrimStart(s) == "" <==> Blank(s)
    decreases |s|
  {
    if s != "" && IsWhitespace(s[0]) {
      TrimStartEmpty(s[1..]);
      assert Blank(s) <==> Blank(s[1..]) by {
        if Blank(s[1..]) {
          forall i | 0 <= i < |s| ensures IsWhitespace(s[i]) {
            if i > 0 { assert s[i] == s[1..][i - 1]; }
          }
        }
      }
    } else if s != "" {
      assert !IsWhitespace(s[0]);
    }
  }

  lemma {:induction false} TrimEndEmpty(s: string)
    ensures TrimEnd(s) == "" <==> Blank(s)
    decreases |s|
  {
    if s != "" && IsWhitespace(s[|s| - 1]) {
      var init := s[..|s| - 1];
      TrimEndEmpty(init);
      assert Blank(s) <==> Blank(init) by {
        if Blank(init) {
          forall i | 0 <= i < |s| ensures IsWhitespace(s[i]) {
            if i < |s| - 1 { assert s[i] == init[i]; }
          }
        }
      }
    } else if s != "" {
      assert !IsWhitespace(s[|s| - 1]);
    }
  }

  /** `s.trim()` is falsy exactly when every character of `s` is whitespace. */
  lemma TrimEmptyIffBlank(s: string)
    ensures Trim(s) == "" <==> Blank(s)
  {
    TrimStartEmpty(s);
    TrimEndEmpty(TrimStart(s));
    TrimStartEmpty(TrimStart(s));
  }

  // ---------------------------------------------------------------------
  // Decimal rendering of non-negative integers

  predicate IsDigit(c: char) {
    '0' <= c <= '9'
  }

  predicate AllDigits(s: string) {
    forall i :: 0 <= i < |s| ==> IsDigit(s[i])
  }

  function DigitChar(d: nat): (c: char)
    requires d < 10
    ensures IsDigit(c) && c as int - '0' as int == d
  {
    ('0' as int + d) as char
  }

  /** `String(n)` for a non-negative integer: shortest decimal form, no leading zero. */
  function NatToString(n: nat): (r: string)
    ensures r != "" && AllDigits(r)
    ensures r[0] == '0' <==> n == 0
    ensures n == 0 ==> r == "0"
    decreases n
  {
    if n < 10 then [DigitChar(n)] else NatToString(n / 10) + [DigitChar(n % 10)]
  }

  /** The value of a string of decimal digits, most significant first. */
  function DigitsValue(ds: string): nat
    requires AllDigits(ds)
    decreases |ds|
  {
    if ds == [] then 0
    else DigitsValue(ds[..|ds| - 1]) * 10 + (ds[|ds| - 1] as int - '0' as int)
  }

  /** Reading back the rendering of `n` gives `n`. */
  lemma {:induction false} NatToStringValue(n: nat)
    ensures DigitsValue(NatToString(n)) == n
    decreases n
  {
    var r := NatToString(n);
    if n >= 10 {
      NatToStringValue(n / 10);
      assert r[..|r| - 1] == NatToString(n / 10);
    }
  }
}
