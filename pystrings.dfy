/** The Python `str` operations the text-processing layer relies on, written out on
    `seq<char>`: whitespace, `strip`, ASCII case mapping, substring search, `split`,
    `join`, slicing with negative indices, `replace` of one character, `title` and
    the decimal rendering of an integer. */
module PyStrings {
  import opened Wrappers

  /** `str.isspace()` of one character; it is also what `\s` matches in a `str` pattern. */
  predicate IsSpace(c: char) {
    ('\t' <= c <= '\r') || ('\U{1c}' <= c <= '\U{1f}') || c == ' ' || c == '\U{85}'
    || c == '\U{a0}' || c == '\U{1680}' || ('\U{2000}' <= c <= '\U{200a}')
    || c == '\U{2028}' || c == '\U{2029}' || c == '\U{202f}' || c == '\U{205f}'
    || c == '\U{3000}'
  }

  predicate AllSpace(s: string) {
    forall k :: 0 <= k < |s| ==> IsSpace(s[k])
  }

  /** A string that `strip()` leaves unchanged: empty, or neither end is a space. */
  predicate IsStripped(s: string) {
    s == [] || (!IsSpace(s[0]) && !IsSpace(s[|s| - 1]))
  }

  /** The number of spaces `lstrip()` removes. */
  function LeadingSpaces(s: string): (n: nat)
    ensures n <= |s|
    ensures forall k :: 0 <= k < n ==> IsSpace(s[k])
    ensures n == |s| || !IsSpace(s[n])
  {
    if s == [] || !IsSpace(s[0]) then 0 else 1 + LeadingSpaces(s[1..])
  }

  /** The number of spaces `rstrip()` removes. */
  function TrailingSpaces(s: string): (n: nat)
    ensures n <= |s|
    ensures forall k :: |s| - n <= k < |s| ==> IsSpace(s[k])
    ensures n == |s| || !IsSpace(s[|s| - n - 1])
  {
    if s == [] || !IsSpace(s[|s| - 1]) then 0 else 1 + TrailingSpaces(s[..|s| - 1])
  }

  /** `str.strip()` without an argument: the text between the leading and the trailing run of spaces. */
  function Strip(s: string): (r: string)
    ensures IsStripped(r)
    ensures |r| <= |s|
  {
    var a := LeadingSpaces(s);
    if a == |s| then [] else s[a..|s| - TrailingSpaces(s)]
  }

  /** What `strip()` keeps is the slice after the leading spaces, and only spaces follow it. */
  lemma StripSlice(s: string)
    ensures LeadingSpaces(s) + |Strip(s)| <= |s|
    ensures Strip(s) == s[LeadingSpaces(s)..LeadingSpaces(s) + |Strip(s)|]
    ensures forall k :: LeadingSpaces(s) + |Strip(s)| <= k < |s| ==> IsSpace(s[k])
  {
  }

  /** Spaces around a stripped string are exactly what `strip()` removes. */
  lemma StripPadded(w1: string, x: string, w2: string)
    requires AllSpace(w1) && AllSpace(w2) && IsStripped(x)
    ensures Strip(w1 + x + w2) == x
  {
    var s := w1 + x + w2;
    assert forall k :: 0 <= k < |w1| ==> IsSpace(s[k]) by {
      forall k | 0 <= k < |w1| ensures IsSpace(s[k]) { assert s[k] == w1[k]; }
    }
    assert forall k :: |w1| + |x| <= k < |s| ==> IsSpace(s[k]) by {
      forall k | |w1| + |x| <= k < |s| ensures IsSpace(s[k]) { assert s[k] == w2[k - |w1| - |x|]; }
    }
    if x == [] {
      assert LeadingSpaces(s) == |s|;
    } else {
      assert s[|w1|] == x[0];
      assert LeadingSpaces(s) == |w1|;
      assert s[|w1| + |x| - 1] == x[|x| - 1];
      assert TrailingSpaces(s) == |w2|;
      assert s[|w1|..|w1| + |x|] == x;
    }
  }

  lemma StripOfStripped(x: string)
    requires IsStripped(x)
    ensures Strip(x) == x
  {
    StripPadded([], x, []);
    assert [] + x + [] == x;
  }

  /** `str.lower()` and `str.upper()` on one character, for the ASCII letters. */
  function LowerChar(c: char): char {
    if 'A' <= c <= 'Z' then (c as int + 32) as char else c
  }

  function UpperChar(c: char): char {
    if 'a' <= c <= 'z' then (c as int - 32) as char else c
  }

  /** `str.lower()`. */
  function Lower(s: string): (r: string)
    ensures |r| == |s|
    ensures forall k :: 0 <= k < |s| ==> r[k] == LowerChar(s[k])
  {
    if s == [] then [] else [LowerChar(s[0])] + Lower(s[1..])
  }

  /** `pattern` occurs in `s` at index `i`. */
  predicate StartsAt(s: string, i: nat, pattern: string) {
    i + |pattern| <= |s| && s[i..i + |pattern|] == pattern
  }

  /** `pattern` occurs in `s` at index `i`, letters compared as under `re.IGNORECASE`. */
  predicate CiStartsAt(s: string, i: nat, pattern: string)
    ensures CiStartsAt(s, i, pattern) ==> i + |pattern| <= |s|
    decreases |pattern|
  {
    if pattern == [] then i <= |s|
    else i < |s| && LowerChar(s[i]) == LowerChar(pattern[0]) && CiStartsAt(s, i + 1, pattern[1..])
  }

  /** Character by character, what `CiStartsAt` compares. */
  lemma {:induction false} CiStartsAtChars(s: string, i: nat, pattern: string)
    ensures CiStartsAt(s, i, pattern) <==>
      i + |pattern| <= |s| && forall k :: 0 <= k < |pattern| ==> LowerChar(s[i + k]) == LowerChar(pattern[k])
    decreases |pattern|
  {
    if pattern != [] {
      CiStartsAtChars(s, i + 1, pattern[1..]);
      assert forall k :: 1 <= k < |pattern| ==> pattern[k] == pattern[1..][k - 1];
    }
  }

  /** `s.startswith(prefix)`. */
  predicate StartsWith(s: string, prefix: string) {
    StartsAt(s, 0, prefix)
  }

  /** `s.endswith(suffix)`. */
  predicate EndsWith(s: string, suffix: string) {
    |suffix| <= |s| && s[|s| - |suffix|..] == suffix
  }

  lemma StartsWithHead(s: string, prefix: string)
    requires prefix != []
    ensures StartsWith(s, prefix) ==> s != [] && s[0] == prefix[0]
  {
    if StartsWith(s, prefix) {
      assert s[0] == s[..|prefix|][0];
    }
  }

  lemma EndsWithOfSuffix(s: string, k: nat, suffix: string)
    requires k <= |s|
    ensures EndsWith(s[k..], suffix) ==> EndsWith(s, suffix)
  {
    if EndsWith(s[k..], suffix) {
      assert s[k..][|s| - k - |suffix|..] == s[|s| - |suffix|..];
    }
  }

  /** The suffix of a piece of `text` sits in `text` at the end of that piece. */
  lemma SuffixWithin(text: string, a: nat, s: string, suffix: string)
    requires StartsAt(text, a, s)
    ensures EndsWith(s, suffix) ==> StartsAt(text, a + |s| - |suffix|, suffix)
  {
    if EndsWith(s, suffix) {
      assert text[a + |s| - |suffix|..a + |s|] == text[a..a + |s|][|s| - |suffix|..];
    }
  }

  /** `part` occurs somewhere in `s`. */
  ghost predicate Within(part: string, s: string) {
    exists i: nat :: StartsAt(s, i, part)
  }

  lemma WithinTrans(a: string, b: string, c: string)
    requires Within(a, b) && Within(b, c)
    ensures Within(a, c)
  {
    var i: nat :| StartsAt(b, i, a);
    var j: nat :| StartsAt(c, j, b);
    forall k | 0 <= k < |a| ensures c[j + i + k] == a[k] {
      assert c[j + i + k] == c[j..j + |b|][i + k];
      assert a[k] == b[i..i + |a|][k];
    }
    assert c[j + i..j + i + |a|] == a;
    assert StartsAt(c, j + i, a);
  }

  lemma StripWithin(s: string)
    ensures Within(Strip(s), s)
  {
    StripSlice(s);
    assert StartsAt(s, LeadingSpaces(s), Strip(s));
  }

  /** `s.find(pattern, start)`, as an Option: the leftmost occurrence at or after `start`. */
  function IndexFrom(s: string, pattern: string, start: nat): (r: Option<nat>)
    ensures r.Some? ==> start <= r.value && StartsAt(s, r.value, pattern)
    ensures r.Some? ==> forall i :: start <= i < r.value ==> !StartsAt(s, i, pattern)
    ensures r.None? ==> forall i :: start <= i ==> !StartsAt(s, i, pattern)
    decreases |s| - start
  {
    if start + |pattern| > |s| then None
    else if StartsAt(s, start, pattern) then Some(start)
    else IndexFrom(s, pattern, start + 1)
  }

  /** `pattern in s`. */
  predicate Contains(s: string, pattern: string) {
    IndexFrom(s, pattern, 0).Some?
  }

  lemma ContainsIff(s: string, pattern: string)
    ensures Contains(s, pattern) <==> exists i :: StartsAt(s, i, pattern)
  {
    if exists i :: StartsAt(s, i, pattern) {
      var i :| StartsAt(s, i, pattern);
      assert IndexFrom(s, pattern, 0).Some?;
    }
  }

  /** `sep.join(parts)`. */
  function Join(parts: seq<string>, sep: string): string {
    if parts == [] then []
    else if |parts| == 1 then parts[0]
    else parts[0] + sep + Join(parts[1..], sep)
  }

  /** An occurrence inside a prefix is an occurrence in the whole text. */
  lemma PrefixStartsAt(s: string, n: nat, j: nat, pattern: string)
    requires n <= |s|
    ensures StartsAt(s[..n], j, pattern) ==> StartsAt(s, j, pattern)
  {
    if j + |pattern| <= n {
      assert s[..n][j..j + |pattern|] == s[j..j + |pattern|];
    }
  }

  /** `s.split(sep)` for a non-empty separator: cut at every occurrence, scanning from the left. */
  function Split(s: string, sep: string): (r: seq<string>)
    requires sep != []
    ensures |r| >= 1
    ensures Join(r, sep) == s
    ensures forall k :: 0 <= k < |r| ==> !Contains(r[k], sep)
    decreases |s|
  {
    match IndexFrom(s, sep, 0)
    case None => [s]
    case Some(i) =>
      var head := s[..i];
      var tail := Split(s[i + |sep|..], sep);
      assert !Contains(head, sep) by {
        forall j: nat ensures !StartsAt(head, j, sep) {
          PrefixStartsAt(s, i, j, sep);
        }
        ContainsIff(head, sep);
      }
      assert s == head + sep + s[i + |sep|..];
      [head] + tail
  }

  /** A one-character separator occurs in `s` exactly where `s` holds that character. */
  lemma StartsAtChar(s: string, i: nat, c: char)
    ensures StartsAt(s, i, [c]) <==> i < |s| && s[i] == c
  {
    if i < |s| {
      assert s[i..i + 1] == [s[i]];
    }
  }

  /** Splitting the join of pieces free of a one-character separator gives the pieces back. */
  lemma {:induction false} SplitJoin(parts: seq<string>, c: char)
    requires parts != []
    requires forall k :: 0 <= k < |parts| ==> c !in parts[k]
    ensures Split(Join(parts, [c]), [c]) == parts
    decreases |parts|
  {
    var s := Join(parts, [c]);
    var head := parts[0];
    if |parts| == 1 {
      match IndexFrom(s, [c], 0)
      case None =>
      case Some(i) =>
        StartsAtChar(s, i, c);
        assert false;
    } else {
      var rest := parts[1..];
      assert forall k :: 0 <= k < |rest| ==> rest[k] == parts[k + 1];
      assert s == head + [c] + Join(rest, [c]);
      StartsAtChar(s, |head|, c);
      match IndexFrom(s, [c], 0)
      case None =>
        assert false;
      case Some(i) =>
        StartsAtChar(s, i, c);
        assert i == |head|;
        assert s[..i] == head;
        assert s[i + 1..] == Join(rest, [c]);
        SplitJoin(rest, c);
    }
  }

  /** The first occurrence of a one-character separator is its first index. */
  lemma IndexFromChar(s: string, c: char, i: nat)
    requires i < |s| && s[i] == c
    requires forall j :: 0 <= j < i ==> s[j] != c
    ensures IndexFrom(s, [c], 0) == Some(i)
  {
    StartsAtChar(s, i, c);
    match IndexFrom(s, [c], 0)
    case None =>
    case Some(k) =>
      StartsAtChar(s, k, c);
  }

  /** Splitting `a`, a separator and `b` splits `a` and `b` separately, in that order. */
  lemma {:induction false} SplitConcat(a: string, c: char, b: string)
    ensures Split(a + [c] + b, [c]) == Split(a, [c]) + Split(b, [c])
    decreases |a|
  {
    var s := a + [c] + b;
    match IndexFrom(a, [c], 0)
    case None =>
      forall j | 0 <= j < |a| ensures a[j] != c {
        StartsAtChar(a, j, c);
      }
      IndexFromChar(s, c, |a|);
      assert s[..|a|] == a;
      assert s[|a| + 1..] == b;
    case Some(i) =>
      StartsAtChar(a, i, c);
      forall j | 0 <= j < i ensures a[j] != c {
        StartsAtChar(a, j, c);
      }
      IndexFromChar(s, c, i);
      assert s[..i] == a[..i];
      assert s[i + 1..] == a[i + 1..] + [c] + b;
      SplitConcat(a[i + 1..], c, b);
  }

  /** An occurrence in `r` is an occurrence in `p + r`, shifted by `|p|`, and back. */
  lemma StartsAtShift(p: string, r: string, k: nat, t: string)
    ensures StartsAt(p + r, |p| + k, t) == StartsAt(r, k, t)
  {
    if k + |t| <= |r| {
      assert (p + r)[|p| + k..|p| + k + |t|] == r[k..k + |t|];
    }
  }

  /** `s.split(sep)[-1]`: what follows the last occurrence of `sep`, or all of `s`. */
  function LastPiece(s: string, sep: string): string
    requires sep != []
    decreases |s|
  {
    match IndexFrom(s, sep, 0)
    case None => s
    case Some(i) => LastPiece(s[i + |sep|..], sep)
  }

  /** `LastPiece` is the last element of `Split`. */
  lemma {:induction false} LastPieceOfSplit(s: string, sep: string)
    requires sep != []
    ensures var r := Split(s, sep); LastPiece(s, sep) == r[|r| - 1]
    decreases |s|
  {
    match IndexFrom(s, sep, 0)
    case None =>
    case Some(i) =>
      var rest := s[i + |sep|..];
      var tail := Split(rest, sep);
      LastPieceOfSplit(rest, sep);
      var r := Split(s, sep);
      assert r == [s[..i]] + tail;
      assert r[|r| - 1] == tail[|tail| - 1];
      assert LastPiece(s, sep) == LastPiece(rest, sep);
  }

  /** An occurrence begins with the pattern's first character. */
  lemma StartsAtHead(s: string, i: nat, pattern: string)
    requires pattern != []
    ensures StartsAt(s, i, pattern) ==> i < |s| && s[i] == pattern[0]
  {
    if StartsAt(s, i, pattern) {
      assert s[i..i + |pattern|][0] == s[i];
    }
  }

  /** The last piece of `a + sep + b` is `b` when `a` and the tail of `sep` never hold the
      separator's first character and `b` does not contain the separator. */
  lemma LastPieceAfterFirst(a: string, sep: string, b: string)
    requires sep != []
    requires sep[0] !in a
    requires forall k :: 1 <= k < |sep| ==> sep[k] != sep[0]
    requires !Contains(b, sep)
    ensures LastPiece(a + sep + b, sep) == b
  {
    var text := a + sep + b;
    assert text[|a|..|a| + |sep|] == sep;
    assert StartsAt(text, |a|, sep);
    forall i: nat | i < |a|
      ensures !StartsAt(text, i, sep)
    {
      StartsAtHead(text, i, sep);
      assert text[i] == a[i];
    }
    assert IndexFrom(text, sep, 0) == Some(|a|);
    assert text[|a| + |sep|..] == b;
    ContainsIff(b, sep);
    assert IndexFrom(b, sep, 0).None?;
  }

  /** `s.split(sep, 1)` for a one-character separator: the text before the first `sep`, and the
      text after it when there is one. */
  function SplitOnce(s: string, sep: char): (r: (string, Option<string>))
    ensures r.1.None? ==> r.0 == s && sep !in s
    ensures r.1.Some? ==> s == r.0 + [sep] + r.1.value && sep !in r.0
  {
    if s == [] then (s, None)
    else if s[0] == sep then ([], Some(s[1..]))
    else
      var (head, rest) := SplitOnce(s[1..], sep);
      assert s == [s[0]] + s[1..];
      ([s[0]] + head, rest)
  }

  /** Splitting at the first `sep` finds the text before it. */
  lemma {:induction false} SplitOnceAt(first: string, sep: char, rest: string)
    requires sep !in first
    ensures SplitOnce(first + [sep] + rest, sep) == (first, Some(rest))
    decreases |first|
  {
    var s := first + [sep] + rest;
    if first == [] {
      assert s == [sep] + rest;
      assert s[1..] == rest;
    } else {
      assert s[0] == first[0];
      assert s[1..] == first[1..] + [sep] + rest;
      SplitOnceAt(first[1..], sep, rest);
      assert [s[0]] + first[1..] == first;
    }
  }

  /** A slice bound as Python normalises it: negative counts from the end, then clamped to `[0, n]`. */
  function ClampIndex(i: int, n: nat): (r: nat)
    ensures r <= n
    ensures 0 <= i <= n ==> r == i
    ensures -(n as int) <= i < 0 ==> r == n + i
    ensures i > n ==> r == n
    ensures i < -(n as int) ==> r == 0
  {
    if i < 0 then (if i + n < 0 then 0 else i + n)
    else if i > n then n
    else i
  }

  /** `s[start:stop]`. */
  function PySlice(s: string, start: int, stop: int): (r: string)
    ensures |r| <= |s|
  {
    var a := ClampIndex(start, |s|);
    var b := ClampIndex(stop, |s|);
    if a < b then s[a..b] else []
  }

  /** A slice is a piece of the text it is taken from. */
  lemma PySliceWithin(s: string, start: int, stop: int)
    ensures Within(PySlice(s, start, stop), s)
  {
    var a := ClampIndex(start, |s|);
    var b := ClampIndex(stop, |s|);
    if a < b {
      assert StartsAt(s, a, s[a..b]);
    } else {
      assert StartsAt(s, 0, []);
    }
  }

  /** `s.replace(from, to)` for one-character arguments. */
  function ReplaceChar(s: string, from: char, to: char): (r: string)
    ensures |r| == |s|
    ensures forall k :: 0 <= k < |s| ==> r[k] == (if s[k] == from then to else s[k])
  {
    if s == [] then [] else [if s[0] == from then to else s[0]] + ReplaceChar(s[1..], from, to)
  }

  /** A character that has case (ASCII letters). */
  predicate IsCased(c: char) {
    'a' <= c <= 'z' || 'A' <= c <= 'Z'
  }

  /** `str.title()`: a cased character following a cased one is lowered, every other one is raised. */
  function TitleFrom(s: string, previousCased: bool): (r: string)
    ensures |r| == |s|
  {
    if s == [] then []
    else
      var c := if previousCased then LowerChar(s[0]) else UpperChar(s[0]);
      [c] + TitleFrom(s[1..], IsCased(s[0]))
  }

  function Title(s: string): string {
    TitleFrom(s, false)
  }

  function Digit(d: nat): char
    requires d < 10
  {
    "0123456789"[d]
  }

  /** `str(n)` for a natural number. */
  function NatToString(n: nat): (r: string)
    ensures |r| >= 1
  {
    if n < 10 then [Digit(n)] else NatToString(n / 10) + [Digit(n % 10)]
  }

  /** `str(i)` for an integer. */
  function IntToString(i: int): string {
    if i < 0 then "-" + NatToString(-i) else NatToString(i)
  }
}
