/**
 * The JavaScript string operations the site's components rely on, stated over `seq<char>`:
 * `startsWith`, `indexOf`, `split` and `replace` with a string pattern, `trim`,
 * and the decimal rendering of a number inside a template literal.
 */
module Strings {
  import opened Wrappers

  /** `s.startsWith(p)` */
  predicate StartsWith(s: string, p: string) {
    |p| <= |s| && s[..|p|] == p
  }

  /** `pat` occurs in `s` starting at index `i`. */
  predicate OccursAt(s: string, pat: string, i: nat) {
    i + |pat| <= |s| && s[i..i + |pat|] == pat
  }

  ghost predicate Occurs(s: string, pat: string) {
    exists i: nat :: OccursAt(s, pat, i)
  }

  // ---------------------------------------------------------------------------
  // indexOf and replace with a string pattern (only the first occurrence is replaced)
  // ---------------------------------------------------------------------------

  function IndexOfFrom(s: string, pat: string, from: nat): (r: Option<nat>)
    ensures r.Some? ==> from <= r.value && OccursAt(s, pat, r.value)
    ensures r.Some? ==> forall j: nat :: from <= j < r.value ==> !OccursAt(s, pat, j)
    ensures r.None? ==> forall j: nat :: from <= j ==> !OccursAt(s, pat, j)
    decreases |s| - from
  {
    if from + |pat| > |s| then None
    else if s[from..from + |pat|] == pat then Some(from)
    else IndexOfFrom(s, pat, from + 1)
  }

  /** `s.indexOf(pat)`, as an option: the leftmost occurrence. */
  function IndexOf(s: string, pat: string): (r: Option<nat>)
    ensures r.Some? ==> OccursAt(s, pat, r.value) && forall j: nat :: j < r.value ==> !OccursAt(s, pat, j)
    ensures r.None? <==> !Occurs(s, pat)
  {
    IndexOfFrom(s, pat, 0)
  }

  /** `s.replace(pat, rep)` for a string `pat`: the leftmost occurrence only. */
  function ReplaceFirst(s: string, pat: string, rep: string): (r: string)
    ensures !Occurs(s, pat) ==> r == s
    ensures Occurs(s, pat) ==>
      exists i: nat :: OccursAt(s, pat, i) && (forall j: nat :: j < i ==> !OccursAt(s, pat, j))
                       && r == s[..i] + rep + s[i + |pat|..]
  {
    match IndexOf(s, pat)
    case None => s
    case Some(i) => s[..i] + rep + s[i + |pat|..]
  }

  /** When the block starts with the pattern, removing its first occurrence removes exactly the prefix. */
  lemma ReplaceFirstPrefix(s: string, pat: string)
    requires StartsWith(s, pat)
    ensures ReplaceFirst(s, pat, "") == s[|pat|..]
    ensures pat + ReplaceFirst(s, pat, "") == s
  {
    assert OccursAt(s, pat, 0);
    assert IndexOf(s, pat) == Some(0);
  }

  // ---------------------------------------------------------------------------
  // split with a non-empty string separator
  // ---------------------------------------------------------------------------

  /**
   * `s.split(sep)`: cuts `s` at every occurrence of `sep`, scanning left to right
   * without overlap. The result is never empty (`"".split(sep)` is `[""]`).
   */
  function Split(s: string, sep: string): (r: seq<string>)
    requires |sep| > 0
    ensures |r| >= 1
    decreases |s|
  {
    if |s| < |sep| then [s]
    else if s[..|sep|] == sep then [""] + Split(s[|sep|..], sep)
    else
      var rest := Split(s[1..], sep);
      [[s[0]] + rest[0]] + rest[1..]
  }

  /** `parts.join(sep)` */
  function Join(parts: seq<string>, sep: string): string
    requires |parts| >= 1
    decreases |parts|
  {
    if |parts| == 1 then parts[0] else parts[0] + sep + Join(parts[1..], sep)
  }

  /** `Array.prototype.join`: an empty array joins to the empty string. */
  function JoinAll(parts: seq<string>, sep: string): (r: string)
    ensures |parts| >= 1 ==> StartsWith(r, parts[0])
    ensures parts == [] ==> r == []
  {
    if parts == [] then [] else Join(parts, sep)
  }

  lemma JoinConsHead(x: string, y: string, tail: seq<string>, sep: string)
    ensures Join([x + y] + tail, sep) == x + Join([y] + tail, sep)
  {
    assert ([x + y] + tail)[1..] == tail;
    assert ([y] + tail)[1..] == tail;
  }

  /** Splitting loses nothing: joining the pieces back with the separator gives the input. */
  lemma {:induction false} JoinSplit(s: string, sep: string)
    requires |sep| > 0
    ensures Join(Split(s, sep), sep) == s
    decreases |s|
  {
    if |s| < |sep| {
    } else if s[..|sep|] == sep {
      var rest := Split(s[|sep|..], sep);
      JoinSplit(s[|sep|..], sep);
      assert ([""] + rest)[1..] == rest;
      assert s == sep + s[|sep|..];
    } else {
      var rest := Split(s[1..], sep);
      JoinSplit(s[1..], sep);
      JoinConsHead([s[0]], rest[0], rest[1..], sep);
      assert [rest[0]] + rest[1..] == rest;
      assert s == [s[0]] + s[1..];
    }
  }

  lemma {:induction false} SplitHeadIsPrefix(s: string, sep: string)
    requires |sep| > 0
    ensures StartsWith(s, Split(s, sep)[0])
    decreases |s|
  {
    if |s| < |sep| {
    } else if s[..|sep|] == sep {
    } else {
      SplitHeadIsPrefix(s[1..], sep);
    }
  }

  /** No piece of a split contains the separator. */
  lemma {:induction false} SplitPiecesAvoidSeparator(s: string, sep: string)
    requires |sep| > 0
    ensures forall k :: 0 <= k < |Split(s, sep)| ==> !Occurs(Split(s, sep)[k], sep)
    decreases |s|
  {
    var r := Split(s, sep);
    if |s| < |sep| {
      assert r == [s];
    } else if s[..|sep|] == sep {
      SplitPiecesAvoidSeparator(s[|sep|..], sep);
      var rest := Split(s[|sep|..], sep);
      assert r == [""] + rest;
      forall k | 0 <= k < |r| ensures !Occurs(r[k], sep) {
        if k > 0 { assert r[k] == rest[k - 1]; }
      }
    } else {
      var rest := Split(s[1..], sep);
      SplitPiecesAvoidSeparator(s[1..], sep);
      SplitHeadIsPrefix(s[1..], sep);
      var head := [s[0]] + rest[0];
      assert r == [head] + rest[1..];
      forall i: nat | OccursAt(head, sep, i) ensures false {
        if i > 0 {
          assert head[i..i + |sep|] == rest[0][i - 1..i - 1 + |sep|];
          assert OccursAt(rest[0], sep, i - 1);
        }
      }
      forall k | 0 <= k < |r| ensures !Occurs(r[k], sep) {
        if k > 0 { assert r[k] == rest[k]; }
      }
    }
  }

  /** A string without the separator splits into itself alone. */
  lemma {:induction false} SplitWithoutSeparator(s: string, sep: string)
    requires |sep| > 0
    requires !Occurs(s, sep)
    ensures Split(s, sep) == [s]
    decreases |s|
  {
    if |s| < |sep| {
    } else {
      assert !OccursAt(s, sep, 0);
      forall i: nat | OccursAt(s[1..], sep, i) ensures false {
        assert s[1..][i..i + |sep|] == s[i + 1..i + 1 + |sep|];
        assert OccursAt(s, sep, i + 1);
      }
      SplitWithoutSeparator(s[1..], sep);
      assert [s[0]] + s[1..] == s;
    }
  }

  /** Splitting at the leftmost occurrence of the separator peels off the text before it. */
  lemma {:induction false} SplitAtFirst(a: string, sep: string, b: string)
    requires |sep| > 0
    requires forall i: nat :: i < |a| ==> !OccursAt(a + sep + b, sep, i)
    ensures Split(a + sep + b, sep) == [a] + Split(b, sep)
    decreases |a|
  {
    var s := a + sep + b;
    if a == [] {
      assert s[..|sep|] == sep;
      assert s[|sep|..] == b;
    } else {
      assert !OccursAt(s, sep, 0);
      assert s[1..] == a[1..] + sep + b;
      forall i: nat | i < |a[1..]| ensures !OccursAt(s[1..], sep, i) {
        assert !OccursAt(s, sep, i + 1);
        if i + |sep| <= |s[1..]| {
          assert s[1..][i..i + |sep|] == s[i + 1..i + 1 + |sep|];
        }
      }
      SplitAtFirst(a[1..], sep, b);
      assert [s[0]] + a[1..] == a;
    }
  }

  /** Splitting on one character at its first occurrence peels off the text before it. */
  lemma {:induction false} SplitAtFirstChar(a: string, c: char, b: string)
    requires c !in a
    ensures Split(a + [c] + b, [c]) == [a] + Split(b, [c])
    decreases |a|
  {
    var s := a + [c] + b;
    if a == [] {
      assert s[..1] == [c];
      assert s[1..] == b;
    } else {
      assert s[..1] != [c] by { assert s[0] == a[0]; }
      assert s[1..] == a[1..] + [c] + b;
      SplitAtFirstChar(a[1..], c, b);
      assert [s[0]] + a[1..] == a;
    }
  }

  lemma CharAbsentNoOccurrence(s: string, c: char)
    requires c !in s
    ensures !Occurs(s, [c])
  {
    forall i: nat ensures !OccursAt(s, [c], i) {
      if i + 1 <= |s| {
        assert s[i..i + 1][0] == s[i];
      }
    }
  }

  /**
   * Splitting a join whose leading pieces avoid the one-character separator gives those
   * pieces back, followed by the split of the last piece.
   */
  lemma {:induction false} SplitJoinThenLast(parts: seq<string>, last: string, c: char)
    requires forall i :: 0 <= i < |parts| ==> c !in parts[i]
    ensures Split(Join(parts + [last], [c]), [c]) == parts + Split(last, [c])
    decreases |parts|
  {
    if parts != [] {
      var rest := parts[1..] + [last];
      assert (parts + [last])[1..] == rest;
      SplitJoinThenLast(parts[1..], last, c);
      SplitAtFirstChar(parts[0], c, Join(rest, [c]));
      assert [parts[0]] + parts[1..] == parts;
    }
  }

  /** Joining pieces that do not contain the one-character separator, then splitting, gives the pieces back. */
  lemma {:induction false} SplitJoinChar(parts: seq<string>, c: char)
    requires |parts| >= 1
    requires forall i :: 0 <= i < |parts| ==> c !in parts[i]
    ensures Split(Join(parts, [c]), [c]) == parts
    decreases |parts|
  {
    if |parts| == 1 {
      CharAbsentNoOccurrence(parts[0], c);
      SplitWithoutSeparator(parts[0], [c]);
    } else {
      SplitJoinChar(parts[1..], c);
      SplitAtFirstChar(parts[0], c, Join(parts[1..], [c]));
      assert [parts[0]] + parts[1..] == parts;
    }
  }

  // ---------------------------------------------------------------------------
  // The values form controls hand to their change handlers
  // ---------------------------------------------------------------------------

  predicate IsNewline(c: char) {
    c == '\n' || c == '\r'
  }

  /** A single-line input's value sanitisation: every line feed and carriage return removed. */
  function StripNewlines(s: string): (r: string)
    ensures |r| <= |s|
    ensures NoNewline(r)
  {
    if s == [] then []
    else (if IsNewline(s[0]) then [] else [s[0]]) + StripNewlines(s[1..])
  }

  predicate NoNewline(s: string) {
    forall i :: 0 <= i < |s| ==> !IsNewline(s[i])
  }

  lemma {:induction false} StripNewlinesKeeps(s: string)
    requires NoNewline(s)
    ensures StripNewlines(s) == s
  {
    if s != [] {
      StripNewlinesKeeps(s[1..]);
      assert [s[0]] + s[1..] == s;
    }
  }

  predicate NoCarriageReturn(s: string) {
    forall i :: 0 <= i < |s| ==> s[i] != '\r'
  }

  /** A textarea's value: each CRLF pair and each lone CR becomes LF. */
  function NormalizeNewlines(s: string): (r: string)
    ensures |r| <= |s|
    ensures NoCarriageReturn(r)
    decreases |s|
  {
    if s == [] then []
    else if s[0] == '\r' && |s| >= 2 && s[1] == '\n' then "\n" + NormalizeNewlines(s[2..])
    else if s[0] == '\r' then "\n" + NormalizeNewlines(s[1..])
    else [s[0]] + NormalizeNewlines(s[1..])
  }

  /** Text without a carriage return is already normalised. */
  lemma {:induction false} NormalizeNewlinesKeeps(s: string)
    requires NoCarriageReturn(s)
    ensures NormalizeNewlines(s) == s
    decreases |s|
  {
    if s != [] {
      NormalizeNewlinesKeeps(s[1..]);
      assert [s[0]] + s[1..] == s;
    }
  }

  // ---------------------------------------------------------------------------
  // trim
  // ---------------------------------------------------------------------------

  /** ECMAScript WhiteSpace (including the Zs category) and LineTerminator code points. */
  predicate IsJsWhitespace(c: char) {
    c == '\t' || c == '\n' || c == '\U{000B}' || c == '\U{000C}' || c == '\r' || c == ' '
    || c == '\U{00A0}' || c == '\U{1680}' || ('\U{2000}' <= c <= '\U{200A}')
    || c == '\U{2028}' || c == '\U{2029}' || c == '\U{202F}' || c == '\U{205F}'
    || c == '\U{3000}' || c == '\U{FEFF}'
  }

  predicate AllWhitespace(s: string) {
    forall i :: 0 <= i < |s| ==> IsJsWhitespace(s[i])
  }

  function TrimStart(s: string): string
    decreases |s|
  {
    if |s| > 0 && IsJsWhitespace(s[0]) then TrimStart(s[1..]) else s
  }

  function TrimEnd(s: string): string
    decreases |s|
  {
    if |s| > 0 && IsJsWhitespace(s[|s| - 1]) then TrimEnd(s[..|s| - 1]) else s
  }

  /** `s.trim()` */
  function Trim(s: string): string {
    TrimEnd(TrimStart(s))
  }

  lemma {:induction false} TrimStartShape(s: string)
    ensures TrimStart(s) == [] <==> AllWhitespace(s)
    ensures TrimStart(s) != [] ==> !IsJsWhitespace(TrimStart(s)[0])
    decreases |s|
  {
    if |s| > 0 && IsJsWhitespace(s[0]) {
      TrimStartShape(s[1..]);
      assert AllWhitespace(s) <==> AllWhitespace(s[1..]) by {
        if AllWhitespace(s[1..]) {
          forall i | 0 <= i < |s| ensures IsJsWhitespace(s[i]) {
            if i > 0 { assert s[i] == s[1..][i - 1]; }
          }
        }
      }
    }
  }

  lemma {:induction false} TrimEndEmpty(s: string)
    ensures TrimEnd(s) == [] <==> AllWhitespace(s)
    decreases |s|
  {
    if |s| > 0 && IsJsWhitespace(s[|s| - 1]) {
      TrimEndEmpty(s[..|s| - 1]);
      assert AllWhitespace(s) <==> AllWhitespace(s[..|s| - 1]) by {
        if AllWhitespace(s[..|s| - 1]) {
          forall i | 0 <= i < |s| ensures IsJsWhitespace(s[i]) {
            if i < |s| - 1 { assert s[i] == s[..|s| - 1][i]; }
          }
        }
      }
    }
  }

  /** `!s.trim()` holds exactly for strings made only of whitespace (the empty string included). */
  lemma TrimEmptyIffBlank(s: string)
    ensures Trim(s) == [] <==> AllWhitespace(s)
  {
    TrimStartShape(s);
    var t := TrimStart(s);
    TrimEndEmpty(t);
    if t != [] { assert !AllWhitespace(t) by { assert !IsJsWhitespace(t[0]); } }
  }

  // ---------------------------------------------------------------------------
  // digits and decimal numbers
  // ---------------------------------------------------------------------------

  /** Regular-expression `\d`: the ASCII digits only. */
  predicate IsDigit(c: char) {
    '0' <= c <= '9'
  }

  function DigitChar(d: nat): (c: char)
    requires d < 10
    ensures IsDigit(c)
  {
    ('0' as int + d) as char
  }

  /** The decimal text of `n` that a template literal `${n}` produces. */
  function NatToString(n: nat): (r: string)
    ensures |r| >= 1
    ensures forall i :: 0 <= i < |r| ==> IsDigit(r[i])
    ensures r[|r| - 1] == DigitChar(n % 10)
    ensures n >= 10 <==> |r| >= 2
  {
    if n < 10 then [DigitChar(n)] else NatToString(n / 10) + [DigitChar(n % 10)]
  }

  /** Distinct numbers have distinct decimal texts. */
  lemma {:induction false} NatToStringInjective(m: nat, n: nat)
    requires NatToString(m) == NatToString(n)
    ensures m == n
  {
    var sm, sn := NatToString(m), NatToString(n);
    assert DigitChar(m % 10) == DigitChar(n % 10);
    assert m % 10 == n % 10;
    if m >= 10 && n >= 10 {
      assert sm[..|sm| - 1] == NatToString(m / 10);
      assert sn[..|sn| - 1] == NatToString(n / 10);
      NatToStringInjective(m / 10, n / 10);
    }
  }
}
