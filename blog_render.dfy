/**
 * The article page's markdown-like renderer. A body is cut into blocks at every blank line
 * (`"\n\n"`); each block is classified by its prefix alone as a level-2 heading, a level-3
 * heading, a numbered list, a bullet list or a paragraph; list items and paragraphs then get
 * the inline rewrite of `**x**` into `<strong>` and `*x*` into `<em>`. This is not CommonMark:
 * a heading keeps every later line of its block, and a block whose first line is prose stays
 * one paragraph whatever its later lines look like.
 */
module BlogRender {
  import opened Wrappers
  import opened Strings
  import opened BlogData

  // ---------------------------------------------------------------------------
  // Inline formatting: the global, lazy patterns /\*\*(.+?)\*\*/g and /\*(.+?)\*/g
  // ---------------------------------------------------------------------------

  const StrongOpen: string := "<strong class=\"text-foreground/90 " + "font-semibold\">"
  const StrongClose: string := "</strong>"
  const EmOpen: string := "<em>"
  const EmClose: string := "</em>"

  /** The characters a regular-expression `.` does not match. */
  predicate IsLineTerminator(c: char) {
    c == '\n' || c == '\r' || c == '\U{2028}' || c == '\U{2029}'
  }

  predicate NoLineTerminator(s: string) {
    forall j :: 0 <= j < |s| ==> !IsLineTerminator(s[j])
  }

  /**
   * With `d` at the head of `s`, a span of `m` characters can be closed: they are all matched
   * by `.`, and `d` follows them.
   */
  predicate SpanAt(s: string, d: string, m: nat) {
    1 <= m && OccursAt(s, d, |d| + m) && forall j :: |d| <= j < |d| + m ==> !IsLineTerminator(s[j])
  }

  /**
   * The lazy `(.+?)` searching for the closing delimiter: content lengths are tried from `k`
   * upwards, and the search gives up at the first character `.` cannot match.
   */
  function CloseFrom(s: string, d: string, k: nat): (r: Option<nat>)
    requires |d| > 0 && 1 <= k
    ensures r.Some? ==> k <= r.value && OccursAt(s, d, |d| + r.value)
    decreases |s| - k
  {
    if |d| + k > |s| then None
    else if IsLineTerminator(s[|d| + k - 1]) then None
    else if OccursAt(s, d, |d| + k) then Some(k)
    else CloseFrom(s, d, k + 1)
  }

  /** The search finds the shortest closable span of at least `k` characters, if there is one. */
  lemma {:induction false} CloseFromMeaning(s: string, d: string, k: nat)
    requires |d| > 0 && 1 <= k
    requires forall j :: |d| <= j < |d| + k - 1 && j < |s| ==> !IsLineTerminator(s[j])
    ensures CloseFrom(s, d, k).Some? ==> SpanAt(s, d, CloseFrom(s, d, k).value)
    ensures CloseFrom(s, d, k).Some? ==> forall m :: k <= m < CloseFrom(s, d, k).value ==> !SpanAt(s, d, m)
    ensures CloseFrom(s, d, k).None? ==> forall m :: k <= m ==> !SpanAt(s, d, m)
    decreases |s| - k
  {
    if |d| + k > |s| {
      forall m | k <= m ensures !SpanAt(s, d, m) {
        assert !OccursAt(s, d, |d| + m);
      }
    } else if IsLineTerminator(s[|d| + k - 1]) {
      forall m | k <= m ensures !SpanAt(s, d, m) {
        assert |d| <= |d| + k - 1 < |d| + m;
      }
    } else if OccursAt(s, d, |d| + k) {
    } else {
      assert !SpanAt(s, d, k);
      CloseFromMeaning(s, d, k + 1);
      var r := CloseFrom(s, d, k + 1);
      assert CloseFrom(s, d, k) == r;
      if r.Some? {
        forall m | k <= m < r.value ensures !SpanAt(s, d, m) {
          if m != k { assert k + 1 <= m; }
        }
      } else {
        forall m | k <= m ensures !SpanAt(s, d, m) {
          if m != k { assert k + 1 <= m; }
        }
      }
    }
  }

  /** The length of the shortest span closed after an opening `d` at the head of `s`. */
  function Close(s: string, d: string): (r: Option<nat>)
    requires |d| > 0
    ensures r.Some? ==> 1 <= r.value && |d| + r.value + |d| <= |s|
  {
    CloseFrom(s, d, 1)
  }

  /** `Close` is the lazy `(.+?)`: the shortest span whose characters `.` matches and after which `d` follows. */
  lemma CloseMeaning(s: string, d: string)
    requires |d| > 0
    ensures Close(s, d).Some? ==> SpanAt(s, d, Close(s, d).value)
                                  && forall m :: 1 <= m < Close(s, d).value ==> !SpanAt(s, d, m)
    ensures Close(s, d).None? <==> forall m :: !SpanAt(s, d, m)
  {
    CloseFromMeaning(s, d, 1);
  }

  /**
   * `s.replace(/d(.+?)d/g, open + "$1" + close)`: scanning left to right, a match is taken at
   * the first position where one exists and scanning resumes after it.
   */
  function ReplaceSpans(s: string, d: string, open: string, close: string): string
    requires |d| > 0
    decreases |s|
  {
    if s == [] then []
    else if StartsWith(s, d) && Close(s, d).Some? then
      var m := Close(s, d).value;
      open + s[|d|..|d| + m] + close + ReplaceSpans(s[|d| + m + |d|..], d, open, close)
    else [s[0]] + ReplaceSpans(s[1..], d, open, close)
  }

  /** `formatInline`: bold first, then italic; no character is HTML-escaped. */
  function FormatInline(text: string): string {
    ReplaceSpans(ReplaceSpans(text, "**", StrongOpen, StrongClose), "*", EmOpen, EmClose)
  }

  /** Where the delimiter never occurs, the text comes through unchanged. */
  lemma {:induction false} ReplaceSpansNoDelimiter(s: string, d: string, open: string, close: string)
    requires |d| > 0
    requires forall i: nat :: !OccursAt(s, d, i)
    ensures ReplaceSpans(s, d, open, close) == s
    decreases |s|
  {
    if s != [] {
      assert !StartsWith(s, d) by { assert !OccursAt(s, d, 0); }
      forall i: nat ensures !OccursAt(s[1..], d, i) {
        assert !OccursAt(s, d, i + 1);
        if i + |d| <= |s[1..]| {
          assert s[1..][i..i + |d|] == s[i + 1..i + 1 + |d|];
        }
      }
      ReplaceSpansNoDelimiter(s[1..], d, open, close);
      assert [s[0]] + s[1..] == s;
    }
  }

  lemma NoStarNoOccurrence(s: string, d: string)
    requires |d| > 0 && d[0] == '*' && '*' !in s
    ensures forall i: nat :: !OccursAt(s, d, i)
  {
    forall i: nat ensures !OccursAt(s, d, i) {
      if i + |d| <= |s| {
        assert s[i..i + |d|][0] == s[i];
      }
    }
  }

  /** Text without `*` is returned verbatim, markup characters included. */
  lemma FormatInlineWithoutStar(s: string)
    requires '*' !in s
    ensures FormatInline(s) == s
  {
    NoStarNoOccurrence(s, "**");
    ReplaceSpansNoDelimiter(s, "**", StrongOpen, StrongClose);
    NoStarNoOccurrence(s, "*");
    ReplaceSpansNoDelimiter(s, "*", EmOpen, EmClose);
  }

  /** One span `d t d` at the head, with `t` free of line terminators and of `d`'s first character. */
  lemma ReplaceSpansHead(d: string, t: string, rest: string, open: string, close: string)
    requires |d| > 0 && |t| >= 1
    requires NoLineTerminator(t) && d[0] !in t
    ensures ReplaceSpans(d + t + d + rest, d, open, close) == open + t + close + ReplaceSpans(rest, d, open, close)
  {
    var s := d + t + d + rest;
    assert StartsWith(s, d) by { assert s[..|d|] == d; }
    assert Close(s, d) == Some(|t|) by { CloseOfHeadSpan(d, t, rest); }
    assert s[|d|..|d| + |t|] == t;
    assert s[|d| + |t| + |d|..] == rest;
    ReplaceSpansTakesSpan(s, d, open, close, t, rest);
  }

  /** One step of the scan when a span opens at the head: a closable span `t` is replaced, and the scan resumes with `rest` after its closing delimiter. */
  lemma ReplaceSpansTakesSpan(s: string, d: string, open: string, close: string, t: string, rest: string)
    requires |d| > 0 && StartsWith(s, d) && Close(s, d) == Some(|t|)
    requires s[|d|..|d| + |t|] == t && s[|d| + |t| + |d|..] == rest
    ensures ReplaceSpans(s, d, open, close) == open + t + close + ReplaceSpans(rest, d, open, close)
  {
  }

  lemma CloseOfHeadSpan(d: string, t: string, rest: string)
    requires |d| > 0 && |t| >= 1
    requires NoLineTerminator(t) && d[0] !in t
    ensures Close(d + t + d + rest, d) == Some(|t|)
  {
    var s := d + t + d + rest;
    assert s[|d| + |t|..|d| + |t| + |d|] == d;
    assert SpanAt(s, d, |t|) by {
      forall j | |d| <= j < |d| + |t| ensures !IsLineTerminator(s[j]) {
        assert s[j] == t[j - |d|];
      }
    }
    forall m | 1 <= m < |t| ensures !SpanAt(s, d, m) {
      assert s[|d| + m] == t[m];
      assert s[|d| + m..|d| + m + |d|][0] == t[m];
    }
    CloseMeaning(s, d);
  }

  /** `**t**` becomes a `<strong>` element around `t`. */
  lemma FormatInlineBold(t: string)
    requires |t| >= 1 && NoLineTerminator(t) && '*' !in t
    ensures FormatInline("**" + t + "**") == StrongOpen + t + StrongClose
  {
    var bold := StrongOpen + t + StrongClose;
    ReplaceSpansHead("**", t, "", StrongOpen, StrongClose);
    assert "**" + t + "**" + "" == "**" + t + "**";
    assert ReplaceSpans("", "**", StrongOpen, StrongClose) == "";
    assert ReplaceSpans("**" + t + "**", "**", StrongOpen, StrongClose) == bold;
    TagsStarFree();
    assert '*' !in bold;
    FormatInlineStarFree(bold);
  }

  /** `*t*` becomes an `<em>` element around `t`. */
  lemma FormatInlineItalic(t: string)
    requires |t| >= 1 && NoLineTerminator(t) && '*' !in t
    ensures FormatInline("*" + t + "*") == EmOpen + t + EmClose
  {
    var s := "*" + t + "*";
    forall i: nat ensures !OccursAt(s, "**", i) {
      if i + 2 <= |s| {
        if i == 0 { assert s[i..i + 2][1] == t[0]; } else { assert s[i..i + 2][0] == t[i - 1]; }
      }
    }
    ReplaceSpansNoDelimiter(s, "**", StrongOpen, StrongClose);
    ReplaceSpansHead("*", t, "", EmOpen, EmClose);
    assert "*" + t + "*" + "" == s;
  }

  lemma TagsStarFree()
    ensures '*' !in StrongOpen && '*' !in StrongClose && '*' !in EmOpen && '*' !in EmClose
  {
    assert '*' !in "<strong class=\"text-foreground/90 ";
    assert '*' !in "font-semibold\">";
  }

  lemma FormatInlineStarFree(s: string)
    requires '*' !in s
    ensures ReplaceSpans(s, "*", EmOpen, EmClose) == s
  {
    NoStarNoOccurrence(s, "*");
    ReplaceSpansNoDelimiter(s, "*", EmOpen, EmClose);
  }

  /**
   * Four stars: `**` never closes (its span would need two more stars), so the italic pass
   * takes the shortest span, one star, and leaves the last star alone.
   */
  lemma FormatInlineFourStars()
    ensures FormatInline("****") == "<em>*</em>*"
  {
    var s := "****";
    assert Close(s, "**") == None by {
      forall m ensures !SpanAt(s, "**", m) { }
    }
    assert Close(s[1..], "**") == None by {
      forall m ensures !SpanAt(s[1..], "**", m) { }
    }
    assert Close(s[2..], "**") == None by {
      forall m ensures !SpanAt(s[2..], "**", m) { }
    }
    assert ReplaceSpans(s[3..], "**", StrongOpen, StrongClose) == "*";
    assert ReplaceSpans(s, "**", StrongOpen, StrongClose) == s;
    assert Close(s, "*") == Some(1);
    assert s[3..] == "*";
    assert Close("*", "*") == None;
  }

  // ---------------------------------------------------------------------------
  // Spans stay on their line
  // ---------------------------------------------------------------------------

  /**
   * While the span being extended has not reached the end of `x`, the closing search sees the
   * same characters in `x` and in `x + [t] + y`; once it reaches `t`, both searches fail.
   */
  lemma {:induction false} CloseFromStopsAtTerminator(x: string, t: char, y: string, d: string, k: nat)
    requires |d| > 0 && 1 <= k && |d| + k - 1 <= |x| && IsLineTerminator(t) && NoLineTerminator(d)
    requires forall j :: |d| <= j < |d| + k - 1 ==> !IsLineTerminator(x[j])
    ensures CloseFrom(x + [t] + y, d, k) == CloseFrom(x, d, k)
    decreases |x| - k
  {
    var s := x + [t] + y;
    assert forall j :: 0 <= j < |x| ==> s[j] == x[j];
    if |d| + k - 1 == |x| {
      assert s[|d| + k - 1] == t;
    } else {
      assert s[|d| + k - 1] == x[|d| + k - 1];
      if |d| + k + |d| <= |x| {
        assert s[|d| + k..|d| + k + |d|] == x[|d| + k..|d| + k + |d|];
      } else if |d| + k + |d| <= |s| {
        assert s[|d| + k..|d| + k + |d|][|x| - |d| - k] == t;
        assert !IsLineTerminator(d[|x| - |d| - k]);
      }
      if !IsLineTerminator(x[|d| + k - 1]) && !OccursAt(x, d, |d| + k) {
        CloseFromStopsAtTerminator(x, t, y, d, k + 1);
      }
    }
  }

  lemma StartsWithAcrossTerminator(x: string, t: char, y: string, d: string)
    requires IsLineTerminator(t) && NoLineTerminator(d)
    ensures StartsWith(x + [t] + y, d) <==> StartsWith(x, d)
  {
    var s := x + [t] + y;
    if |d| <= |x| {
      assert s[..|d|] == x[..|d|];
    } else if |d| <= |s| {
      assert s[..|d|][|x|] == t;
      assert !IsLineTerminator(d[|x|]);
    }
  }

  /** One step of the scan when no span opens at the head. */
  lemma ReplaceSpansCopiesHead(s: string, d: string, open: string, close: string)
    requires |d| > 0 && s != [] && !(StartsWith(s, d) && Close(s, d).Some?)
    ensures ReplaceSpans(s, d, open, close) == [s[0]] + ReplaceSpans(s[1..], d, open, close)
  {
  }

  /**
   * No span crosses a line break: rewriting text around a line terminator is rewriting each
   * side on its own.
   */
  lemma {:induction false} ReplaceSpansAroundTerminator(x: string, t: char, y: string, d: string, open: string, close: string)
    requires |d| > 0 && IsLineTerminator(t) && NoLineTerminator(d)
    ensures ReplaceSpans(x + [t] + y, d, open, close)
            == ReplaceSpans(x, d, open, close) + [t] + ReplaceSpans(y, d, open, close)
    decreases |x|
  {
    var s := x + [t] + y;
    StartsWithAcrossTerminator(x, t, y, d);
    if x == [] {
      assert s[1..] == y;
      ReplaceSpansCopiesHead(s, d, open, close);
    } else {
      if StartsWith(x, d) {
        CloseFromStopsAtTerminator(x, t, y, d, 1);
      }
      if StartsWith(x, d) && Close(x, d).Some? {
        var m := Close(x, d).value;
        var rest := x[|d| + m + |d|..];
        ReplaceSpansAroundTerminator(rest, t, y, d, open, close);
        SpanStepAroundTerminator(x, t, y, d, open, close, m);
      } else {
        ReplaceSpansAroundTerminator(x[1..], t, y, d, open, close);
        CopyStepAroundTerminator(x, t, y, d, open, close);
      }
    }
  }

  lemma SpanStepAroundTerminator(x: string, t: char, y: string, d: string, open: string, close: string, m: nat)
    requires |d| > 0 && StartsWith(x, d) && Close(x, d) == Some(m)
    requires StartsWith(x + [t] + y, d) && Close(x + [t] + y, d) == Some(m)
    requires ReplaceSpans(x[|d| + m + |d|..] + [t] + y, d, open, close)
             == ReplaceSpans(x[|d| + m + |d|..], d, open, close) + [t] + ReplaceSpans(y, d, open, close)
    ensures ReplaceSpans(x + [t] + y, d, open, close)
            == ReplaceSpans(x, d, open, close) + [t] + ReplaceSpans(y, d, open, close)
  {
    var head := open + x[|d|..|d| + m] + close;
    var rest := x[|d| + m + |d|..];
    SpanStepLeft(x, d, open, close, m);
    SpanStepWhole(x, t, y, d, open, close, m);
    Regroup(ReplaceSpans(x + [t] + y, d, open, close), ReplaceSpans(x, d, open, close),
            head, ReplaceSpans(rest, d, open, close), t, ReplaceSpans(y, d, open, close));
  }

  lemma SpanStepLeft(x: string, d: string, open: string, close: string, m: nat)
    requires |d| > 0 && StartsWith(x, d) && Close(x, d) == Some(m)
    ensures ReplaceSpans(x, d, open, close)
            == open + x[|d|..|d| + m] + close + ReplaceSpans(x[|d| + m + |d|..], d, open, close)
  {
    ReplaceSpansTakesSpan(x, d, open, close, x[|d|..|d| + m], x[|d| + m + |d|..]);
  }

  lemma SpanStepWhole(x: string, t: char, y: string, d: string, open: string, close: string, m: nat)
    requires |d| > 0 && StartsWith(x, d) && Close(x, d) == Some(m)
    requires StartsWith(x + [t] + y, d) && Close(x + [t] + y, d) == Some(m)
    ensures ReplaceSpans(x + [t] + y, d, open, close)
            == open + x[|d|..|d| + m] + close + ReplaceSpans(x[|d| + m + |d|..] + [t] + y, d, open, close)
  {
    var s := x + [t] + y;
    assert s[|d|..|d| + m] == x[|d|..|d| + m];
    assert s[|d| + m + |d|..] == x[|d| + m + |d|..] + [t] + y;
    ReplaceSpansTakesSpan(s, d, open, close, x[|d|..|d| + m], x[|d| + m + |d|..] + [t] + y);
  }

  lemma Regroup(whole: string, left: string, h: string, a: string, t: char, b: string)
    requires left == h + a && whole == h + (a + [t] + b)
    ensures whole == left + [t] + b
  {
  }

  lemma CopyStepAroundTerminator(x: string, t: char, y: string, d: string, open: string, close: string)
    requires |d| > 0 && x != []
    requires !(StartsWith(x, d) && Close(x, d).Some?)
    requires !(StartsWith(x + [t] + y, d) && Close(x + [t] + y, d).Some?)
    requires ReplaceSpans(x[1..] + [t] + y, d, open, close)
             == ReplaceSpans(x[1..], d, open, close) + [t] + ReplaceSpans(y, d, open, close)
    ensures ReplaceSpans(x + [t] + y, d, open, close)
            == ReplaceSpans(x, d, open, close) + [t] + ReplaceSpans(y, d, open, close)
  {
    var s := x + [t] + y;
    var tail := x[1..];
    assert s[1..] == tail + [t] + y;
    var rs := ReplaceSpans(s, d, open, close);
    var rx := ReplaceSpans(x, d, open, close);
    var a := ReplaceSpans(tail, d, open, close);
    var b := ReplaceSpans(y, d, open, close);
    assert rs == [s[0]] + ReplaceSpans(s[1..], d, open, close) by { ReplaceSpansCopiesHead(s, d, open, close); }
    assert rx == [x[0]] + a by { ReplaceSpansCopiesHead(x, d, open, close); }
    assert rs == [x[0]] + (a + [t] + b);
    Regroup(rs, rx, [x[0]], a, t, b);
  }

  /** `formatInline` treats the lines of its input independently. */
  lemma FormatInlineLineByLine(x: string, y: string)
    ensures FormatInline(x + "\n" + y) == FormatInline(x) + "\n" + FormatInline(y)
  {
    ReplaceSpansAroundTerminator(x, '\n', y, "**", StrongOpen, StrongClose);
    var bx := ReplaceSpans(x, "**", StrongOpen, StrongClose);
    var boldY := ReplaceSpans(y, "**", StrongOpen, StrongClose);
    ReplaceSpansAroundTerminator(bx, '\n', boldY, "*", EmOpen, EmClose);
  }

  // ---------------------------------------------------------------------------
  // Numbered-list prefix /^\d+\./ and the item rewrite /^\d+\.\s*/
  // ---------------------------------------------------------------------------

  /** The number of ASCII digits at the head of `s`. */
  function LeadingDigits(s: string): (n: nat)
    ensures n <= |s|
    ensures forall j :: 0 <= j < n ==> IsDigit(s[j])
    ensures n < |s| ==> !IsDigit(s[n])
  {
    if s != [] && IsDigit(s[0]) then 1 + LeadingDigits(s[1..]) else 0
  }

  /** `/^\d+\./.test(s)` */
  predicate NumberedPrefix(s: string) {
    var n := LeadingDigits(s);
    1 <= n < |s| && s[n] == '.'
  }

  /** The regular expression's own reading: one or more digits, then a dot. */
  lemma NumberedPrefixMeaning(s: string)
    ensures NumberedPrefix(s) <==>
            exists k :: 1 <= k < |s| && s[k] == '.' && forall j :: 0 <= j < k ==> IsDigit(s[j])
  {
    var n := LeadingDigits(s);
    if exists k :: 1 <= k < |s| && s[k] == '.' && forall j :: 0 <= j < k ==> IsDigit(s[j]) {
      var k :| 1 <= k < |s| && s[k] == '.' && forall j :: 0 <= j < k ==> IsDigit(s[j]);
      assert !IsDigit(s[k]);
      assert n < |s| ==> !IsDigit(s[n]);
      assert n == k;
    }
  }

  /** `item.replace(/^\d+\.\s*&#47;, "")`: the number, its dot and the whitespace after it go. */
  function StripNumber(line: string): (r: string)
    ensures NumberedPrefix(line) ==>
              exists k :: 1 <= k < |line| && line[k] == '.' && (forall j :: 0 <= j < k ==> IsDigit(line[j]))
                          && r == TrimStart(line[k + 1..])
    ensures !NumberedPrefix(line) ==> r == line
  {
    if NumberedPrefix(line) then
      var n := LeadingDigits(line);
      TrimStart(line[n + 1..])
    else line
  }

  lemma {:induction false} LeadingDigitsOfNumber(ds: string, tail: string)
    requires forall j :: 0 <= j < |ds| ==> IsDigit(ds[j])
    requires |tail| > 0 && !IsDigit(tail[0])
    ensures LeadingDigits(ds + tail) == |ds|
    decreases |ds|
  {
    if ds == [] {
      assert ds + tail == tail;
    } else {
      assert (ds + tail)[1..] == ds[1..] + tail;
      LeadingDigitsOfNumber(ds[1..], tail);
    }
  }

  /** An item written `n. text` loses its number, its dot and the whitespace after the dot. */
  lemma StripNumberOfNumberedLine(n: nat, rest: string)
    ensures StripNumber(NatToString(n) + "." + rest) == TrimStart(rest)
  {
    var ds := NatToString(n);
    var line := ds + "." + rest;
    assert line == ds + ("." + rest);
    LeadingDigitsOfNumber(ds, "." + rest);
    assert line[|ds|] == '.';
    assert line[|ds| + 1..] == rest;
  }

  // ---------------------------------------------------------------------------
  // Blocks
  // ---------------------------------------------------------------------------

  datatype Element =
    | H2(text: string)              // rendered as text, not through formatInline
    | H3(text: string)
    | OrderedList(items: seq<string>)
    | BulletList(items: seq<string>)
    | Paragraph(html: string)

  /** `filter(Boolean)`: the non-empty lines, in order. */
  function NonEmptyLines(lines: seq<string>): (r: seq<string>)
    ensures forall x :: x in r <==> x in lines && x != []
    ensures |r| <= |lines|
  {
    if lines == [] then []
    else (if lines[0] != [] then [lines[0]] else []) + NonEmptyLines(lines[1..])
  }

  /** `filter((l) => l.startsWith("- "))`: the bullet lines, in order. */
  function BulletLines(lines: seq<string>): (r: seq<string>)
    ensures forall x :: x in r <==> x in lines && StartsWith(x, "- ")
    ensures |r| <= |lines|
  {
    if lines == [] then []
    else (if StartsWith(lines[0], "- ") then [lines[0]] else []) + BulletLines(lines[1..])
  }

  /** A single line is kept on its own exactly when it is non-empty. */
  lemma NonEmptyLinesSingle(x: string)
    ensures NonEmptyLines([x]) == if x != [] then [x] else []
  {
    assert [x][1..] == [];
  }

  /** The filter distributes over concatenation, so kept lines keep their order and their repeats. */
  lemma {:induction false} NonEmptyLinesAppend(a: seq<string>, b: seq<string>)
    ensures NonEmptyLines(a + b) == NonEmptyLines(a) + NonEmptyLines(b)
    decreases |a|
  {
    if a == [] {
      assert a + b == b;
    } else {
      assert (a + b)[1..] == a[1..] + b;
      NonEmptyLinesAppend(a[1..], b);
    }
  }

  /** A single line is kept on its own exactly when it starts with the marker. */
  lemma BulletLinesSingle(x: string)
    ensures BulletLines([x]) == if StartsWith(x, "- ") then [x] else []
  {
    assert [x][1..] == [];
  }

  /** The filter distributes over concatenation, so kept lines keep their order and their repeats. */
  lemma {:induction false} BulletLinesAppend(a: seq<string>, b: seq<string>)
    ensures BulletLines(a + b) == BulletLines(a) + BulletLines(b)
    decreases |a|
  {
    if a == [] {
      assert a + b == b;
    } else {
      assert (a + b)[1..] == a[1..] + b;
      BulletLinesAppend(a[1..], b);
    }
  }

  /** The item texts of a numbered block: every non-empty line, number stripped. */
  function NumberedTexts(block: string): (texts: seq<string>)
    ensures var lines := NonEmptyLines(Split(block, "\n"));
            |texts| == |lines| && forall i :: 0 <= i < |lines| ==> texts[i] == StripNumber(lines[i])
  {
    var lines := NonEmptyLines(Split(block, "\n"));
    seq(|lines|, i requires 0 <= i < |lines| => StripNumber(lines[i]))
  }

  /** The item texts of a bullet block: every `- ` line, without the marker. */
  function BulletTexts(block: string): (texts: seq<string>)
    ensures var lines := BulletLines(Split(block, "\n"));
            |texts| == |lines|
            && forall i :: 0 <= i < |lines| ==> StartsWith(lines[i], "- ") && "- " + texts[i] == lines[i]
  {
    var lines := BulletLines(Split(block, "\n"));
    assert forall i :: 0 <= i < |lines| ==> lines[i] in lines;
    forall i | 0 <= i < |lines| ensures "- " + ReplaceFirst(lines[i], "- ", "") == lines[i] {
      ReplaceFirstPrefix(lines[i], "- ");
    }
    seq(|lines|, i requires 0 <= i < |lines| => ReplaceFirst(lines[i], "- ", ""))
  }

  /** Each item's text goes through `formatInline`. */
  function FormatItems(texts: seq<string>): (items: seq<string>)
    ensures |items| == |texts| && forall i :: 0 <= i < |texts| ==> items[i] == FormatInline(texts[i])
  {
    seq(|texts|, i requires 0 <= i < |texts| => FormatInline(texts[i]))
  }

  /** One block, classified by the first prefix that matches in the order `## `, `### `, number, `- `. */
  function RenderBlock(block: string): (e: Element)
    ensures e.H2? <==> StartsWith(block, "## ")
    ensures e.H3? <==> !StartsWith(block, "## ") && StartsWith(block, "### ")
    ensures e.OrderedList? <==> !StartsWith(block, "## ") && !StartsWith(block, "### ") && NumberedPrefix(block)
    ensures e.BulletList? <==>
              !StartsWith(block, "## ") && !StartsWith(block, "### ") && !NumberedPrefix(block) && StartsWith(block, "- ")
    ensures e.H2? ==> "## " + e.text == block
    ensures e.H3? ==> "### " + e.text == block
    ensures e.OrderedList? ==> e.items == FormatItems(NumberedTexts(block))
    ensures e.BulletList? ==> e.items == FormatItems(BulletTexts(block))
    ensures e.Paragraph? ==> e.html == FormatInline(block)
  {
    if StartsWith(block, "## ") then
      ReplaceFirstPrefix(block, "## ");
      H2(ReplaceFirst(block, "## ", ""))
    else if StartsWith(block, "### ") then
      ReplaceFirstPrefix(block, "### ");
      H3(ReplaceFirst(block, "### ", ""))
    else if NumberedPrefix(block) then OrderedList(FormatItems(NumberedTexts(block)))
    else if StartsWith(block, "- ") then BulletList(FormatItems(BulletTexts(block)))
    else Paragraph(FormatInline(block))
  }

  /** `renderContent`: one element per blank-line-separated block, in order. */
  function RenderContent(content: string): (r: seq<Element>)
    ensures var blocks := Split(content, "\n\n");
            |r| == |blocks| && forall i :: 0 <= i < |blocks| ==> r[i] == RenderBlock(blocks[i])
  {
    var blocks := Split(content, "\n\n");
    seq(|blocks|, i requires 0 <= i < |blocks| => RenderBlock(blocks[i]))
  }

  /** The blocks behind the rendered elements put back together are the whole body. */
  lemma RenderContentCoversBody(content: string)
    ensures |RenderContent(content)| == |Split(content, "\n\n")|
    ensures Join(Split(content, "\n\n"), "\n\n") == content
  {
    JoinSplit(content, "\n\n");
  }

  /** An item written `n. text` comes out as `text`, whatever the number. */
  lemma NumberedLine(n: nat, x: string)
    requires |x| > 0 && !IsJsWhitespace(x[0])
    ensures StripNumber(NatToString(n) + ". " + x) == x
  {
    assert NatToString(n) + ". " + x == NatToString(n) + "." + (" " + x);
    StripNumberOfNumberedLine(n, " " + x);
    assert (" " + x)[1..] == x;
  }

  /** Between two bullet lines, a line without the marker disappears from the list. */
  lemma BulletLinesDropOtherLines(x: string, note: string, y: string)
    requires !StartsWith(note, "- ")
    ensures BulletLines(["- " + x, note, "- " + y]) == ["- " + x, "- " + y]
  {
    var l1, l3 := "- " + x, "- " + y;
    assert l1[..2] == "- " && l3[..2] == "- ";
    assert BulletLines([l3]) == [l3];
    assert BulletLines([note, l3]) == [l3] by { assert [note, l3][1..] == [l3]; }
    assert [l1, note, l3][1..] == [note, l3];
  }

  /** A block whose first character opens none of the recognised prefixes is one paragraph. */
  lemma ProseFirstBlockIsParagraph(block: string)
    requires |block| > 0 && block[0] != '#' && block[0] != '-' && !IsDigit(block[0])
    ensures RenderBlock(block) == Paragraph(FormatInline(block))
  {
  }

  // ---------------------------------------------------------------------------
  // The article route
  // ---------------------------------------------------------------------------

  datatype Page =
    | Redirect(to: string)                          // <Navigate to="/blog" replace />
    | Article(post: BlogPost, body: seq<Element>)

  /**
   * The page for the route parameter `slug`: an absent or empty slug is falsy and looks
   * nothing up; a slug no post has redirects as well.
   */
  function BlogPostPage(posts: seq<BlogPost>, slug: Option<string>): (p: Page)
    ensures p.Redirect? <==>
              slug.None? || slug.value == [] || forall i :: 0 <= i < |posts| ==> posts[i].slug != slug.value
    ensures p.Redirect? ==> p.to == "/blog"
    ensures p.Article? ==> p.post.slug == slug.value && p.post in posts && p.body == RenderContent(p.post.content)
    ensures p.Article? ==> FindBySlug(posts, slug.value) == Some(p.post)
  {
    var post := if slug.Some? && slug.value != [] then FindBySlug(posts, slug.value) else None;
    match post
    case None => Redirect("/blog")
    case Some(found) => Article(found, RenderContent(found.content))
  }

  // ---------------------------------------------------------------------------
  // The shipped posts' sharp edges
  // ---------------------------------------------------------------------------

  /** A `### ` block is one `<h3>` holding everything after the marker, later lines included. */
  lemma H3KeepsLaterLines(heading: string, body: string)
    ensures RenderBlock("### " + heading + "\n" + body) == H3(heading + "\n" + body)
  {
    var block := "### " + heading + "\n" + body;
    assert block[2] == '#';
    assert block[..4] == "### ";
    assert block[4..] == heading + "\n" + body;
  }

  /** The shipped "Audit Before Deploy" heading keeps the sentence written under it. */
  lemma AuditHeadingAbsorbsBody()
    ensures RenderBlock(AuditBeforeDeployBlock) == H3(AuditHeading + "\n" + AuditBody)
  {
    H3KeepsLaterLines(AuditHeading, AuditBody);
  }

  /** The prose line in front of the four `- ` lines turns the whole block into one paragraph. */
  lemma ProseSwallowsBullets()
    ensures RenderBlock(ProductionNeedsBlock) == Paragraph(FormatInline(ProductionNeedsBlock))
  {
    assert ProductionNeedsBlock[0] == 'P';
  }
}
