/**
 * The browser's `<input type="email">`, as the HTML Standard's email state defines it: the
 * value sanitisation applied to what is typed, and the "valid email address" grammar that
 * constraint validation checks before a form holding the input may submit.
 */
module Email {
  import opened Wrappers
  import opened Strings

  // ---------------------------------------------------------------------------
  // Value sanitisation: strip newlines, then strip leading and trailing ASCII whitespace
  // ---------------------------------------------------------------------------

  /** Tab, line feed, form feed, carriage return and space. */
  predicate IsAsciiWhitespace(c: char) {
    c == '\t' || c == '\n' || c == '\U{000C}' || c == '\r' || c == ' '
  }

  function StripLeading(s: string): (r: string)
    ensures |r| <= |s| && r == s[|s| - |r|..]
    ensures r == [] || !IsAsciiWhitespace(r[0])
    ensures NoNewline(s) ==> NoNewline(r)
  {
    if s != [] && IsAsciiWhitespace(s[0]) then StripLeading(s[1..]) else s
  }

  function StripTrailing(s: string): (r: string)
    ensures |r| <= |s| && r == s[..|r|]
    ensures r == [] || !IsAsciiWhitespace(r[|r| - 1])
    ensures NoNewline(s) ==> NoNewline(r)
  {
    if s != [] && IsAsciiWhitespace(s[|s| - 1]) then StripTrailing(s[..|s| - 1]) else s
  }

  /** A value the sanitisation leaves alone: no newline, no whitespace at either end. */
  predicate Sanitized(s: string) {
    NoNewline(s)
    && (s == [] || (!IsAsciiWhitespace(s[0]) && !IsAsciiWhitespace(s[|s| - 1])))
  }

  /** The input's value after the user types `v`: what `e.target.value` hands the handler. */
  function EmailValue(v: string): (r: string)
    ensures |r| <= |v|
    ensures Sanitized(r)
  {
    StripTrailing(StripLeading(StripNewlines(v)))
  }

  /** Sanitisation keeps exactly the sanitised values, so it is idempotent. */
  lemma EmailValueFixes(s: string)
    ensures EmailValue(s) == s <==> Sanitized(s)
    ensures EmailValue(EmailValue(s)) == EmailValue(s)
  {
    if Sanitized(s) {
      StripNewlinesKeeps(s);
    }
    var r := EmailValue(s);
    StripNewlinesKeeps(r);
  }

  // ---------------------------------------------------------------------------
  // A valid email address: 1*( atext / "." ) "@" label *( "." label )
  // ---------------------------------------------------------------------------

  predicate IsLetDig(c: char) {
    ('a' <= c <= 'z') || ('A' <= c <= 'Z') || ('0' <= c <= '9')
  }

  /** The characters allowed before the `@`, besides the dot. */
  predicate IsAText(c: char) {
    IsLetDig(c) || c in "!#$%&'*+-/=?^_`{|}~"
  }

  predicate IsLocalPart(s: string) {
    |s| >= 1 && forall i :: 0 <= i < |s| ==> IsAText(s[i]) || s[i] == '.'
  }

  /** One to 63 letters, digits and hyphens, starting and ending with a letter or digit. */
  predicate IsLabel(s: string) {
    1 <= |s| <= 63 && IsLetDig(s[0]) && IsLetDig(s[|s| - 1])
    && forall i :: 0 <= i < |s| ==> IsLetDig(s[i]) || s[i] == '-'
  }

  /** Labels separated by single dots. */
  predicate IsDomain(s: string)
    decreases |s|
  {
    match IndexOf(s, ".")
    case None => IsLabel(s)
    case Some(i) => IsLabel(s[..i]) && IsDomain(s[i + 1..])
  }

  /** The `typeMismatch` test of the email state: the part before the first `@` and the part after it. */
  predicate ValidEmail(s: string) {
    match IndexOf(s, "@")
    case None => false
    case Some(i) => IsLocalPart(s[..i]) && IsDomain(s[i + 1..])
  }

  /** `indexOf` of a one-character pattern finds its first occurrence. */
  lemma IndexOfChar(s: string, c: char, k: nat)
    requires k < |s| && s[k] == c
    requires forall j :: 0 <= j < k ==> s[j] != c
    ensures IndexOf(s, [c]) == Some(k)
  {
    assert OccursAt(s, [c], k);
    forall j: nat | j < k
      ensures !OccursAt(s, [c], j)
    {
      assert s[j..j + 1][0] == s[j];
    }
  }

  lemma IndexOfAbsentChar(s: string, c: char)
    requires forall j :: 0 <= j < |s| ==> s[j] != c
    ensures IndexOf(s, [c]).None?
  {
    forall j: nat
      ensures !OccursAt(s, [c], j)
    {
      if j + 1 <= |s| {
        assert s[j..j + 1][0] == s[j];
      }
    }
  }

  lemma {:induction false} DomainCharacters(s: string)
    requires IsDomain(s)
    ensures forall i :: 0 <= i < |s| ==> IsLetDig(s[i]) || s[i] == '-' || s[i] == '.'
    decreases |s|
  {
    match IndexOf(s, ".")
    case None =>
    case Some(k) =>
      DomainCharacters(s[k + 1..]);
      assert forall i :: k < i < |s| ==> s[i] == s[k + 1..][i - k - 1];
  }

  /** The part before the first `@` holds no `@`. */
  lemma LocalPartBeforeAt(s: string, k: nat)
    requires IndexOf(s, "@") == Some(k)
    ensures k < |s| && s[k] == '@'
    ensures forall i :: 0 <= i < k ==> s[i] != '@'
  {
    assert s[k..k + 1] == "@";
    forall i | 0 <= i < k
      ensures s[i] != '@'
    {
      assert !OccursAt(s, "@", i);
      assert s[i..i + 1] == [s[i]];
    }
  }

  /** A domain is never empty and holds only letters, digits, hyphens and dots. */
  lemma DomainShape(d: string)
    requires IsDomain(d)
    ensures |d| >= 1
    ensures forall i :: 0 <= i < |d| ==> d[i] != '@' && !IsAsciiWhitespace(d[i])
  {
    DomainCharacters(d);
    match IndexOf(d, ".")
    case None =>
    case Some(m) =>
  }

  lemma WithoutWhitespaceSanitized(s: string)
    requires forall i :: 0 <= i < |s| ==> !IsAsciiWhitespace(s[i])
    ensures EmailValue(s) == s
  {
    assert Sanitized(s);
    EmailValueFixes(s);
  }

  /** Around its first `@`, an address whose domain part is a domain has no other `@` and no whitespace. */
  lemma SplitAtFirstAt(s: string, k: nat)
    requires IndexOf(s, "@") == Some(k) && IsDomain(s[k + 1..])
    ensures 0 <= k < |s| - 1 && s[k] == '@'
    ensures forall i :: 0 <= i < |s| && i != k ==> s[i] != '@'
    ensures forall i :: k < i < |s| ==> !IsAsciiWhitespace(s[i])
  {
    LocalPartBeforeAt(s, k);
    var d := s[k + 1..];
    DomainShape(d);
    assert forall i :: k < i < |s| ==> s[i] == d[i - k - 1];
  }

  /**
   * A valid address has exactly one `@`, with a non-empty local part before it and a domain
   * after it, and holds no whitespace, so the sanitisation leaves it unchanged.
   */
  lemma ValidEmailShape(s: string)
    requires ValidEmail(s)
    ensures exists k :: 0 < k < |s| - 1 && s[k] == '@' && IsLocalPart(s[..k]) && IsDomain(s[k + 1..])
    ensures forall i, j :: 0 <= i < |s| && 0 <= j < |s| && s[i] == '@' && s[j] == '@' ==> i == j
    ensures forall i :: 0 <= i < |s| ==> !IsAsciiWhitespace(s[i])
    ensures EmailValue(s) == s
  {
    var k := IndexOf(s, "@").value;
    SplitAtFirstAt(s, k);
    assert forall i :: 0 <= i < k ==> s[i] == s[..k][i];
    WithoutWhitespaceSanitized(s);
  }

  /** An address split at an `@` absent from its local part is valid exactly when both parts are. */
  lemma ValidEmailParts(local: string, domain: string)
    requires forall i :: 0 <= i < |local| ==> local[i] != '@'
    ensures ValidEmail(local + "@" + domain) <==> IsLocalPart(local) && IsDomain(domain)
  {
    var s := local + "@" + domain;
    IndexOfChar(s, '@', |local|);
    assert s[..|local|] == local;
    assert s[|local| + 1..] == domain;
  }

  lemma DomainOfTwoLabels(a: string, b: string)
    requires IsLabel(a) && IsLabel(b)
    ensures IsDomain(a + "." + b)
  {
    var d := a + "." + b;
    IndexOfChar(d, '.', |a|);
    assert d[..|a|] == a && d[|a| + 1..] == b;
    IndexOfAbsentChar(b, '.');
  }

  /** A local part, an `@` and a two-label domain make a valid address. */
  lemma TwoLabelAddress(local: string, a: string, b: string)
    requires IsLocalPart(local) && IsLabel(a) && IsLabel(b)
    ensures ValidEmail(local + "@" + (a + "." + b))
  {
    assert forall i :: 0 <= i < |local| ==> local[i] != '@';
    DomainOfTwoLabels(a, b);
    ValidEmailParts(local, a + "." + b);
  }

  /** The site's own address passes. */
  lemma SiteAddressValid()
    ensures ValidEmail("contact@codmek.com")
  {
    var l, a, b := "contact", "codmek", "com";
    assert IsLocalPart(l) && IsLabel(a) && IsLabel(b);
    TwoLabelAddress(l, a, b);
    assert l + "@" + (a + "." + b) == "contact@codmek.com";
  }

  /** A bare word and a domain with an empty label do not. */
  lemma MalformedAddresses()
    ensures !ValidEmail("abc")
    ensures !ValidEmail("a@b..com")
  {
    IndexOfAbsentChar("abc", '@');
    var e := "b..com";
    ValidEmailParts("a", e);
    assert "a" + "@" + e == "a@b..com";
    IndexOfChar(e, '.', 1);
    var rest := e[2..];
    assert rest == ".com";
    IndexOfChar(rest, '.', 0);
  }
}
