/**
 * The contact page's form. A submit that passes the browser's constraint validation and has
 * every required field filled composes a `mailto:`
 * URI (RFC 6068, section 2) whose `subject` and `body` header values are percent-encoded,
 * navigates to it, and shows a busy state until a one-second timer clears it.
 */
module Contact {
  import opened Wrappers
  import opened Strings
  import opened Uri
  import opened Email

  datatype FormData = FormData(name: string, email: string, company: string, subject: string, message: string)

  const EmptyForm := FormData("", "", "", "", "")

  /** The values of the subject drop-down. */
  const SubjectOptions: seq<string> :=
    ["AI Consulting", "Software Development", "Research Partnership", "RaaS Inquiry",
     "Nexus Collaboration", "General Inquiry"]

  /** The inputs' `maxLength` caps and the drop-down's choices. */
  predicate WithinLimits(f: FormData) {
    |f.name| <= 100 && |f.email| <= 255 && |f.company| <= 100 && |f.message| <= 2000
    && (f.subject == "" || f.subject in SubjectOptions)
  }

  /** The guard of the submit handler: name, email, subject and message are all non-empty. */
  predicate Complete(f: FormData) {
    f.name != "" && f.email != "" && f.subject != "" && f.message != ""
  }

  /** `formData.company || "N/A"` */
  function CompanyOrNA(company: string): (r: string)
    ensures company != "" ==> r == company
    ensures company == "" ==> r == "N/A"
    ensures r != ""
  {
    if company == "" then "N/A" else company
  }

  /** The subject header before encoding: the topic in brackets, then who wrote. */
  function RawSubject(f: FormData): (r: string)
    ensures StartsWith(r, "[" + f.subject + "]")
    ensures r[|f.subject| + 2..] == " from " + f.name
  {
    "[" + f.subject + "] from " + f.name
  }

  /** The four labelled lines, a blank line and "Message:", which precede the message. */
  function BodyHeadLines(f: FormData): seq<string> {
    ["Name: " + f.name, "Email: " + f.email, "Company: " + CompanyOrNA(f.company), "Subject: " + f.subject, "", "Message:"]
  }

  /** The body before encoding: the head lines and then the message, separated by newlines, with none after the message. */
  function RawBody(f: FormData): string {
    Join(BodyHeadLines(f) + [f.message], "\n")
  }

  const MailtoPrefix := "mailto:contact@codmek.com?"

  /** The URI the submit handler navigates to. */
  function MailtoHref(f: FormData): (href: string)
    ensures StartsWith(href, MailtoPrefix)
  {
    MailtoUri(RawSubject(f), RawBody(f))
  }

  /** A `mailto:` URI to the contact address with the given subject and body headers. */
  function MailtoUri(subject: string, body: string): (href: string)
    ensures StartsWith(href, MailtoPrefix)
  {
    MailtoPrefix + (Param("subject", subject) + "&" + Param("body", body))
  }

  /** One query parameter `hname=value`, its value percent-encoded. */
  function Param(hname: string, value: string): (param: string)
    ensures StartsWith(param, hname + "=")
  {
    hname + "=" + EncodeURIComponent(value)
  }

  // ---------------------------------------------------------------------------
  // Reading the URI back, as a mail client would
  // ---------------------------------------------------------------------------

  /** The decoded value of `hfield=value`, when `param` has that name. */
  function HeaderValue(param: string, hname: string): (r: Option<string>)
    ensures r.Some? ==> StartsWith(param, hname + "=")
  {
    if StartsWith(param, hname + "=") then DecodeURIComponent(param[|hname| + 1..]) else None
  }

  /** The decoded subject and body of a `mailto:` URI to the contact address with exactly those two headers. */
  function ParseMailto(href: string): (r: Option<(string, string)>)
    ensures r.Some? ==> StartsWith(href, MailtoPrefix)
  {
    if !StartsWith(href, MailtoPrefix) then None
    else
      var params := Split(href[|MailtoPrefix|..], "&");
      if |params| != 2 then None
      else match (HeaderValue(params[0], "subject"), HeaderValue(params[1], "body"))
        case (Some(subject), Some(body)) => Some((subject, body))
        case _ => None
  }

  /** Encoded header values hold none of the characters that delimit a URI's query or fragment. */
  lemma EncodedHasNoDelimiters(s: string)
    ensures '&' !in EncodeURIComponent(s)
    ensures '=' !in EncodeURIComponent(s)
    ensures '#' !in EncodeURIComponent(s)
  {
    var e := EncodeURIComponent(s);
    forall i | 0 <= i < |e| ensures e[i] != '&' && e[i] != '=' && e[i] != '#' {
      assert IsEncodedChar(e[i]);
    }
  }

  lemma HeaderValueOfEncoded(hname: string, value: string)
    ensures HeaderValue(Param(hname, value), hname) == Some(value)
  {
    var param := Param(hname, value);
    assert param[..|hname| + 1] == hname + "=";
    assert param[|hname| + 1..] == EncodeURIComponent(value);
    DecodeEncode(value);
  }

  /** A parameter whose name holds no `&` holds no `&`. */
  lemma ParamHasNoAmpersand(hname: string, value: string)
    requires '&' !in hname
    ensures '&' !in Param(hname, value)
  {
    EncodedHasNoDelimiters(value);
  }

  /** The query of the URI is its two parameters joined by `&`. */
  lemma MailtoQuery(subject: string, body: string)
    ensures MailtoUri(subject, body)[|MailtoPrefix|..] == Param("subject", subject) + "&" + Param("body", body)
  {
    var q := Param("subject", subject) + "&" + Param("body", body);
    assert (MailtoPrefix + q)[|MailtoPrefix|..] == q;
  }

  /** The two parameters split back apart at the `&` between them. */
  lemma MailtoParamsSplit(subject: string, body: string)
    ensures Split(Param("subject", subject) + "&" + Param("body", body), "&")
            == [Param("subject", subject), Param("body", body)]
  {
    ParamHasNoAmpersand("subject", subject);
    ParamHasNoAmpersand("body", body);
    SplitTwoParams(Param("subject", subject), Param("body", body));
  }

  /** Two `&`-free parameters joined by `&` split back into the two. */
  lemma SplitTwoParams(a: string, b: string)
    requires '&' !in a && '&' !in b
    ensures Split(a + "&" + b, "&") == [a, b]
  {
    SplitAtFirstChar(a, '&', b);
    CharAbsentNoOccurrence(b, '&');
    SplitWithoutSeparator(b, "&");
  }

  /** A URI to the contact address whose query is two such parameters parses to their values. */
  lemma ParseTwoParams(href: string, a: string, b: string, subject: string, body: string)
    requires StartsWith(href, MailtoPrefix) && href[|MailtoPrefix|..] == a + "&" + b
    requires Split(a + "&" + b, "&") == [a, b]
    requires HeaderValue(a, "subject") == Some(subject) && HeaderValue(b, "body") == Some(body)
    ensures ParseMailto(href) == Some((subject, body))
  {
  }

  /** A mail client reading the URI gets back the subject and body it was composed from. */
  lemma MailtoUriRoundTrip(subject: string, body: string)
    ensures ParseMailto(MailtoUri(subject, body)) == Some((subject, body))
  {
    var a := Param("subject", subject);
    var b := Param("body", body);
    MailtoQuery(subject, body);
    MailtoParamsSplit(subject, body);
    HeaderValueOfEncoded("subject", subject);
    HeaderValueOfEncoded("body", body);
    ParseTwoParams(MailtoUri(subject, body), a, b, subject, body);
  }

  /**
   * The mail client recovers exactly the subject and body the handler wrote: the query
   * splits on `&` into the two parameters, and each value decodes to its raw text.
   */
  lemma MailtoRoundTrip(f: FormData)
    ensures ParseMailto(MailtoHref(f)) == Some((RawSubject(f), RawBody(f)))
  {
    MailtoUriRoundTrip(RawSubject(f), RawBody(f));
  }

  /**
   * The body reads back line by line: the four labelled fields, a blank line, "Message:",
   * and then the message's own lines. An empty company reads "N/A".
   */
  lemma BodyLines(f: FormData)
    requires '\n' !in f.name && '\n' !in f.email && '\n' !in f.company && '\n' !in f.subject
    ensures Split(RawBody(f), "\n")
            == ["Name: " + f.name, "Email: " + f.email, "Company: " + CompanyOrNA(f.company),
                "Subject: " + f.subject, "", "Message:"] + Split(f.message, "\n")
  {
    var head := BodyHeadLines(f);
    assert '\n' !in head[2] by {
      if f.company == "" { assert head[2] == "Company: N/A"; }
    }
    assert forall i :: 0 <= i < |head| ==> '\n' !in head[i];
    SplitJoinThenLast(head, f.message, '\n');
  }

  // ---------------------------------------------------------------------------
  // What the browser lets through
  // ---------------------------------------------------------------------------

  /**
   * The values the inputs can hold: the text inputs strip newlines from what is typed, the
   * email input also strips whitespace at either end, and the textarea turns every line
   * break into a line feed.
   */
  predicate InputValues(f: FormData) {
    NoNewline(f.name) && NoNewline(f.company) && Sanitized(f.email) && NoCarriageReturn(f.message)
  }

  /**
   * Constraint validation, which runs before the submit handler: the `required` name, email
   * and message are non-empty, and the email is a valid address.
   */
  predicate PassesValidation(f: FormData) {
    f.name != "" && f.message != "" && ValidEmail(f.email)
  }

  /** Typing into the email input keeps the form within its caps and its inputs' values. */
  lemma EditedEmailKeepsForm(f: FormData, v: string)
    requires WithinLimits(f) && InputValues(f) && |v| <= 255
    ensures WithinLimits(f.(email := EmailValue(v))) && InputValues(f.(email := EmailValue(v)))
  {
    var e := EmailValue(v);
    assert Sanitized(e) && |e| <= 255;
  }

  /** Once the browser lets a form through, the handler's guard only adds the subject. */
  lemma ValidatedFormComplete(f: FormData)
    requires PassesValidation(f)
    ensures Complete(f) <==> f.subject != ""
  {
    ValidEmailShape(f.email);
  }

  /** A form the page can hold reads back line by line: its single-line fields add no lines. */
  lemma FormBodyLines(f: FormData)
    requires InputValues(f) && WithinLimits(f)
    ensures Split(RawBody(f), "\n")
            == ["Name: " + f.name, "Email: " + f.email, "Company: " + CompanyOrNA(f.company),
                "Subject: " + f.subject, "", "Message:"] + Split(f.message, "\n")
  {
    assert forall i :: 0 <= i < |SubjectOptions| ==> '\n' !in SubjectOptions[i];
    BodyLines(f);
  }

  // ---------------------------------------------------------------------------
  // The page's state
  // ---------------------------------------------------------------------------

  class ContactPage {
    var form: FormData
    var isSubmitting: bool
    /** Where the page navigated, once a submit went through. */
    var location: Option<string>
    /** Reset timers scheduled and not yet fired. */
    var pendingResets: nat

    /**
     * The form respects its caps and holds what its inputs can hold, and exactly one reset
     * is pending while the form is busy, none otherwise.
     */
    predicate Valid()
      reads this
    {
      WithinLimits(form) && InputValues(form) && pendingResets == (if isSubmitting then 1 else 0)
    }

    constructor()
      ensures form == EmptyForm && !isSubmitting && location == None && pendingResets == 0
      ensures Valid()
    {
      form := EmptyForm;
      isSubmitting := false;
      location := None;
      pendingResets := 0;
    }

    method EditName(v: string)
      requires Valid() && |v| <= 100
      modifies this
      ensures form == old(form).(name := StripNewlines(v))
      ensures isSubmitting == old(isSubmitting) && location == old(location) && pendingResets == old(pendingResets)
      ensures Valid()
    {
      var t := StripNewlines(v);
      assert NoNewline(t) && |t| <= 100;
      form := form.(name := t);
    }

    method EditEmail(v: string)
      requires Valid() && |v| <= 255
      modifies this
      ensures form == old(form).(email := EmailValue(v))
      ensures isSubmitting == old(isSubmitting) && location == old(location) && pendingResets == old(pendingResets)
      ensures Valid()
    {
      EditedEmailKeepsForm(form, v);
      form := form.(email := EmailValue(v));
    }

    method EditCompany(v: string)
      requires Valid() && |v| <= 100
      modifies this
      ensures form == old(form).(company := StripNewlines(v))
      ensures isSubmitting == old(isSubmitting) && location == old(location) && pendingResets == old(pendingResets)
      ensures Valid()
    {
      var t := StripNewlines(v);
      assert NoNewline(t) && |t| <= 100;
      form := form.(company := t);
    }

    method ChooseSubject(v: string)
      requires Valid() && v in SubjectOptions
      modifies this
      ensures form == old(form).(subject := v)
      ensures isSubmitting == old(isSubmitting) && location == old(location) && pendingResets == old(pendingResets)
      ensures Valid()
    {
      form := form.(subject := v);
    }

    method EditMessage(v: string)
      requires Valid() && |v| <= 2000
      modifies this
      ensures form == old(form).(message := NormalizeNewlines(v))
      ensures isSubmitting == old(isSubmitting) && location == old(location) && pendingResets == old(pendingResets)
      ensures Valid()
    {
      var t := NormalizeNewlines(v);
      assert NoCarriageReturn(t) && |t| <= 2000;
      form := form.(message := t);
    }

    /**
     * A submission. The browser first checks the inputs' constraints and, if one fails, shows
     * its message without firing `submit`; then `handleSubmit` ignores an incomplete form,
     * and for a complete one turns on the busy state, navigates to the composed `mailto:`
     * URI and schedules the reset. The submit button is disabled while busy, which also
     * blocks implicit submission by Enter.
     */
    method Submit()
      requires Valid() && !isSubmitting
      modifies this
      ensures form == old(form)
      ensures !(PassesValidation(form) && Complete(form)) ==>
                isSubmitting == old(isSubmitting) && location == old(location) && pendingResets == old(pendingResets)
      ensures PassesValidation(form) && Complete(form) ==>
                isSubmitting && location == Some(MailtoHref(form)) && pendingResets == old(pendingResets) + 1
      ensures Valid()
    {
      if PassesValidation(form) && Complete(form) {
        isSubmitting := true;
        location := Some(MailtoHref(form));
        pendingResets := pendingResets + 1;
      }
    }

    /** The reset timer fires: the busy state ends. */
    method ResetFires()
      requires Valid() && pendingResets >= 1
      modifies this
      ensures !isSubmitting && pendingResets == old(pendingResets) - 1
      ensures form == old(form) && location == old(location)
      ensures Valid()
    {
      isSubmitting := false;
      pendingResets := pendingResets - 1;
    }
  }
}
