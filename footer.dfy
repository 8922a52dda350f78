/**
 * The site footer: social links whose target depends on the link's scheme, a fixed list of
 * quick links, and a newsletter form with a one-second simulated submission.
 */
module Footer {
  import opened Wrappers
  import opened Strings
  import opened Email

  datatype SocialLink = SocialLink(name: string, href: string, caption: string)

  /** The web links are written as their scheme followed by the rest of the address. */
  const Https := "https://"

  const SocialLinks: seq<SocialLink> := [
    SocialLink("X (Twitter)", Https + "x.com/CodmekSoftech", "@CodmekSoftech"),
    SocialLink("LinkedIn", Https + "www.linkedin.com/company/codmek-softech/", "Codmek Softech"),
    SocialLink("Email", "mailto:contact@codmek.com", "contact@codmek.com")
  ]

  datatype QuickLink = QuickLink(name: string, path: string)

  const QuickLinks: seq<QuickLink> := [
    QuickLink("Research", "/research"), QuickLink("Studio", "/studio"), QuickLink("Learn", "/learn"),
    QuickLink("Solutions", "/solutions"), QuickLink("Nexus", "/nexus"), QuickLink("Blog", "/blog"),
    QuickLink("Contact", "/contact")
  ]

  /** The `target` and `rel` attributes of an anchor; `None` leaves the attribute off. */
  datatype AnchorAttrs = AnchorAttrs(target: Option<string>, rel: Option<string>)

  /**
   * A `mailto` link opens in place with neither attribute; any other link opens a new tab
   * with the opener cut off.
   */
  function LinkAttrs(href: string): (a: AnchorAttrs)
    ensures StartsWith(href, "mailto") <==> a.target.None?
    ensures a.target.None? <==> a.rel.None?
    ensures a.target.Some? ==> a.target.value == "_blank" && a.rel.value == "noopener noreferrer"
  {
    if StartsWith(href, "mailto") then AnchorAttrs(None, None)
    else AnchorAttrs(Some("_blank"), Some("noopener noreferrer"))
  }

  /** A web link opens a new tab. */
  lemma WebLinkOpensNewTab(rest: string)
    ensures LinkAttrs(Https + rest).target == Some("_blank")
  {
    assert (Https + rest)[0] == 'h';
  }

  /** The contact address link opens in place. */
  lemma ContactLinkOpensInPlace()
    ensures LinkAttrs("mailto:contact@codmek.com").target.None?
  {
    assert StartsWith("mailto:contact@codmek.com", "mailto");
  }

  /** Of the three social links, X and LinkedIn open a new tab; only the e-mail link opens in place. */
  lemma OnlyEmailOpensInPlace()
    ensures |SocialLinks| == 3
    ensures LinkAttrs(SocialLinks[0].href).target == Some("_blank")
    ensures LinkAttrs(SocialLinks[1].href).target == Some("_blank")
    ensures LinkAttrs(SocialLinks[2].href).target.None? && SocialLinks[2].name == "Email"
  {
    WebLinkOpensNewTab("x.com/CodmekSoftech");
    WebLinkOpensNewTab("www.linkedin.com/company/codmek-softech/");
    ContactLinkOpensInPlace();
  }

  /** The seven quick links lead to pairwise distinct paths. */
  lemma QuickLinkPathsDistinct()
    ensures |QuickLinks| == 7
    ensures forall i, j :: 0 <= i < j < |QuickLinks| ==> QuickLinks[i].path != QuickLinks[j].path
  {
  }

  class NewsletterForm {
    var email: string
    var isSubmitting: bool
    /** Submission timers scheduled and not yet fired. */
    var pendingResets: nat

    /**
     * The address is one the email input can hold, and exactly one submission timer is
     * pending while the form is busy, none otherwise.
     */
    predicate Valid()
      reads this
    {
      Sanitized(email) && pendingResets == (if isSubmitting then 1 else 0)
    }

    constructor()
      ensures email == "" && !isSubmitting && pendingResets == 0
      ensures Valid()
    {
      email := "";
      isSubmitting := false;
      pendingResets := 0;
    }

    method TypeEmail(v: string)
      requires Valid()
      modifies this
      ensures email == EmailValue(v) && isSubmitting == old(isSubmitting) && pendingResets == old(pendingResets)
      ensures Valid()
    {
      email := EmailValue(v);
    }

    /**
     * A submission. The browser's constraint validation stops an empty or malformed address
     * before `submit` fires; `handleNewsletterSubmit` would also ignore an empty one. A valid
     * address turns the form busy and sets the timer. The submit button is disabled while
     * busy, so no submission overlaps another.
     */
    method Submit()
      requires Valid() && !isSubmitting
      modifies this
      ensures email == old(email)
      ensures !ValidEmail(old(email)) ==> isSubmitting == old(isSubmitting) && pendingResets == old(pendingResets)
      ensures ValidEmail(old(email)) ==> isSubmitting && pendingResets == old(pendingResets) + 1
      ensures Valid()
    {
      if ValidEmail(email) {
        ValidEmailShape(email);
      }
      if ValidEmail(email) && email != "" {
        isSubmitting := true;
        pendingResets := pendingResets + 1;
      }
    }

    /** The submission timer fires: the form is idle again and the address is cleared. */
    method ResetFires()
      requires Valid() && pendingResets >= 1
      modifies this
      ensures !isSubmitting && email == "" && pendingResets == old(pendingResets) - 1
      ensures Valid()
    {
      isSubmitting := false;
      email := "";
      pendingResets := pendingResets - 1;
    }
  }
}
