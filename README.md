# Codmek site core, modelled in Dafny

A model of the behaviour behind the Codmek Softech web site (a React single-page app),
written as Dafny modules, one per source file, with the properties the pages promise
proved about them.

- **Blog** (`BlogData`, `BlogRender`, `BlogIndex`). The post table, lookup by slug, and the
  category list in first-occurrence order. The article page's markdown-like renderer covers
  block classification and the lazy `**x**` / `*x*` inline rewrite. The blog index adds
  category filtering, its buttons and the card links.
- **Head tags** (`Seo`). The title, meta, link and JSON-LD script tags of the `SEO`
  component, and the article page's props for it.
- **Contact** (`Contact`). The form state, the submit guard, and the `mailto:` URI it builds.
  `encodeURIComponent` / `decodeURIComponent` live in `Uri`, with UTF-8. The browser's
  `type="email"` input, its value sanitisation and its validity test, lives in `Email` and
  guards both the contact form and the footer's newsletter form.
- **Timed components** (`Chat`, `Progress`, `LoadingScreen`, `LoadingBanner`, `Footer`,
  `Nexus`, `Navbar`). The chat window, the loading counters and stages, the newsletter form,
  the hub dialog and the navbar. Each is a class whose timers are explicit methods. A count
  of pending timers lets "a reply only follows a send" be a class invariant.
- **Studio** (`Studio3D`, `PodOverlay`, `Studio`). The studio page's pod scene, the
  pod-information overlay and the page state that joins them.
- **FAQ** (`Faq`). The FAQ accordion and its FAQPage record, read back by a consumer.

Shared helpers are JavaScript string semantics (`Strings`), a small JSON value (`Json`) and
`Option` (`Wrappers`).

## Model

| member | source | states |
|---|---|---|
| BlogData.FindBySlug | src/data/blogPosts.ts:302-303 | `find` semantics: `None` exactly when no post has the slug; otherwise the first post in list order with that slug |
| BlogData.GetPostBySlug | src/data/blogPosts.ts:302-303 | `FindBySlug` over the shipped posts, whose slugs are distinct (`ShippedSlugsDistinct`), so each shipped slug finds its own post (`FindBySlugUnique`) |
| BlogData.FindBySlugUnique | src/data/blogPosts.ts:302-303 | with pairwise-distinct slugs, every post's own slug finds that very post |
| BlogData.ShippedSlugsDistinct | src/data/blogPosts.ts:14-300 | the seven shipped posts have non-empty, pairwise-distinct slugs |
| BlogData.Dedup | src/data/blogPosts.ts:305-306 | `[...new Set(xs)]`: no duplicates, and exactly the values of the input |
| BlogData.DedupFirstOccurrenceOrder | src/data/blogPosts.ts:305-306 | the output lists values in the order of their first occurrence in the input |
| BlogData.CategoriesOf | src/data/blogPosts.ts:305-306 | the categories are duplicate-free and are exactly the categories some post has |
| BlogData.ShippedCategories | src/data/blogPosts.ts:305-306 | the shipped list is Research, Engineering, Industry, in that order |
| BlogData.GetCategories | src/data/blogPosts.ts:305-306 | `CategoriesOf` the shipped posts; `ShippedCategories` evaluates it to Research, Engineering, Industry |
| BlogRender.CloseMeaning | src/pages/BlogPost.tsx:72-75 | the lazy `(.+?)` closes the shortest span that has no line terminator and is followed by the delimiter; no span means no match |
| BlogRender.ReplaceSpansNoDelimiter | src/pages/BlogPost.tsx:72-75 | text in which the delimiter never occurs is left unchanged |
| BlogRender.FormatInline | src/pages/BlogPost.tsx:72-76 | the bold rewrite, then the italic one; its meaning is stated by `FormatInlineWithoutStar`, `FormatInlineBold`, `FormatInlineItalic`, `FormatInlineFourStars` and `FormatInlineLineByLine` |
| BlogRender.FormatInlineWithoutStar | src/pages/BlogPost.tsx:72-75 | text without `*` comes through verbatim; nothing is HTML-escaped |
| BlogRender.FormatInlineBold | src/pages/BlogPost.tsx:74 | `**t**` becomes the styled `<strong>` element around `t` |
| BlogRender.FormatInlineItalic | src/pages/BlogPost.tsx:75 | `*t*` becomes `<em>t</em>` |
| BlogRender.FormatInlineFourStars | src/pages/BlogPost.tsx:72-75 | `****` is not bold (the span needs one character) and renders as `<em>*</em>*` |
| BlogRender.ReplaceSpansAroundTerminator | src/pages/BlogPost.tsx:74-75 | no span crosses a line terminator: the rewrite of `x + t + y` is the rewrite of `x`, then `t`, then the rewrite of `y` |
| BlogRender.FormatInlineLineByLine | src/pages/BlogPost.tsx:72-75 | the inline rewrite treats the lines of its input independently |
| BlogRender.NumberedPrefix | src/pages/BlogPost.tsx:35 | the `/^\d+\./` test, characterised by `NumberedPrefixMeaning` |
| BlogRender.NumberedPrefixMeaning | src/pages/BlogPost.tsx:35 | `/^\d+\./` holds exactly when one or more digits and then a dot start the text |
| BlogRender.StripNumber | src/pages/BlogPost.tsx:40 | `/^\d+\.\s*/` removes the digits, the dot and the whitespace after them; other lines are unchanged |
| BlogRender.StripNumberOfNumberedLine | src/pages/BlogPost.tsx:40 | a line written as a number, `.` and `rest` strips to `rest` without its leading whitespace |
| BlogRender.NumberedLine | src/pages/BlogPost.tsx:40 | `n. x` strips to `x` when `x` starts with a non-space |
| BlogRender.NonEmptyLines | src/pages/BlogPost.tsx:36 | `filter(Boolean)` keeps exactly the non-empty lines; with `NonEmptyLinesSingle` and `NonEmptyLinesAppend`, in order and with repeats |
| BlogRender.NonEmptyLinesSingle | src/pages/BlogPost.tsx:36 | a single line is kept exactly when it is non-empty |
| BlogRender.NonEmptyLinesAppend | src/pages/BlogPost.tsx:36 | the filter distributes over concatenation, so the kept lines keep their order and their repeats |
| BlogRender.BulletLines | src/pages/BlogPost.tsx:48 | keeps exactly the lines starting with `- `; with `BulletLinesSingle` and `BulletLinesAppend`, in order and with repeats |
| BlogRender.BulletLinesSingle | src/pages/BlogPost.tsx:48 | a single line is kept exactly when it starts with `- ` |
| BlogRender.BulletLinesAppend | src/pages/BlogPost.tsx:48 | the filter distributes over concatenation, so the kept lines keep their order and their repeats |
| BlogRender.BulletLinesDropOtherLines | src/pages/BlogPost.tsx:48 | a line without the marker between two items is dropped |
| BlogRender.NumberedTexts | src/pages/BlogPost.tsx:36-40 | one item per non-empty line, each with its number stripped |
| BlogRender.BulletTexts | src/pages/BlogPost.tsx:48-54 | one item per `- ` line, each equal to its line without the marker |
| BlogRender.FormatItems | src/pages/BlogPost.tsx:38-56 | one list item per text, in order, each the text after `formatInline` |
| BlogRender.RenderBlock | src/pages/BlogPost.tsx:17-68 | block kinds in the code's order of tests: `## `, `### `, numbered, `- `, else paragraph; each kind's text or items as rendered |
| BlogRender.RenderContent | src/pages/BlogPost.tsx:16-17 | one element per `"\n\n"`-separated block, in order |
| BlogRender.RenderContentCoversBody | src/pages/BlogPost.tsx:17 | the blocks joined back with `"\n\n"` are the whole body, so no text is lost |
| BlogRender.ProseFirstBlockIsParagraph | src/pages/BlogPost.tsx:61-67 | a block whose first character starts no other kind is one paragraph |
| BlogRender.H3KeepsLaterLines | src/pages/BlogPost.tsx:26-31 | a `### ` block's heading is everything after the marker, later lines included |
| BlogRender.AuditHeadingAbsorbsBody | src/data/blogPosts.ts:234-235 | the shipped "Audit Before Deploy" heading swallows the sentence written under it |
| BlogRender.ProseSwallowsBullets | src/data/blogPosts.ts:96-100 | a prose line before four `- ` lines makes the whole block one paragraph |
| BlogRender.BlogPostPage | src/pages/BlogPost.tsx:10-13 | redirect to `/blog` exactly when the slug is absent, empty or unknown; otherwise the article of the first post with that slug (`getPostBySlug`'s `find`), with its rendered body |
| BlogIndex.FilterByCategory | src/pages/Blog.tsx:14-16 | keeps exactly the posts of that category and never adds any |
| BlogIndex.FilterByCategoryAppend | src/pages/Blog.tsx:16 | filtering distributes over concatenation, so list order is kept |
| BlogIndex.CategoryButtons | src/pages/Blog.tsx:12 | "All" first, then the categories |
| BlogIndex.FilteredPosts | src/pages/Blog.tsx:14-16 | "All" shows every post; any other category shows exactly its posts |
| BlogIndex.BlogIndexPage.ClickCategory | src/pages/Blog.tsx:64-67 | the active category becomes the clicked button's label |
| BlogIndex.EveryButtonSelectsAPost | src/pages/Blog.tsx:12-16 | every button's filter selects at least one post |
| BlogIndex.ShippedButtonsSelectPosts | src/pages/Blog.tsx:11-16 | whatever button was clicked, the index lists at least one post |
| BlogIndex.CardLink | src/pages/Blog.tsx:92 | the card link is `/blog/` followed by the post's slug |
| BlogIndex.CardLinkOpensItsPost | src/pages/Blog.tsx:92 | the route parameter of each card's link opens that card's article, not a redirect |
| Seo.PageUrl | src/components/SEO.tsx:15 | the URL is the site URL followed by the path |
| Seo.FullTitle | src/components/SEO.tsx:16 | the title unchanged exactly on `/`; elsewhere the title followed by ` \| Codmek Softech` |
| Seo.JsonLdArray | src/components/SEO.tsx:18-20 | no record gives `[]`; one record gives a one-element list; a list is kept as is |
| Seo.KeywordTags | src/components/SEO.tsx:26 | a keywords tag exactly when keywords are present and non-empty |
| Seo.Lookup | src/components/SEO.tsx:24-42 | reading a tag's value: `None` exactly when no tag has that key |
| Seo.LookupFirst | src/components/SEO.tsx:24-42 | the first tag with a key decides the lookup |
| Seo.ScriptsOfScriptTags | src/components/SEO.tsx:45-49 | the script tags carry the records, one each, in order |
| Seo.HeadScripts | src/components/SEO.tsx:18-49 | the head's scripts are exactly the record list |
| Seo.HeadTags | src/components/SEO.tsx:22-50 | the whole head: front tags, keywords, card tags and scripts; stated by `HeadTitlesAgree`, `HeadUrlsAgree`, `HeadKeywordsPresent` and `HeadScripts` |
| Seo.HeadTitlesAgree | src/components/SEO.tsx:24 | the title, `og:title` and `twitter:title` all read the full title |
| Seo.HeadUrlsAgree | src/components/SEO.tsx:27 | the canonical link and `og:url` both read the page URL |
| Seo.HeadKeywordsPresent | src/components/SEO.tsx:26 | a keywords meta exists exactly when keywords are given and non-empty |
| Seo.ArticleJsonLd | src/pages/BlogPost.tsx:84-93 | the BlogPosting record; its `url` member is stated by `ArticleRecordUrl` |
| Seo.ArticleSeo | src/pages/BlogPost.tsx:79-94 | the article page's props for `SEO`; `ArticleHeadConsistent` states that the head they produce agrees with the record |
| Seo.ArticleRecordUrl | src/pages/BlogPost.tsx:92 | the BlogPosting record's `url` is the article's page URL |
| Seo.ArticleHeadConsistent | src/pages/BlogPost.tsx:79-93 | an article's canonical link, `og:url` and record `url` agree; its one script is the record; its title carries the suffix |
| Contact.WithinLimits | src/pages/Contact.tsx:129-161 | the inputs' `maxLength` caps and the drop-down's six values; part of `ContactPage.Valid`, which every edit keeps |
| Contact.Complete | src/pages/Contact.tsx:34 | the handler's guard; for a form the browser lets through it only adds the subject (`ValidatedFormComplete`) |
| Contact.MailtoHref | src/pages/Contact.tsx:38-43 | the URI starts with `mailto:contact@codmek.com?`; `MailtoRoundTrip` reads its subject and body back |
| Contact.InputValues | src/pages/Contact.tsx:129-161 | the name and company hold no newline, the email is sanitised and the message holds no carriage return, as the inputs make them; part of `ContactPage.Valid`, which every edit keeps |
| Contact.PassesValidation | src/pages/Contact.tsx:125-161 | constraint validation before the handler: the `required` name, email and message are non-empty and the `type="email"` value is a valid address |
| Contact.ValidatedFormComplete | src/pages/Contact.tsx:34 | once a form passes constraint validation, the handler's guard holds exactly when a subject is chosen |
| Contact.FormBodyLines | src/pages/Contact.tsx:39-41 | every form the page can hold reads back line by line, its single-line fields adding no lines |
| Contact.CompanyOrNA | src/pages/Contact.tsx:40 | `company \|\| "N/A"`: the company, or "N/A" when it is empty |
| Contact.RawSubject | src/pages/Contact.tsx:38 | the subject is `[subject]` followed by ` from ` and the name |
| Contact.BodyLines | src/pages/Contact.tsx:39-41 | the body splits into Name, Email, Company, Subject, a blank line, "Message:" and then the message's own lines |
| Contact.HeaderValueOfEncoded | src/pages/Contact.tsx:38-43 | an encoded `name=value` parameter reads back as the value |
| Contact.EncodedHasNoDelimiters | src/pages/Contact.tsx:38-43 | encoded values hold no `&`, `=` or `#`, so they cannot break the query |
| Contact.MailtoUriRoundTrip | src/pages/Contact.tsx:43 | a mail client reading the URI gets back exactly the subject and body it was built from |
| Contact.MailtoRoundTrip | src/pages/Contact.tsx:38-43 | the same for the form: the client recovers the raw subject and body the handler wrote |
| Contact.ContactPage.constructor | src/pages/Contact.tsx:23-30 | an empty form, not submitting, nothing navigated |
| Contact.ContactPage.EditName | src/pages/Contact.tsx:129 | the name becomes the typed text without newlines, as a text input strips them; nothing else changes; within 100 characters |
| Contact.ContactPage.EditEmail | src/pages/Contact.tsx:133 | the email becomes the typed text as the email input sanitises it (`EmailValue`); nothing else changes; within 255 characters |
| Contact.ContactPage.EditCompany | src/pages/Contact.tsx:139 | the company becomes the typed text without newlines; nothing else changes; within 100 characters |
| Contact.ContactPage.ChooseSubject | src/pages/Contact.tsx:144-154 | the subject becomes one of the six options; nothing else changes |
| Contact.ContactPage.EditMessage | src/pages/Contact.tsx:161 | the message becomes the typed text with its line breaks normalised to line feeds, as a textarea hands it over; nothing else changes; within 2000 characters |
| Contact.ContactPage.Submit | src/pages/Contact.tsx:32-52 | callable only while idle, as the submit button at line 164 is `disabled={isSubmitting}`; a form that fails constraint validation (the `required` and `type="email"` inputs at lines 129-161) or the handler's guard changes nothing; otherwise submitting starts, the page navigates to its `mailto:` URI and one reset is scheduled; the invariant keeps exactly one reset pending while busy |
| Contact.ContactPage.ResetFires | src/pages/Contact.tsx:45-51 | the reset clears submitting and keeps the form |
| Chat.CountRoleAppend | src/components/ChatModal.tsx:21 | appending a message raises its role's count by one and no other |
| Chat.RolesPartition | src/components/ChatModal.tsx:13-32 | every message is the user's or the assistant's |
| Chat.ChatWindow.constructor | src/components/ChatModal.tsx:13-16 | the transcript is the greeting and the input is empty |
| Chat.ChatWindow.Type | src/components/ChatModal.tsx:95-97 | the input becomes the typed text without line breaks, as a text input hands it over; nothing else changes |
| Chat.ChatWindow.Send | src/components/ChatModal.tsx:18-32 | blank input (JavaScript whitespace only) changes nothing; otherwise the untrimmed input is appended as the user's turn, the input is cleared and one reply is scheduled |
| Chat.ChatWindow.ReplyFires | src/components/ChatModal.tsx:24-29 | a scheduled reply appends the canned assistant turn |
| Chat.TranscriptShape | src/components/ChatModal.tsx:13-32 | the transcript holds 1 + 2·sends − pending messages, and assistant turns never exceed user turns plus the greeting |
| Progress.NextProgress | src/components/LoadingScreen.tsx:13-20 | below 100 the counter rises by 2; from 100 it stays 100 |
| Progress.TickKeepsRange | src/components/LoadingBanner.tsx:16-22 | a tick keeps the counter even, within 0..100, and never lowers it |
| Progress.ProgressAfterTicks | src/components/LoadingBanner.tsx:13-24 | after n ticks the counter reads 2n, capped at 100 |
| Progress.FullExactlyFromTickFifty | src/components/LoadingScreen.tsx:11-24 | the counter is full exactly from the fiftieth tick on |
| LoadingScreen.LoadingScreenState.constructor | src/components/LoadingScreen.tsx:9-12 | counter 0, interval running, nothing pending |
| LoadingScreen.LoadingScreenState.Tick | src/components/LoadingScreen.tsx:13-20 | the counter advances; the tick that finds it full stops the interval and schedules the completion |
| LoadingScreen.LoadingScreenState.CompletionFires | src/components/LoadingScreen.tsx:16 | the completion callback runs, and only once |
| LoadingScreen.CompletionOnlyWhenFull | src/components/LoadingScreen.tsx:11-24 | completion is pending or done only once the counter is 100, after 51 ticks |
| LoadingBanner.StageRank | src/components/LoadingBanner.tsx:11-36 | ranks the stages loading, reveal, complete; every tick and timer of `LoadingBannerState` keeps or raises the rank, so the stage never moves backwards |
| LoadingBanner.StatusLinesArePrefix | src/components/LoadingBanner.tsx:170-194 | the shown status lines are always the first few, one per threshold passed, and none outside the loading stage |
| LoadingBanner.StatusLines | src/components/LoadingBanner.tsx:170-199 | the status lines on screen; `StatusLinesArePrefix` states which |
| LoadingBanner.StatusShown | src/components/LoadingBanner.tsx:135-199 | line k shows while loading once the counter has passed its threshold of 20, 40, 60 or 80 |
| LoadingBanner.OverlayVisible | src/components/LoadingBanner.tsx:40 | the overlay stays until the stage is complete; `StagesFollowFullCounter` states it is gone once `onComplete` ran |
| LoadingBanner.LoadingBannerState.constructor | src/components/LoadingBanner.tsx:10-13 | counter 0, loading stage, interval running |
| LoadingBanner.LoadingBannerState.Tick | src/components/LoadingBanner.tsx:16-22 | the counter advances; the tick that finds it full stops the interval and schedules the reveal |
| LoadingBanner.LoadingBannerState.RevealFires | src/components/LoadingBanner.tsx:19 | loading becomes reveal and the completion timer starts |
| LoadingBanner.LoadingBannerState.CompleteFires | src/components/LoadingBanner.tsx:29-36 | reveal becomes complete and the callback is scheduled |
| LoadingBanner.LoadingBannerState.OnCompleteFires | src/components/LoadingBanner.tsx:33 | the callback runs once, in the complete stage |
| LoadingBanner.StagesFollowFullCounter | src/components/LoadingBanner.tsx:13-40 | leaving the loading stage needs a full counter, and once the callback has run the overlay is gone |
| PodOverlay.LookupPod | src/components/PodOverlay.tsx:10-55 | an entry exactly for the five table keys, and it is that key's entry |
| PodOverlay.ActionFor | src/components/PodOverlay.tsx:128-136 | locked pods show "Coming Soon"; the rest show "Explore " and the title |
| PodOverlay.RenderOverlay | src/components/PodOverlay.tsx:57-136 | with the corrected own-key guard (see Findings): hidden exactly for null, empty or unknown names; otherwise the card shows the entry's title, description, features and action |
| PodOverlay.LockedPods | src/components/PodOverlay.tsx:10-55 | exactly Nexus and Learn are locked, and every card lists three features |
| PodOverlay.InheritedKeyPassesGuard | src/components/PodOverlay.tsx:58 | as written, `"toString" in podContent` passes the guard although the table has no such entry |
| PodOverlay.OwnKeyGuardMatchesTable | src/components/PodOverlay.tsx:58-60 | the own-key guard shows a card exactly when the table has an entry |
| Studio3D.PodNamesDistinct | src/components/Studio3D.tsx:145-151 | five pods with distinct names |
| Studio3D.Scene.PointerOver | src/components/Studio3D.tsx:174 | the hovered pod becomes the pointed one |
| Studio3D.Scene.PointerOut | src/components/Studio3D.tsx:174 | the hover is cleared |
| Studio3D.AtMostOneHighlighted | src/components/Studio3D.tsx:173 | at most one pod is highlighted at a time |
| Studio.StudioPage.constructor | src/pages/Studio.tsx:10-13 | loading, chat closed, nothing selected or hovered |
| Studio.StudioPage.LoadingComplete | src/pages/Studio.tsx:26-29 | loading ends and the scene, HUD, chat and overlay mount |
| Studio.StudioPage.ClickPod | src/pages/Studio.tsx:15-21 | Reception opens the chat; any other pod becomes the selection |
| Studio.StudioPage.OpenChat | src/pages/Studio.tsx:35 | the HUD button opens the chat |
| Studio.StudioPage.CloseChat | src/pages/Studio.tsx:38 | the chat closes |
| Studio.StudioPage.CloseOverlay | src/pages/Studio.tsx:41 | the selection is cleared |
| Studio.SelectionAlwaysOpensCard | src/pages/Studio.tsx:15-41 | a selected pod always has an overlay card; the HUD never shows a hover |
| Navbar.Visibility | src/components/Navbar.tsx:23-28 | visible off the home page; on it, exactly when `window.scrollY`, a real number that may be fractional, exceeds 100 |
| Navbar.VisibilityOnlySeesHome | src/components/Navbar.tsx:23-33 | visibility depends on the path only through whether it is `/`, so skipping the effect when home-ness is unchanged keeps it correct |
| Navbar.AtMostOneActive | src/components/Navbar.tsx:8-15 | at most one nav item is active |
| Navbar.NavbarState.constructor | src/components/Navbar.tsx:18-30 | visibility computed on mount; the menu is closed |
| Navbar.NavbarState.Scroll | src/components/Navbar.tsx:24-28 | visibility is recomputed for the new scroll position |
| Navbar.NavbarState.Navigate | src/components/Navbar.tsx:23-38 | visibility is recomputed only when the path crosses into or out of `/`, and still matches the new path; a path change closes the menu |
| Navbar.NavbarState.ToggleMenu | src/components/Navbar.tsx:105-122 | the visible menu button flips the menu |
| Navbar.NavbarState.OverlayClick | src/components/Navbar.tsx:181 | the backdrop closes the menu |
| Footer.LinkAttrs | src/components/Footer.tsx:172-173 | `mailto` links get no target or rel; all others get `_blank` and `noopener noreferrer` |
| Footer.OnlyEmailOpensInPlace | src/components/Footer.tsx:30-49 | X and LinkedIn open in a new tab; Email does not |
| Footer.QuickLinkPathsDistinct | src/components/Footer.tsx:51-59 | seven quick links with distinct paths |
| Footer.NewsletterForm.constructor | src/components/Footer.tsx:15-16 | empty email, not submitting |
| Footer.NewsletterForm.TypeEmail | src/components/Footer.tsx:195-198 | the email becomes the typed text as the email input sanitises it (`EmailValue`); nothing else changes |
| Footer.NewsletterForm.Submit | src/components/Footer.tsx:18-22 | callable only while idle, as the submit button at line 204 is `disabled={isSubmitting}`; an address that is not valid, which the `required` `type="email"` input at lines 195-201 stops before the handler, changes nothing; a valid one starts submitting and schedules one reset; the invariant keeps exactly one reset pending while busy |
| Footer.NewsletterForm.ResetFires | src/components/Footer.tsx:23-27 | the reset ends submitting and clears the email |
| Faq.FaqJsonLd | src/components/FAQSection.tsx:48-59 | the FAQPage record; `FaqJsonLdRoundTrip` reads it back as the FAQ list |
| Faq.ReadQuestionEntity | src/components/FAQSection.tsx:51-58 | each Question entity reads back as its question and answer |
| Faq.FaqJsonLdRoundTrip | src/components/FAQSection.tsx:48-59 | the FAQPage record reads back as exactly the FAQ list, in order |
| Faq.AccordionItems | src/components/FAQSection.tsx:87-100 | one item per FAQ, showing its question and answer |
| Faq.AccordionValuesDistinct | src/components/FAQSection.tsx:96 | the `item-N` values are distinct |
| Faq.AccordionMatchesRecord | src/components/FAQSection.tsx:48-100 | the accordion and the structured data show the same question and answer at each index |
| Nexus.HubIdsDistinct | src/pages/Nexus.tsx:10-89 | six hubs with non-empty, distinct ids |
| Nexus.FindHub | src/pages/Nexus.tsx:226 | `find` semantics: the first hub with the id, `None` exactly when there is none |
| Nexus.FindHubOwnId | src/pages/Nexus.tsx:226 | each hub's own id finds that hub |
| Nexus.NexusPage.ClickCard | src/pages/Nexus.tsx:152 | the clicked hub is selected and the dialog opens |
| Nexus.NexusPage.OpenChange | src/pages/Nexus.tsx:223 | any open-change clears the selection and closes the dialog |
| Nexus.NexusPage.DialogHub | src/pages/Nexus.tsx:225-226 | with a selection, the dialog's lookup always succeeds (the `!` is safe) |
| Nexus.DialogShowsClickedHub | src/pages/Nexus.tsx:152-226 | the dialog shows the hub whose card was clicked |
| Email.EmailValue | src/pages/Contact.tsx:133 | the email input's value sanitisation: the result has no newline and no whitespace at either end, and is never longer than what was typed |
| Email.EmailValueFixes | src/components/Footer.tsx:195-198 | sanitisation leaves a value unchanged exactly when it is already sanitised, so it is idempotent |
| Email.ValidEmail | src/pages/Contact.tsx:133 | the email state's validity test: atext and dots, one `@`, then dot-separated labels of 1 to 63 letters, digits and inner hyphens |
| Email.ValidEmailShape | src/components/Footer.tsx:195-201 | a valid address has exactly one `@`, between a non-empty local part and a domain, holds no whitespace and is unchanged by sanitisation |
| Email.ValidEmailParts | src/pages/Contact.tsx:133 | split at an `@` absent from the local part, an address is valid exactly when both parts are |
| Email.SiteAddressValid | src/pages/Contact.tsx:185 | the site's own address `contact@codmek.com` is valid |
| Email.MalformedAddresses | src/components/Footer.tsx:195-201 | `abc` and `a@b..com` are not valid, so the browser stops them before the handler |
| Uri.EncodeURIComponent | src/pages/Contact.tsx:38-39 | the encoding uses only unreserved characters and `%` |
| Uri.DecodeEncode | src/pages/Contact.tsx:38-43 | decoding the encoding gives back the original string, for every string |
| Strings.StripNewlines | src/pages/Contact.tsx:129 | a single-line input's value: no line feed or carriage return is left, and nothing is added |
| Strings.StripNewlinesKeeps | src/pages/Contact.tsx:139 | text without line breaks passes through a single-line input unchanged |
| Strings.NormalizeNewlines | src/pages/Contact.tsx:161 | a textarea's value: every CRLF pair and lone CR becomes a line feed, so no carriage return is left and nothing grows |
| Strings.NormalizeNewlinesKeeps | src/pages/Contact.tsx:161 | text without carriage returns passes through a textarea unchanged |
| Strings.ReplaceFirst | src/pages/BlogPost.tsx:22 | `String.prototype.replace` with a string pattern replaces the leftmost occurrence and only it; text without the pattern is unchanged |
| Strings.JoinSplit | src/pages/BlogPost.tsx:17 | joining the pieces of a split with the separator gives back the string |
| Strings.TrimEmptyIffBlank | src/components/ChatModal.tsx:19 | `trim()` is empty exactly for whitespace-only input |
| Strings.NatToStringInjective | src/components/FAQSection.tsx:96 | distinct indices print as distinct decimal strings |

## Left out

- Rendering, styling, icons, animation (framer-motion) and the 3D scene (three.js geometry, lights, particles) are presentation. Only the state and text they show are modelled.
- Timers (`setTimeout`, `setInterval`) are explicit methods ("the timer fires"). Their delays (30, 300, 500, 800, 1000, 1500 ms) and any interleaving are not modelled. Each class's invariant constrains the order in which they can fire.
- `window.location.href`, `toast`, `alert` and the mail client are I/O. Submitting records the URI in a `location` field, and a mail client is modelled by `ParseMailto`.
- `react-helmet-async` head injection and `JSON.stringify` are not modelled. The head is a list of tag values and the JSON-LD records are `Json` values.
- `toLocaleDateString` for post dates and `readTime` are shown, not computed, and are left out.
- The router: `src/App.tsx:33-42` declares no `/blog` or `/blog/:slug` route, so in the shipped app the blog pages are unreachable and fall through to NotFound. `BlogIndex` and `BlogPostPage` model the pages themselves, as if routed.
- BlogData.BlogPosts: article bodies are cut down to the blocks the renderer lemmas use (`src/data/blogPosts.ts:92`, `96-100`, `230`, `234-235`); the other bodies are empty strings. Every other field is as shipped.
- The article page's header, tag chips and back link (`src/pages/BlogPost.tsx:97-145`) show fields verbatim and are not modelled.
- Seo: `description`, `og:image`, `og:type`, `og:site_name` and the Twitter card fields are emitted by `CardTags`, but no lemma states their values beyond what `Lookup` gives.
- Uri.EncodeURIComponent: Dafny characters are Unicode scalar values, so the lone-surrogate `URIError` of the JavaScript encoder cannot arise.
- React StrictMode's double-invoked updaters and effects are not modelled.
- Email.EmailValue: browsers may turn non-ASCII domain labels into punycode before validating; the model judges the address as typed.
- Contact.PassesValidation: a `maxLength` overflow is not checked, because the caps already bound every edit; the `tooLong` state only arises for script-set values, which the page never makes.
- LoadingScreen, LoadingBanner: the `onComplete` callback is counted, not called. A changed `onComplete` identity is not modelled: it would restart `LoadingScreen`'s effect, and it would re-run `LoadingBanner`'s stage effect (deps `[stage, onComplete]`), which during the reveal stage would schedule a second `setStage("complete")` and `onComplete` pair.
- Footer.SocialLinks: the web hrefs are written as the `https://` scheme followed by the rest, which is the same string.
- Chat.ChatWindow.ReplyFires: the canned reply text is fixed; it does not depend on what the user typed, in the model or in `src/components/ChatModal.tsx:24-29`.
- HUD.tsx, Scene3D.tsx, Home.tsx, Solutions.tsx, Research.tsx and Learn.tsx are not part of this model.

## Findings

| source | as written | input that shows it | evidently intended | confidence | as-written member | corrected member |
|---|---|---|---|---|---|---|
| src/components/PodOverlay.tsx:58 | `podName in podContent` also accepts keys inherited from `Object.prototype` | `podName = "toString"` passes the guard; `podContent["toString"]` is a function, so `content.features.map` throws | show the card only for the table's own keys (`Object.hasOwn`) | not executed; the studio scene only passes its five pod names, so no shipped caller reaches it | PodOverlay.InheritedKeyPassesGuard | PodOverlay.OwnKeyGuardMatchesTable, PodOverlay.RenderOverlay |
