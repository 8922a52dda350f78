/**
 * The head tags every page sets through its SEO component: the title, the description,
 * the canonical URL, the Open Graph and Twitter cards, and one JSON-LD script per record.
 */
module Seo {
  import opened Wrappers
  import opened Strings
  import opened Json
  import opened BlogData

  const SiteUrl := "https://codmek.com"
  const OgImage := SiteUrl + "/og-image.png"
  const TitleSuffix := " | Codmek Softech"

  /** The `jsonLd` prop: absent, one record, or an array of records. */
  datatype JsonLdProp = NoJsonLd | OneRecord(record: Json) | Records(records: seq<Json>)

  datatype SeoProps = SeoProps(title: string, description: string, path: string,
                               keywords: Option<string>, jsonLd: JsonLdProp)

  datatype Tag =
    | TitleTag(text: string)
    | MetaName(name: string, content: string)
    | MetaProperty(property: string, content: string)
    | LinkTag(rel: string, href: string)
    | ScriptTag(kind: string, body: Json)

  /** The canonical URL: the site origin followed by the page path. */
  function PageUrl(path: string): (url: string)
    ensures StartsWith(url, SiteUrl) && url[|SiteUrl|..] == path
  {
    SiteUrl + path
  }

  /** The home page keeps its bare title; every other page gets the site suffix. */
  function FullTitle(title: string, path: string): (r: string)
    ensures StartsWith(r, title)
    ensures r == title <==> path == "/"
    ensures path != "/" ==> r[|title|..] == TitleSuffix
  {
    if path == "/" then title else title + TitleSuffix
  }

  /** `jsonLdArray`: no record, a single record wrapped in a list, or the array as given. */
  function JsonLdArray(prop: JsonLdProp): (r: seq<Json>)
    ensures prop.NoJsonLd? <==> r == [] && !prop.Records?
    ensures prop.OneRecord? ==> r == [prop.record]
    ensures prop.Records? ==> r == prop.records
  {
    match prop
    case NoJsonLd => []
    case OneRecord(x) => [x]
    case Records(xs) => xs
  }

  /** The keywords meta tag is written only for a keyword string that is present and non-empty. */
  function KeywordTags(keywords: Option<string>): (r: seq<Tag>)
    ensures |r| <= 1
    ensures |r| == 1 <==> keywords.Some? && keywords.value != []
    ensures |r| == 1 ==> r[0] == MetaName("keywords", keywords.value)
  {
    if keywords.Some? && keywords.value != [] then [MetaName("keywords", keywords.value)] else []
  }

  function ScriptTags(records: seq<Json>): (r: seq<Tag>)
    ensures |r| == |records|
    ensures forall i :: 0 <= i < |r| ==> r[i] == ScriptTag("application/ld+json", records[i])
  {
    if records == [] then [] else [ScriptTag("application/ld+json", records[0])] + ScriptTags(records[1..])
  }

  /** The title and description tags. */
  function FrontTags(fullTitle: string, description: string): seq<Tag> {
    [TitleTag(fullTitle), MetaName("description", description)]
  }

  /** The canonical link, then the Open Graph and Twitter card tags. */
  function CardTags(url: string, fullTitle: string, description: string): seq<Tag> {
    [ LinkTag("canonical", url),
      MetaProperty("og:title", fullTitle),
      MetaProperty("og:description", description),
      MetaProperty("og:url", url),
      MetaProperty("og:image", OgImage),
      MetaProperty("og:type", "website"),
      MetaProperty("og:site_name", "Codmek Softech"),
      MetaName("twitter:card", "summary_large_image"),
      MetaName("twitter:title", fullTitle),
      MetaName("twitter:description", description),
      MetaName("twitter:image", OgImage),
      MetaName("twitter:site", "@CodmekSoftech") ]
  }

  /** The tags inside the page's Helmet, in document order. */
  function HeadTags(props: SeoProps): seq<Tag> {
    var url := PageUrl(props.path);
    var fullTitle := FullTitle(props.title, props.path);
    FrontTags(fullTitle, props.description) + KeywordTags(props.keywords)
    + CardTags(url, fullTitle, props.description) + ScriptTags(JsonLdArray(props.jsonLd))
  }

  // ---------------------------------------------------------------------------
  // Reading the head back
  // ---------------------------------------------------------------------------

  /** What a tag is looked up by: its element and its name, property or relation. */
  datatype TagKey = KTitle | KName(name: string) | KProperty(property: string) | KLink(rel: string) | KScript

  function KeyOf(tag: Tag): TagKey {
    match tag
    case TitleTag(_) => KTitle
    case MetaName(n, _) => KName(n)
    case MetaProperty(p, _) => KProperty(p)
    case LinkTag(rel, _) => KLink(rel)
    case ScriptTag(_, _) => KScript
  }

  /** The text a tag carries: its title text, content or href. */
  function ValueOf(tag: Tag): string {
    match tag
    case TitleTag(t) => t
    case MetaName(_, c) => c
    case MetaProperty(_, c) => c
    case LinkTag(_, h) => h
    case ScriptTag(_, _) => []
  }

  /** What a reader of the head sees for `key`: the value of the first tag with that key. */
  function Lookup(tags: seq<Tag>, key: TagKey): (r: Option<string>)
    ensures r.None? <==> forall i :: 0 <= i < |tags| ==> KeyOf(tags[i]) != key
  {
    if tags == [] then None
    else if KeyOf(tags[0]) == key then Some(ValueOf(tags[0]))
    else Lookup(tags[1..], key)
  }

  /** The first tag with a key decides the lookup. */
  lemma {:induction false} LookupFirst(tags: seq<Tag>, key: TagKey, i: nat)
    requires i < |tags| && KeyOf(tags[i]) == key
    requires forall j :: 0 <= j < i ==> KeyOf(tags[j]) != key
    ensures Lookup(tags, key) == Some(ValueOf(tags[i]))
    decreases i
  {
    if i > 0 {
      assert KeyOf(tags[0]) != key;
      LookupFirst(tags[1..], key, i - 1);
    }
  }

  /** The JSON-LD records of the script tags, in document order. */
  function Scripts(tags: seq<Tag>): seq<Json> {
    if tags == [] then []
    else (if tags[0].ScriptTag? then [tags[0].body] else []) + Scripts(tags[1..])
  }

  lemma {:induction false} ScriptsAppend(a: seq<Tag>, b: seq<Tag>)
    ensures Scripts(a + b) == Scripts(a) + Scripts(b)
    decreases |a|
  {
    if a == [] {
      assert a + b == b;
    } else {
      var head := if a[0].ScriptTag? then [a[0].body] else [];
      assert (a + b)[0] == a[0];
      assert (a + b)[1..] == a[1..] + b;
      assert Scripts(a + b) == head + Scripts(a[1..] + b);
      ScriptsAppend(a[1..], b);
      assert Scripts(a) == head + Scripts(a[1..]);
    }
  }

  lemma {:induction false} ScriptsOfScriptTags(records: seq<Json>)
    ensures Scripts(ScriptTags(records)) == records
    decreases |records|
  {
    if records != [] {
      ScriptsOfScriptTags(records[1..]);
    }
  }

  lemma {:induction false} NoScripts(tags: seq<Tag>)
    requires forall i :: 0 <= i < |tags| ==> !tags[i].ScriptTag?
    ensures Scripts(tags) == []
    decreases |tags|
  {
    if tags != [] {
      NoScripts(tags[1..]);
    }
  }

  /**
   * One script per element of `jsonLdArray`, in the same order, and no other script.
   */
  lemma HeadScripts(props: SeoProps)
    ensures Scripts(HeadTags(props)) == JsonLdArray(props.jsonLd)
  {
    var front := FrontTags(FullTitle(props.title, props.path), props.description);
    var keys := KeywordTags(props.keywords);
    var cards := CardTags(PageUrl(props.path), FullTitle(props.title, props.path), props.description);
    var scripts := ScriptTags(JsonLdArray(props.jsonLd));
    NoScripts(front);
    NoScripts(keys);
    NoScripts(cards);
    ScriptsAppend(front, keys);
    ScriptsAppend(front + keys, cards);
    ScriptsAppend(front + keys + cards, scripts);
    ScriptsOfScriptTags(JsonLdArray(props.jsonLd));
  }

  lemma {:induction false} LookupAppend(a: seq<Tag>, b: seq<Tag>, key: TagKey)
    ensures Lookup(a + b, key) == if Lookup(a, key).Some? then Lookup(a, key) else Lookup(b, key)
    decreases |a|
  {
    if a == [] {
      assert a + b == b;
    } else {
      assert (a + b)[1..] == a[1..] + b;
      LookupAppend(a[1..], b, key);
    }
  }

  lemma CardLookups(url: string, fullTitle: string, description: string)
    ensures Lookup(CardTags(url, fullTitle, description), KLink("canonical")) == Some(url)
    ensures Lookup(CardTags(url, fullTitle, description), KProperty("og:title")) == Some(fullTitle)
    ensures Lookup(CardTags(url, fullTitle, description), KProperty("og:url")) == Some(url)
    ensures Lookup(CardTags(url, fullTitle, description), KName("twitter:title")) == Some(fullTitle)
    ensures Lookup(CardTags(url, fullTitle, description), KName("keywords")).None?
  {
    var cards := CardTags(url, fullTitle, description);
    LookupFirst(cards, KLink("canonical"), 0);
    LookupFirst(cards, KProperty("og:title"), 1);
    CardOgUrl(url, fullTitle, description);
    CardTwitterTitle(url, fullTitle, description);
    CardNoKeywords(url, fullTitle, description);
  }

  lemma CardOgUrl(url: string, fullTitle: string, description: string)
    ensures Lookup(CardTags(url, fullTitle, description), KProperty("og:url")) == Some(url)
  {
    var cards := CardTags(url, fullTitle, description);
    assert KeyOf(cards[1]) != KProperty("og:url") && KeyOf(cards[2]) != KProperty("og:url");
    LookupFirst(cards, KProperty("og:url"), 3);
  }

  lemma CardTwitterTitle(url: string, fullTitle: string, description: string)
    ensures Lookup(CardTags(url, fullTitle, description), KName("twitter:title")) == Some(fullTitle)
  {
    var cards := CardTags(url, fullTitle, description);
    assert KeyOf(cards[7]) != KName("twitter:title") by {
      assert "twitter:card"[8] != "twitter:title"[8];
    }
    LookupFirst(cards, KName("twitter:title"), 8);
  }

  lemma CardNoKeywords(url: string, fullTitle: string, description: string)
    ensures Lookup(CardTags(url, fullTitle, description), KName("keywords")).None?
  {
    var cards := CardTags(url, fullTitle, description);
    forall i | 0 <= i < |cards| ensures KeyOf(cards[i]) != KName("keywords") {
      assert 7 <= i ==> |cards[i].name| != 8;
    }
  }

  /** A lookup in the head goes to the title and description, then the keywords, then the cards. */
  lemma HeadLookup(props: SeoProps, key: TagKey)
    requires key != KScript
    ensures Lookup(HeadTags(props), key)
            == var front := FrontTags(FullTitle(props.title, props.path), props.description);
               var keys := KeywordTags(props.keywords);
               if Lookup(front, key).Some? then Lookup(front, key)
               else if Lookup(keys, key).Some? then Lookup(keys, key)
               else Lookup(CardTags(PageUrl(props.path), FullTitle(props.title, props.path), props.description), key)
  {
    var front := FrontTags(FullTitle(props.title, props.path), props.description);
    var keys := KeywordTags(props.keywords);
    var cards := CardTags(PageUrl(props.path), FullTitle(props.title, props.path), props.description);
    var scripts := ScriptTags(JsonLdArray(props.jsonLd));
    LookupAppend(front, keys, key);
    LookupAppend(front + keys, cards, key);
    LookupAppend(front + keys + cards, scripts, key);
    assert Lookup(scripts, key).None?;
  }

  /** The title and description tags answer only for the title and the description. */
  lemma FrontLookups(fullTitle: string, description: string, key: TagKey)
    ensures Lookup(FrontTags(fullTitle, description), key).Some? <==> key == KTitle || key == KName("description")
    ensures key == KTitle ==> Lookup(FrontTags(fullTitle, description), key) == Some(fullTitle)
  {
    LookupFirst(FrontTags(fullTitle, description), KTitle, 0);
  }

  /** The keywords tag answers only for the keywords. */
  lemma KeywordLookups(keywords: Option<string>, key: TagKey)
    ensures key != KName("keywords") ==> Lookup(KeywordTags(keywords), key).None?
  {
  }

  /** The title, `og:title` and `twitter:title` all carry the full title. */
  lemma HeadTitlesAgree(props: SeoProps)
    ensures Lookup(HeadTags(props), KTitle) == Some(FullTitle(props.title, props.path))
    ensures Lookup(HeadTags(props), KProperty("og:title")) == Some(FullTitle(props.title, props.path))
    ensures Lookup(HeadTags(props), KName("twitter:title")) == Some(FullTitle(props.title, props.path))
  {
    var fullTitle := FullTitle(props.title, props.path);
    CardLookups(PageUrl(props.path), fullTitle, props.description);
    FrontLookups(fullTitle, props.description, KTitle);
    HeadLookup(props, KTitle);
    FrontLookups(fullTitle, props.description, KProperty("og:title"));
    KeywordLookups(props.keywords, KProperty("og:title"));
    HeadLookup(props, KProperty("og:title"));
    FrontLookups(fullTitle, props.description, KName("twitter:title"));
    KeywordLookups(props.keywords, KName("twitter:title"));
    HeadLookup(props, KName("twitter:title"));
  }

  /** The canonical link and `og:url` both carry the page URL. */
  lemma HeadUrlsAgree(props: SeoProps)
    ensures Lookup(HeadTags(props), KLink("canonical")) == Some(PageUrl(props.path))
    ensures Lookup(HeadTags(props), KProperty("og:url")) == Some(PageUrl(props.path))
  {
    var fullTitle := FullTitle(props.title, props.path);
    CardLookups(PageUrl(props.path), fullTitle, props.description);
    FrontLookups(fullTitle, props.description, KLink("canonical"));
    KeywordLookups(props.keywords, KLink("canonical"));
    HeadLookup(props, KLink("canonical"));
    FrontLookups(fullTitle, props.description, KProperty("og:url"));
    KeywordLookups(props.keywords, KProperty("og:url"));
    HeadLookup(props, KProperty("og:url"));
  }

  /** The keywords tag is present exactly when a non-empty keyword string was given. */
  lemma HeadKeywordsPresent(props: SeoProps)
    ensures Lookup(HeadTags(props), KName("keywords")).Some? <==> props.keywords.Some? && props.keywords.value != []
  {
    var fullTitle := FullTitle(props.title, props.path);
    CardLookups(PageUrl(props.path), fullTitle, props.description);
    FrontLookups(fullTitle, props.description, KName("keywords"));
    HeadLookup(props, KName("keywords"));
    var keys := KeywordTags(props.keywords);
    if |keys| == 1 {
      LookupFirst(keys, KName("keywords"), 0);
    }
  }

  // ---------------------------------------------------------------------------
  // The article page's head
  // ---------------------------------------------------------------------------

  /** The BlogPosting record an article hands to its head. */
  function ArticleJsonLd(post: BlogPost): Json {
    JObj([ ("@context", JStr("https://schema.org")),
           ("@type", JStr("BlogPosting")),
           ("headline", JStr(post.title)),
           ("description", JStr(post.excerpt)),
           ("author", JObj([("@type", JStr("Organization")), ("name", JStr(post.author))])),
           ("datePublished", JStr(post.date)),
           ("publisher", JObj([("@type", JStr("Organization")), ("name", JStr("Codmek Softech")),
                               ("url", JStr("https://codmek.com"))])),
           ("url", JStr("https://codmek.com/blog/" + post.slug)) ])
  }

  /** The props an article page passes to its head. */
  function ArticleSeo(post: BlogPost): SeoProps {
    SeoProps(post.title, post.excerpt, "/blog/" + post.slug,
             Some(JoinAll(post.tags, ", ")), OneRecord(ArticleJsonLd(post)))
  }

  /** The BlogPosting record's `url` member is the article's page URL. */
  lemma ArticleRecordUrl(post: BlogPost)
    ensures Member(ArticleJsonLd(post).members, "url") == Some(JStr(PageUrl("/blog/" + post.slug)))
  {
    var m := ArticleJsonLd(post).members;
    assert m[7] == ("url", JStr("https://codmek.com/blog/" + post.slug));
    assert forall i :: 0 <= i < 7 ==> m[i].0 != "url";
    assert m[..7] + [m[7]] == m;
    MemberAfterOthers(m[..7], "url", m[7].1);
    assert SiteUrl + ("/blog/" + post.slug) == "https://codmek.com/blog/" + post.slug;
  }

  /** A member placed after members with other names is the one found. */
  lemma {:induction false} MemberAfterOthers(front: seq<(string, Json)>, key: string, value: Json)
    requires forall i :: 0 <= i < |front| ==> front[i].0 != key
    ensures Member(front + [(key, value)], key) == Some(value)
    decreases |front|
  {
    if front != [] {
      assert (front + [(key, value)])[1..] == front[1..] + [(key, value)];
      MemberAfterOthers(front[1..], key, value);
    }
  }

  /**
   * An article's head names the same URL three times over: its canonical link, its
   * `og:url`, and the `url` of its one BlogPosting record. Its title carries the site suffix.
   */
  lemma ArticleHeadConsistent(post: BlogPost)
    ensures Lookup(HeadTags(ArticleSeo(post)), KLink("canonical")) == Some(PageUrl("/blog/" + post.slug))
    ensures Lookup(HeadTags(ArticleSeo(post)), KProperty("og:url")) == Some(PageUrl("/blog/" + post.slug))
    ensures Scripts(HeadTags(ArticleSeo(post))) == [ArticleJsonLd(post)]
    ensures Member(ArticleJsonLd(post).members, "url") == Some(JStr(PageUrl("/blog/" + post.slug)))
    ensures Lookup(HeadTags(ArticleSeo(post)), KTitle) == Some(post.title + TitleSuffix)
  {
    var props := ArticleSeo(post);
    assert props.path != "/" by { assert |props.path| > 1; }
    HeadUrlsAgree(props);
    HeadTitlesAgree(props);
    HeadScripts(props);
    ArticleRecordUrl(post);
  }
}
