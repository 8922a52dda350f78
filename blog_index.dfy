/**
 * The blog index page: a row of category buttons, "All" first, and the grid of post cards
 * for the active category. Each card links to its article.
 */
module BlogIndex {
  import opened Wrappers
  import opened Strings
  import opened BlogData
  import opened BlogRender

  /** `posts.filter((p) => p.category === category)` */
  function FilterByCategory(posts: seq<BlogPost>, category: string): (r: seq<BlogPost>)
    ensures forall p :: p in r <==> p in posts && p.category == category
    ensures |r| <= |posts|
  {
    if posts == [] then []
    else (if posts[0].category == category then [posts[0]] else []) + FilterByCategory(posts[1..], category)
  }

  /**
   * Filtering distributes over concatenation, so the result keeps exactly the matching posts,
   * each where it stood.
   */
  lemma {:induction false} FilterByCategoryAppend(a: seq<BlogPost>, b: seq<BlogPost>, category: string)
    ensures FilterByCategory(a + b, category) == FilterByCategory(a, category) + FilterByCategory(b, category)
    decreases |a|
  {
    if a == [] {
      assert a + b == b;
    } else {
      assert (a + b)[1..] == a[1..] + b;
      FilterByCategoryAppend(a[1..], b, category);
    }
  }

  /** A post whose category is the one asked for is kept on its own. */
  lemma FilterByCategorySingle(p: BlogPost, category: string)
    ensures FilterByCategory([p], category) == if p.category == category then [p] else []
  {
    assert [p][1..] == [];
  }

  /** The category buttons: "All", then every category in first-appearance order. */
  function CategoryButtons(): (r: seq<string>)
    ensures |r| >= 1 && r[0] == "All"
    ensures r[1..] == GetCategories()
  {
    ["All"] + GetCategories()
  }

  /** `filtered` for the active category. */
  function FilteredPosts(posts: seq<BlogPost>, active: string): (r: seq<BlogPost>)
    ensures active == "All" ==> r == posts
    ensures active != "All" ==> forall p :: p in r <==> p in posts && p.category == active
  {
    if active == "All" then posts else FilterByCategory(posts, active)
  }

  /** The card for a post links to `/blog/` followed by its slug. */
  function CardLink(post: BlogPost): (link: string)
    ensures StartsWith(link, "/blog/") && link[6..] == post.slug
  {
    "/blog/" + post.slug
  }

  class BlogIndexPage {
    var activeCategory: string

    /** The active category is always one of the buttons (each of which selects posts, by `EveryButtonSelectsAPost`). */
    predicate Valid()
      reads this
    {
      activeCategory in CategoryButtons()
    }

    /** The page opens on "All". */
    constructor()
      ensures activeCategory == "All"
      ensures Valid()
    {
      activeCategory := "All";
    }

    /** Clicking the button at position `i` makes its label the active category. */
    method ClickCategory(i: nat)
      requires i < |CategoryButtons()|
      modifies this
      ensures activeCategory == CategoryButtons()[i]
      ensures Valid()
    {
      activeCategory := CategoryButtons()[i];
    }

    function Filtered(): seq<BlogPost>
      reads this
    {
      FilteredPosts(BlogPosts, activeCategory)
    }
  }

  /** Whichever category button is active, a non-empty post list shows at least one card. */
  lemma EveryButtonSelectsAPost(posts: seq<BlogPost>, active: string)
    requires |posts| >= 1
    requires active == "All" || active in CategoriesOf(posts)
    ensures |FilteredPosts(posts, active)| >= 1
  {
    if active != "All" {
      var i :| 0 <= i < |posts| && posts[i].category == active;
      assert posts[i] in FilteredPosts(posts, active);
    }
  }

  /** On the shipped page, every button shows a non-empty grid. */
  lemma ShippedButtonsSelectPosts(page: BlogIndexPage)
    requires page.Valid()
    ensures |page.Filtered()| >= 1
  {
    ShippedSlugsDistinct();
    var buttons := CategoryButtons();
    var active := page.activeCategory;
    if active != "All" {
      var k :| 0 <= k < |buttons| && buttons[k] == active;
      assert GetCategories()[k - 1] == active;
    }
    EveryButtonSelectsAPost(BlogPosts, active);
  }

  /** Every card's link opens the article of that very post. */
  lemma CardLinkOpensItsPost(k: nat)
    requires k < |BlogPosts|
    ensures BlogPostPage(BlogPosts, Some(CardLink(BlogPosts[k])[6..]))
            == Article(BlogPosts[k], RenderContent(BlogPosts[k].content))
  {
    ShippedSlugsDistinct();
    FindBySlugUnique(BlogPosts, k);
  }
}
