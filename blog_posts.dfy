/**
 * The blog's content table: the post record, the seven shipped posts, lookup by slug
 * (`Array.prototype.find`) and the category list (`[...new Set(categories)]`, which keeps
 * first-occurrence order).
 */
module BlogData {
  import opened Wrappers

  datatype BlogPost = BlogPost(
    slug: string,
    title: string,
    excerpt: string,
    content: string,
    author: string,
    date: string,
    readTime: string,
    category: string,
    tags: seq<string>,
    coverGradient: string)

  // ---------------------------------------------------------------------------
  // The shipped posts. Bodies are cut down to the blocks the renderer lemmas use as
  // test vectors; every other field is as shipped.
  // ---------------------------------------------------------------------------

  /** The heading block before the "Production AI systems need:" block. */
  const LessonOneHeading: string := "## Lesson 1: The Model Is the Easy Part"

  /** A prose line followed by four `- ` lines, all in one block (no blank line between them). */
  const ProductionNeedsBlock: string :=
    "Production AI systems need:\n"
    + "- **Data pipelines** that handle messy, evolving data\n"
    + "- **Monitoring** that catches model drift before users do\n"
    + "- **Fallback mechanisms** for when the model is uncertain\n"
    + "- **Version control** for models, data, and configurations"

  const OurFrameworkHeading: string := "## Our Framework"

  const AuditHeading: string := "1. Audit Before Deploy"
  const AuditBody: string :=
    "Every model undergoes bias testing across demographic dimensions before deployment. "
    + "Not just accuracy metrics \U{2014} distributional fairness metrics."

  /** A `### ` heading whose body line follows after a single newline, inside the same block. */
  const AuditBeforeDeployBlock: string := "### " + AuditHeading + "\n" + AuditBody

  const BlogPosts: seq<BlogPost> := [
    BlogPost(
      "future-of-agi-2026",
      "The Road to AGI: Where We Stand in 2026",
      "Artificial General Intelligence remains the holy grail of AI research. Here's an honest look at how far we've come, what's changed, and what the next milestones look like.",
      "",
      "Codmek Research", "2026-02-18", "6 min read", "Research",
      ["AGI", "AI Research", "Cognitive Systems"],
      "from-primary/20 via-primary/5 to-transparent"),
    BlogPost(
      "neural-interpretability-matters",
      "Why Neural Interpretability Is the Most Important Problem in AI",
      "We're building systems we don't fully understand. Neural interpretability isn't just an academic exercise \U{2014} it's the key to safe, trustworthy, and controllable AI.",
      "",
      "Codmek Research", "2026-02-12", "5 min read", "Research",
      ["Interpretability", "Neural Networks", "AI Safety"],
      "from-accent/15 via-accent/5 to-transparent"),
    BlogPost(
      "building-ai-products-that-last",
      "Building AI Products That Last: Lessons from the Trenches",
      "Most AI products fail not because of bad models, but because of bad engineering. Here's what we've learned about building AI systems that survive contact with reality.",
      LessonOneHeading + "\n\n" + ProductionNeedsBlock,
      "Codmek Solutions", "2026-02-05", "7 min read", "Engineering",
      ["AI Products", "MLOps", "Software Engineering"],
      "from-secondary/30 via-secondary/10 to-transparent"),
    BlogPost(
      "computational-biology-digital-twins",
      "Digital Twins in Medicine: Simulating Life to Save It",
      "Computational biology is entering a new era. Digital twins \U{2014} virtual replicas of biological systems \U{2014} are transforming how we understand disease and develop treatments.",
      "",
      "Codmek Research", "2026-01-28", "6 min read", "Research",
      ["Digital Twins", "Computational Biology", "Medical AI"],
      "from-primary/15 via-muted/10 to-transparent"),
    BlogPost(
      "edge-ai-autonomous-robotics",
      "Edge AI: Bringing Intelligence to the Physical World",
      "Cloud-based AI is powerful but slow. For autonomous robots, drones, and real-time systems, intelligence needs to live at the edge \U{2014} right where decisions happen.",
      "",
      "Codmek Solutions", "2026-01-20", "5 min read", "Engineering",
      ["Edge AI", "Robotics", "Autonomous Systems"],
      "from-muted/20 via-muted/5 to-transparent"),
    BlogPost(
      "responsible-ai-ethics-framework",
      "Beyond Buzzwords: A Practical Framework for Responsible AI",
      "Everyone talks about responsible AI. Few actually implement it. Here's our framework for building AI systems that are fair, transparent, and accountable.",
      OurFrameworkHeading + "\n\n" + AuditBeforeDeployBlock,
      "Codmek Advisory", "2026-01-10", "6 min read", "Industry",
      ["AI Ethics", "Responsible AI", "AI Governance"],
      "from-accent/10 via-primary/5 to-transparent"),
    BlogPost(
      "graph-neural-networks-explained",
      "Graph Neural Networks: Making Sense of Connected Data",
      "Not all data fits in rows and columns. Graph Neural Networks unlock intelligence from relationships \U{2014} social networks, molecular structures, knowledge bases, and more.",
      "",
      "Codmek Research", "2026-01-03", "7 min read", "Research",
      ["GNN", "Graph Intelligence", "Machine Learning"],
      "from-secondary/20 via-primary/5 to-transparent")
  ]

  // ---------------------------------------------------------------------------
  // Lookup by slug
  // ---------------------------------------------------------------------------

  /** `posts.find((p) => p.slug === slug)`: the first post in list order with that slug. */
  function FindBySlug(posts: seq<BlogPost>, slug: string): (r: Option<BlogPost>)
    ensures r.None? <==> forall i :: 0 <= i < |posts| ==> posts[i].slug != slug
    ensures r.Some? ==> r.value.slug == slug
    ensures r.Some? ==> exists i :: 0 <= i < |posts| && posts[i] == r.value
                                   && forall j :: 0 <= j < i ==> posts[j].slug != slug
  {
    if posts == [] then None
    else if posts[0].slug == slug then Some(posts[0])
    else
      var r := FindBySlug(posts[1..], slug);
      assert r.Some? ==> exists i :: 1 <= i < |posts| && posts[i] == r.value
                                    && forall j :: 0 <= j < i ==> posts[j].slug != slug by {
        if r.Some? {
          var i :| 0 <= i < |posts[1..]| && posts[1..][i] == r.value
                   && forall j :: 0 <= j < i ==> posts[1..][j].slug != slug;
          assert posts[i + 1] == r.value;
          forall j | 0 <= j < i + 1 ensures posts[j].slug != slug {
            if j > 0 { assert posts[j] == posts[1..][j - 1]; }
          }
        }
      }
      r
  }

  /** `getPostBySlug(slug)` over the shipped list. */
  function GetPostBySlug(slug: string): Option<BlogPost> {
    FindBySlug(BlogPosts, slug)
  }

  /** When slugs are distinct, the post found for a slug is the post at that slug's index. */
  lemma FindBySlugUnique(posts: seq<BlogPost>, k: nat)
    requires k < |posts|
    requires forall i, j :: 0 <= i < j < |posts| ==> posts[i].slug != posts[j].slug
    ensures FindBySlug(posts, posts[k].slug) == Some(posts[k])
  {
    var r := FindBySlug(posts, posts[k].slug);
    var i :| 0 <= i < |posts| && posts[i] == r.value && forall j :: 0 <= j < i ==> posts[j].slug != posts[k].slug;
    assert !(k < i);
    assert !(i < k);
  }

  /** The slug of every post, in list order. */
  function SlugColumn(posts: seq<BlogPost>): (r: seq<string>)
    ensures |r| == |posts| && forall i :: 0 <= i < |posts| ==> r[i] == posts[i].slug
  {
    seq(|posts|, i requires 0 <= i < |posts| => posts[i].slug)
  }

  lemma SlugColumnShipped()
    ensures SlugColumn(BlogPosts)
            == ["future-of-agi-2026", "neural-interpretability-matters", "building-ai-products-that-last", "computational-biology-digital-twins", "edge-ai-autonomous-robotics", "responsible-ai-ethics-framework", "graph-neural-networks-explained"]
  {
  }

  /** The seven shipped slugs are non-empty and pairwise distinct. */
  lemma ShippedSlugsDistinct()
    ensures |BlogPosts| == 7
    ensures forall i, j :: 0 <= i < j < |BlogPosts| ==> BlogPosts[i].slug != BlogPosts[j].slug
    ensures forall i :: 0 <= i < |BlogPosts| ==> |BlogPosts[i].slug| > 0
  {
    SlugColumnShipped();
    var s := SlugColumn(BlogPosts);
    assert s[1][0] == 'n' && s[2][0] == 'b' && s[5][0] == 'r' && s[6][0] == 'g';
    assert |s[0]| == 18 && |s[3]| == 35 && |s[4]| == 27;
  }

  // ---------------------------------------------------------------------------
  // Categories
  // ---------------------------------------------------------------------------

  predicate NoDuplicates<T(==)>(xs: seq<T>) {
    forall i, j :: 0 <= i < j < |xs| ==> xs[i] != xs[j]
  }

  /** The index of the first occurrence of `x`. */
  function FirstIndex<T(==)>(xs: seq<T>, x: T): (k: nat)
    requires x in xs
    ensures k < |xs| && xs[k] == x
    ensures forall j :: 0 <= j < k ==> xs[j] != x
  {
    if xs[0] == x then 0 else 1 + FirstIndex(xs[1..], x)
  }

  lemma FirstIndexOfPrefix<T>(xs: seq<T>, n: nat, x: T)
    requires n <= |xs| && x in xs[..n]
    ensures FirstIndex(xs, x) == FirstIndex(xs[..n], x)
  {
    var k := FirstIndex(xs[..n], x);
    var k' := FirstIndex(xs, x);
    assert xs[k] == x;
    assert xs[..n][k'] == x || k' >= n || k <= k';
  }

  /**
   * `[...new Set(xs)]`: each value once, at the place of its first occurrence.
   * Built left to right, as the set receives its elements.
   */
  function Dedup<T(==,!new)>(xs: seq<T>): (r: seq<T>)
    ensures NoDuplicates(r)
    ensures forall x :: x in r <==> x in xs
    decreases |xs|
  {
    if xs == [] then []
    else
      var init := xs[..|xs| - 1];
      var last := xs[|xs| - 1];
      assert xs == init + [last];
      var r := Dedup(init);
      if last in r then r else r + [last]
  }

  /** Adding one value at the end of the input adds it to the end of the output, unless already seen. */
  lemma DedupSnoc<T(!new)>(xs: seq<T>, x: T)
    ensures Dedup(xs + [x]) == if x in xs then Dedup(xs) else Dedup(xs) + [x]
  {
    assert (xs + [x])[..|xs|] == xs;
  }

  /** The output lists values in the order of their first occurrence in the input. */
  lemma {:induction false} DedupFirstOccurrenceOrder<T(!new)>(xs: seq<T>, i: nat, j: nat)
    requires i < j < |Dedup(xs)|
    ensures FirstIndex(xs, Dedup(xs)[i]) < FirstIndex(xs, Dedup(xs)[j])
    decreases |xs|
  {
    var init := xs[..|xs| - 1];
    var last := xs[|xs| - 1];
    assert xs == init + [last];
    var r := Dedup(init);
    var out := Dedup(xs);
    FirstIndexOfPrefix(xs, |xs| - 1, out[i]);
    if j < |r| {
      DedupFirstOccurrenceOrder(init, i, j);
      FirstIndexOfPrefix(xs, |xs| - 1, out[j]);
    } else {
      assert out[j] == last && last !in init;
      assert FirstIndex(xs, last) == |xs| - 1;
    }
  }

  /** The category of every post, in list order. */
  function CategoryColumn(posts: seq<BlogPost>): (r: seq<string>)
    ensures |r| == |posts| && forall i :: 0 <= i < |posts| ==> r[i] == posts[i].category
  {
    seq(|posts|, i requires 0 <= i < |posts| => posts[i].category)
  }

  /** `getCategories()` over any post list. */
  function CategoriesOf(posts: seq<BlogPost>): (r: seq<string>)
    ensures NoDuplicates(r)
    ensures forall c :: c in r <==> exists i :: 0 <= i < |posts| && posts[i].category == c
  {
    var column := CategoryColumn(posts);
    var r := Dedup(column);
    assert forall c :: c in column <==> exists i :: 0 <= i < |posts| && posts[i].category == c by {
      forall c | c in column ensures exists i :: 0 <= i < |posts| && posts[i].category == c {
        var i :| 0 <= i < |column| && column[i] == c;
      }
    }
    r
  }

  /** `getCategories()` */
  function GetCategories(): seq<string> {
    CategoriesOf(BlogPosts)
  }

  lemma CategoryColumnShipped()
    ensures CategoryColumn(BlogPosts)
            == ["Research", "Research", "Engineering", "Research", "Engineering", "Industry", "Research"]
  {
  }

  /** The shape of the shipped category column: three distinct values r, e, i as r r e r e i r. */
  lemma DedupColumnShape<T(!new)>(r: T, e: T, i: T)
    requires r != e && r != i && e != i
    ensures Dedup([r, r, e, r, e, i, r]) == [r, e, i]
  {
    DedupColumnHead(r, e);
    var x4 := [r, r, e, r];
    var x5 := x4 + [e];
    assert Dedup(x5) == [r, e] by { DedupSnoc(x4, e); assert x4[2] == e; }
    var x6 := x5 + [i];
    assert Dedup(x6) == [r, e, i] by { DedupSnoc(x5, i); assert i !in x5; }
    var x7 := x6 + [r];
    assert Dedup(x7) == [r, e, i] by { DedupSnoc(x6, r); assert x6[0] == r; }
    assert x7 == [r, r, e, r, e, i, r];
  }

  lemma DedupColumnHead<T(!new)>(r: T, e: T)
    requires r != e
    ensures Dedup([r, r, e, r]) == [r, e]
  {
    var x1 := [r];
    assert Dedup(x1) == [r] by { DedupSnoc([], r); assert [] + [r] == x1; }
    var x2 := x1 + [r];
    assert Dedup(x2) == [r] by { DedupSnoc(x1, r); }
    var x3 := x2 + [e];
    assert Dedup(x3) == [r, e] by { DedupSnoc(x2, e); assert e !in x2; }
    var x4 := x3 + [r];
    assert Dedup(x4) == [r, e] by { DedupSnoc(x3, r); assert r in x3; }
    assert x4 == [r, r, e, r];
  }

  /** Categories come out in order of first appearance: Research, then Engineering, then Industry. */
  lemma ShippedCategories()
    ensures GetCategories() == ["Research", "Engineering", "Industry"]
  {
    CategoryColumnShipped();
    DedupColumnShape("Research", "Engineering", "Industry");
  }
}
