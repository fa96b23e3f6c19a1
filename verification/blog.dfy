/** The blog section's catalog: the fixed list of posts, the category and
    free-text filter over it, and the category badges (facet counts). */
module Blog {
  import opened Text

  datatype Post = Post(
    id: string,
    title: string,
    excerpt: string,
    author: string,
    publishedDate: string,
    category: string,
    tags: seq<string>,
    readTime: nat,
    featured: bool,
    views: nat,
    comments: nat)

  /** The category button that lifts the category restriction. */
  const AllCategory: string := "All"

  /** The category buttons, in display order. */
  const Categories: seq<string> :=
    ["All", "Frontend", "Backend", "AI/ML", "Database", "DevOps", "Full Stack"]

  /** The eight seeded posts, in display order. */
  const SamplePosts: seq<Post> := [
    Post("1", "Building Scalable React Applications with TypeScript",
      "Learn advanced patterns and best practices for building maintainable and scalable React applications using TypeScript.",
      "Peter Muturi", "2024-02-15", "Frontend",
      ["React", "TypeScript", "Architecture", "Best Practices"], 8, true, 1245, 42),
    Post("2", "Microservices Architecture: Patterns and Anti-patterns",
      "A comprehensive guide to designing robust microservices architectures while avoiding common pitfalls.",
      "Peter Muturi", "2024-02-10", "Backend",
      ["Microservices", "Architecture", "Node.js", "Docker"], 12, true, 1890, 56),
    Post("3", "Machine Learning in Production: From Model to Deployment",
      "Practical guide to deploying machine learning models in production environments with monitoring and scaling.",
      "Peter Muturi", "2024-02-05", "AI/ML",
      ["Machine Learning", "MLOps", "Python", "Deployment"], 10, false, 980, 31),
    Post("4", "Database Optimization Techniques for High-Traffic Applications",
      "Advanced database optimization strategies to handle millions of requests while maintaining performance.",
      "Peter Muturi", "2024-01-28", "Database",
      ["Database", "Performance", "SQL", "NoSQL"], 9, false, 1120, 38),
    Post("5", "Modern CSS Grid & Flexbox: Advanced Layout Techniques",
      "Master complex layout challenges using CSS Grid and Flexbox with real-world examples and patterns.",
      "Peter Muturi", "2024-01-20", "Frontend",
      ["CSS", "Grid", "Flexbox", "Layout"], 7, true, 1560, 47),
    Post("6", "Container Orchestration with Kubernetes: A Practical Guide",
      "Step-by-step guide to container orchestration, scaling, and management using Kubernetes in production.",
      "Peter Muturi", "2024-01-15", "DevOps",
      ["Kubernetes", "Docker", "DevOps", "Containers"], 11, false, 1340, 39),
    Post("7", "Real-time Applications with WebSockets and Socket.io",
      "Building scalable real-time applications using WebSockets and Socket.io with Node.js and React.",
      "Peter Muturi", "2024-01-10", "Full Stack",
      ["WebSockets", "Real-time", "Node.js", "Socket.io"], 6, false, 890, 28),
    Post("8", "Progressive Web Apps: From Concept to Implementation",
      "Complete guide to building Progressive Web Apps with offline capabilities and native app features.",
      "Peter Muturi", "2024-01-05", "Frontend",
      ["PWA", "Service Workers", "Web App Manifest", "Offline"], 8, false, 1020, 33)
  ]

  /** The category half of the filter. */
  predicate MatchesCategory(p: Post, category: string) {
    category == AllCategory || p.category == category
  }

  /** Case-insensitive substring test used by the search box. */
  predicate TextMatches(field: string, query: string) {
    Includes(Lower(field), Lower(query))
  }

  /** The search half of the filter: an empty query matches everything,
      otherwise the query must occur in the title, the excerpt or some tag. */
  predicate MatchesSearch(p: Post, query: string) {
    || query == ""
    || TextMatches(p.title, query)
    || TextMatches(p.excerpt, query)
    || exists t :: t in p.tags && TextMatches(t, query)
  }

  predicate Matches(p: Post, category: string, query: string) {
    MatchesCategory(p, category) && MatchesSearch(p, query)
  }

  /** `xs` is an order-preserving subsequence of `ys`. */
  ghost predicate Subsequence<T>(xs: seq<T>, ys: seq<T>)
    decreases |ys|
  {
    if |xs| == 0 then true
    else if |ys| == 0 then false
    else (xs[0] == ys[0] && Subsequence(xs[1..], ys[1..])) || Subsequence(xs, ys[1..])
  }

  /** `filteredPosts`: the posts passing both filters, in catalog order. */
  function FilterPosts(posts: seq<Post>, category: string, query: string): (r: seq<Post>)
    ensures forall p :: p in r ==> p in posts && Matches(p, category, query)
    ensures forall p :: p in posts && Matches(p, category, query) ==> p in r
    ensures Subsequence(r, posts)
    ensures |r| <= |posts|
  {
    if |posts| == 0 then []
    else
      var rest := FilterPosts(posts[1..], category, query);
      if Matches(posts[0], category, query) then [posts[0]] + rest else rest
  }

  /** The filter keeps every copy of a matching post and no copy of any other:
      each post occurs in the list as often as in the catalog if it matches,
      and not at all otherwise. */
  lemma {:induction false} FilterPostsMultiplicity(posts: seq<Post>, category: string, query: string)
    ensures var r := FilterPosts(posts, category, query);
      forall p :: multiset(r)[p] == if Matches(p, category, query) then multiset(posts)[p] else 0
  {
    if |posts| > 0 {
      FilterPostsMultiplicity(posts[1..], category, query);
      assert posts == [posts[0]] + posts[1..];
      assert multiset(posts) == multiset([posts[0]]) + multiset(posts[1..]);
    }
  }

  /** Queries that differ only in the case of their letters match the same posts. */
  lemma SearchIgnoresCase(p: Post, query: string, query': string)
    requires Lower(query) == Lower(query')
    ensures MatchesSearch(p, query) <==> MatchesSearch(p, query')
  {
    assert |query| == |Lower(query)| == |query'|;
  }

  /** ... and so the listed posts do not depend on the case of the query. */
  lemma {:induction false} FilterIgnoresCase(posts: seq<Post>, category: string, query: string, query': string)
    requires Lower(query) == Lower(query')
    ensures FilterPosts(posts, category, query) == FilterPosts(posts, category, query')
  {
    if |posts| > 0 {
      SearchIgnoresCase(posts[0], query, query');
      FilterIgnoresCase(posts[1..], category, query, query');
    }
  }

  /** An empty query does not narrow the list at all beyond the category. */
  lemma {:induction false} EmptyQueryIsCategoryOnly(posts: seq<Post>, category: string)
    ensures FilterPosts(posts, category, "") == FilterCategory(posts, category)
  {
    if |posts| > 0 {
      EmptyQueryIsCategoryOnly(posts[1..], category);
    }
  }

  /** The posts of one category (every post for "All"), in catalog order. */
  function FilterCategory(posts: seq<Post>, category: string): (r: seq<Post>)
    ensures |r| <= |posts|
    ensures forall k :: 0 <= k < |r| ==> MatchesCategory(r[k], category)
    ensures category == AllCategory ==> r == posts
  {
    if |posts| == 0 then []
    else
      var rest := FilterCategory(posts[1..], category);
      if MatchesCategory(posts[0], category) then [posts[0]] + rest else rest
  }

  /** The category filter lists a post exactly when the catalog holds it and it
      belongs to the category. */
  lemma {:induction false} FilterCategoryMembers(posts: seq<Post>, category: string)
    ensures forall p :: p in FilterCategory(posts, category) <==> p in posts && MatchesCategory(p, category)
  {
    if |posts| > 0 {
      FilterCategoryMembers(posts[1..], category);
      assert posts == [posts[0]] + posts[1..];
    }
  }

  /** The number of posts of the given category. */
  function CountCategory(posts: seq<Post>, category: string): (n: nat)
    ensures n <= |posts|
  {
    if |posts| == 0 then 0
    else (if posts[0].category == category then 1 else 0) + CountCategory(posts[1..], category)
  }

  /** The badge on a category button: the number of catalog posts in that
      category, the whole catalog for "All". The search text plays no part. */
  function FacetCount(posts: seq<Post>, category: string): (n: nat)
    ensures category == AllCategory ==> n == |posts|
    ensures category != AllCategory ==> n == CountCategory(posts, category)
  {
    FacetCountIsCount(posts, category);
    |FilterCategory(posts, category)|
  }

  lemma {:induction false} FacetCountIsCount(posts: seq<Post>, category: string)
    ensures category != AllCategory ==> |FilterCategory(posts, category)| == CountCategory(posts, category)
  {
    if |posts| > 0 {
      FacetCountIsCount(posts[1..], category);
    }
  }

  /** The badge equals the length of the list that button shows while the
      search box is empty. */
  lemma FacetCountIsListedCount(posts: seq<Post>, category: string)
    ensures FacetCount(posts, category) == |FilterPosts(posts, category, "")|
  {
    EmptyQueryIsCategoryOnly(posts, category);
  }

  /** One unfolding of the category filter. */
  lemma FilterCategoryStep(posts: seq<Post>, k: nat, category: string)
    requires k < |posts|
    ensures FilterCategory(posts[k..], category)
      == Keep(posts[k], category) + FilterCategory(posts[k + 1..], category)
  {
    assert posts[k..][1..] == posts[k + 1..];
  }

  /** The category of each seeded post, in catalog order. */
  const SampleCategoryOrder: seq<string> :=
    ["Frontend", "Backend", "AI/ML", "Database", "Frontend", "DevOps", "Full Stack", "Frontend"]

  /** Eight posts carrying the seeded catalog's categories, position by position. */
  predicate SampleProfile(s: seq<Post>) {
    |s| == 8 && forall k :: 0 <= k < 8 ==> s[k].category == SampleCategoryOrder[k]
  }

  lemma SampleCategories()
    ensures SampleProfile(SamplePosts)
  {
  }

  /** A post's contribution to the category filter. */
  function Keep(p: Post, category: string): seq<Post> {
    if MatchesCategory(p, category) then [p] else []
  }

  /** Eight posts of which exactly positions 0, 4 and 7 belong to the category
      are filtered to those three, in order. */
  lemma FilterAtZeroFourSeven(s: seq<Post>, c: string)
    requires |s| == 8
    requires forall i :: 0 <= i < 8 ==> (MatchesCategory(s[i], c) <==> i in {0, 4, 7})
    ensures FilterCategory(s, c) == [s[0], s[4], s[7]]
  {
    var last, twoLast := [s[7]], [s[4], s[7]];
    assert s[8..] == [];
    FilterCategoryStep(s, 7, c);
    assert FilterCategory(s[7..], c) == last;
    FilterCategoryStep(s, 6, c);
    FilterCategoryStep(s, 5, c);
    assert FilterCategory(s[5..], c) == last;
    FilterCategoryStep(s, 4, c);
    assert FilterCategory(s[4..], c) == twoLast;
    FilterCategoryStep(s, 3, c);
    FilterCategoryStep(s, 2, c);
    FilterCategoryStep(s, 1, c);
    assert FilterCategory(s[1..], c) == twoLast;
    FilterCategoryStep(s, 0, c);
    assert s[0..] == s;
  }

  /** Over posts with the seeded categories, "Frontend" keeps positions 0, 4 and 7. */
  lemma FrontendOfProfile(s: seq<Post>)
    requires SampleProfile(s)
    ensures FilterCategory(s, "Frontend") == [s[0], s[4], s[7]]
  {
    // The category names are distinct strings: "Frontend" and "Database" already differ in their first letter.
    assert "Frontend"[0] != "Database"[0];
    assert forall i :: 0 <= i < 8 ==> (MatchesCategory(s[i], "Frontend") <==> i in {0, 4, 7});
    FilterAtZeroFourSeven(s, "Frontend");
  }

  /** Selecting "Frontend" with an empty search lists posts 1, 5 and 8, in that order. */
  lemma FrontendExample()
    ensures FilterPosts(SamplePosts, "Frontend", "") == [SamplePosts[0], SamplePosts[4], SamplePosts[7]]
    ensures |FilterPosts(SamplePosts, "Frontend", "")| == 3
  {
    SampleCategories();
    EmptyQueryIsCategoryOnly(SamplePosts, "Frontend");
    FrontendOfProfile(SamplePosts);
  }

  /** No post of the category, no count. */
  lemma {:induction false} CountAbsent(posts: seq<Post>, category: string)
    requires forall i :: 0 <= i < |posts| ==> posts[i].category != category
    ensures CountCategory(posts, category) == 0
  {
    if |posts| > 0 {
      CountAbsent(posts[1..], category);
    }
  }

  /** A category held by exactly one post counts once. */
  lemma {:induction false} CountUnique(posts: seq<Post>, category: string, k: nat)
    requires k < |posts| && posts[k].category == category
    requires forall i :: 0 <= i < |posts| && i != k ==> posts[i].category != category
    ensures CountCategory(posts, category) == 1
  {
    if k == 0 {
      CountAbsent(posts[1..], category);
    } else {
      CountUnique(posts[1..], category, k - 1);
    }
  }

  /** Over posts with the seeded categories, a category held by one post only. */
  lemma SingleOfProfile(s: seq<Post>, k: nat)
    requires SampleProfile(s) && k in {1, 2, 3, 5, 6}
    ensures FacetCount(s, SampleCategoryOrder[k]) == 1
  {
    var c := SampleCategoryOrder[k];
    // The category names are distinct strings: "Frontend" and "Database" already differ in their first letter.
    assert "Frontend"[0] != "Database"[0];
    assert forall i :: 0 <= i < 8 && i != k ==> s[i].category != c;
    CountUnique(s, c, k);
  }

  /** Over posts with the seeded categories, each category's badge. */
  lemma FacetsOfProfile(s: seq<Post>)
    requires SampleProfile(s)
    ensures FacetCount(s, "All") == 8
    ensures FacetCount(s, "Frontend") == 3
    ensures FacetCount(s, "Backend") == 1
    ensures FacetCount(s, "AI/ML") == 1
    ensures FacetCount(s, "Database") == 1
    ensures FacetCount(s, "DevOps") == 1
    ensures FacetCount(s, "Full Stack") == 1
    ensures forall c :: c in Categories ==> FacetCount(s, c) >= 1
  {
    FrontendOfProfile(s);
    SingleOfProfile(s, 1);
    SingleOfProfile(s, 2);
    SingleOfProfile(s, 3);
    SingleOfProfile(s, 5);
    SingleOfProfile(s, 6);
  }

  /** The category badges of the seeded catalog. Every category button shows a
      non-zero badge, and the six specific badges add up to the "All" badge,
      because every post carries one of them. */
  lemma SampleFacetCounts()
    ensures FacetCount(SamplePosts, "All") == 8
    ensures FacetCount(SamplePosts, "Frontend") == 3
    ensures FacetCount(SamplePosts, "Backend") == 1
    ensures FacetCount(SamplePosts, "AI/ML") == 1
    ensures FacetCount(SamplePosts, "Database") == 1
    ensures FacetCount(SamplePosts, "DevOps") == 1
    ensures FacetCount(SamplePosts, "Full Stack") == 1
    ensures forall c :: c in Categories ==> FacetCount(SamplePosts, c) >= 1
    ensures FacetCount(SamplePosts, "Frontend") + FacetCount(SamplePosts, "Backend")
      + FacetCount(SamplePosts, "AI/ML") + FacetCount(SamplePosts, "Database")
      + FacetCount(SamplePosts, "DevOps") + FacetCount(SamplePosts, "Full Stack")
      == FacetCount(SamplePosts, AllCategory)
  {
    SampleCategories();
    FacetsOfProfile(SamplePosts);
  }
}
