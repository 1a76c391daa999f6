/** The RSS endpoint `GET` of src/pages/index.xml.js: the posts of the
    collection, drafts removed, passed through `sort` with a date comparator
    and mapped to feed items under fixed feed metadata. The collection is
    an argument (the framework's loader is not part of this model) and the
    feed is the record handed to the RSS serialiser, not its XML. */
module RssFeed {
  import opened Content
  import opened Js
  import opened StableSort

  const FeedTitle: string := "Are.dev"
  const FeedDescription: string :=
    "A blog dedicated to mastering software development — learn, build, and elevate your coding skills."

  const LinkPrefix: string := "/posts/"
  const LinkSuffix: string := "/"
  const LanguageOpen: string := "<language>"
  const LanguageClose: string := "</language>"

  datatype FeedItem = FeedItem(
    title: string,
    pubDate: TimeValue,
    description: string,
    link: string,
    categories: seq<string>,
    author: string,
    customData: string
  )

  /** The feed metadata and its items; `site` is the caller's site URL, or
      None when the site has none configured. */
  datatype Feed = Feed(title: string, description: string, site: Option<string>, items: seq<FeedItem>)

  // ---------------------------------------------------------------- filter

  /** The filter's test, `post.data.draft !== true`; `draft` is a boolean,
      so a post is kept exactly when it is not a draft. */
  predicate Kept(p: Post) {
    p.data.draft != true
  }

  /** `posts.filter(post => post.data.draft !== true)`. */
  function Published(posts: seq<Post>): (r: seq<Post>)
    ensures forall q :: q in r ==> Kept(q)
    ensures forall i :: 0 <= i < |posts| && Kept(posts[i]) ==> posts[i] in r
    ensures |r| <= |posts|
  {
    if posts == [] then []
    else (if Kept(posts[0]) then [posts[0]] else []) + Published(posts[1..])
  }

  /** The filter works element by element: filtering a concatenation
      concatenates the filtered parts. */
  lemma {:induction false} PublishedAppend(a: seq<Post>, b: seq<Post>)
    ensures Published(a + b) == Published(a) + Published(b)
  {
    if a == [] {
      assert a + b == b;
    } else {
      assert (a + b)[0] == a[0];
      assert (a + b)[1..] == a[1..] + b;
      PublishedAppend(a[1..], b);
    }
  }

  /** The positions of the non-draft posts, in increasing order. */
  function KeptPositions(posts: seq<Post>): (r: seq<nat>)
    ensures forall k :: 0 <= k < |r| ==> r[k] < |posts|
    ensures forall k, l :: 0 <= k < l < |r| ==> r[k] < r[l]
    ensures forall i :: 0 <= i < |posts| ==> (i in r <==> Kept(posts[i]))
    decreases |posts|
  {
    if posts == [] then []
    else
      var init := posts[..|posts| - 1];
      assert forall i :: 0 <= i < |init| ==> init[i] == posts[i];
      KeptPositions(init) + (if Kept(posts[|posts| - 1]) then [|posts| - 1] else [])
  }

  /** The set of positions holding a non-draft post; its size is the number
      of non-draft posts. */
  ghost function NonDraftIndices(posts: seq<Post>): set<int> {
    set i | 0 <= i < |posts| && Kept(posts[i])
  }

  /** The set and the sequence of non-draft positions hold the same positions. */
  lemma NonDraftIndicesAreKeptPositions(posts: seq<Post>)
    ensures NonDraftIndices(posts) == set k | 0 <= k < |KeptPositions(posts)| :: KeptPositions(posts)[k]
  {
    var kept := KeptPositions(posts);
    forall i | i in NonDraftIndices(posts)
      ensures i in set k | 0 <= k < |kept| :: kept[k]
    {
      var k :| 0 <= k < |kept| && kept[k] == i;
    }
  }

  /** The filter returns exactly the non-draft posts, in their source order:
      its k-th result is the post at the k-th non-draft position. */
  lemma {:induction false} PublishedAtPositions(posts: seq<Post>)
    ensures |Published(posts)| == |KeptPositions(posts)|
    ensures forall k :: 0 <= k < |Published(posts)| ==> Published(posts)[k] == posts[KeptPositions(posts)[k]]
    decreases |posts|
  {
    if posts != [] {
      var init, last := posts[..|posts| - 1], posts[|posts| - 1];
      assert posts == init + [last];
      PublishedAppend(init, [last]);
      PublishedAtPositions(init);
      assert Published([last]) == if Kept(last) then [last] else [];
    }
  }

  lemma NonDraftIndicesSnoc(init: seq<Post>, last: Post)
    ensures NonDraftIndices(init + [last]) ==
            NonDraftIndices(init) + (if Kept(last) then {|init|} else {})
    ensures |init| !in NonDraftIndices(init)
  {
  }

  /** The filter returns as many posts as the input has non-draft posts. */
  lemma {:induction false} PublishedCount(posts: seq<Post>)
    ensures |Published(posts)| == |NonDraftIndices(posts)|
    decreases |posts|
  {
    if posts != [] {
      var init, last := posts[..|posts| - 1], posts[|posts| - 1];
      assert posts == init + [last];
      PublishedAppend(init, [last]);
      PublishedCount(init);
      assert Published([last]) == if Kept(last) then [last] else [];
      NonDraftIndicesSnoc(init, last);
    }
  }

  // ------------------------------------------------------------------ sort

  /** The comparator `(a, b) => new Date(b.data.pubDate) - new Date(a.data.pubDate)`
      as `sort` sees it. `parse` is the host's date-string parser. */
  function ByPubDate(parse: string -> Number): (Post, Post) -> int {
    (a: Post, b: Post) =>
      CompareArrayElements(Sub(NewDate(Lookup(b.data, "pubDate"), parse),
                               NewDate(Lookup(a.data, "pubDate"), parse)))
  }

  /** `pubDate` is not a key of the post schema, so both dates are invalid,
      their difference is NaN and `sort` counts every pair as equal. */
  lemma ByPubDateIndifferent(parse: string -> Number)
    ensures Indifferent(ByPubDate(parse))
  {
  }

  /** The `sort` call returns the filtered posts in the order the filter
      produced them. */
  lemma SortKeepsFilteredOrder(posts: seq<Post>, parse: string -> Number)
    ensures Sort(ByPubDate(parse), Published(posts)) == Published(posts)
  {
    ByPubDateIndifferent(parse);
    SortIndifferentIsIdentity(ByPubDate(parse), Published(posts));
  }

  /** The field the comparator reads is absent, while the field the items
      copy as their date is present on every post. */
  lemma SortKeyIsNotItemDate(p: Post)
    ensures Lookup(p.data, "pubDate") == Undefined
    ensures Lookup(p.data, "publishedDate") == DateObj(ToItem(p).pubDate)
  {
  }

  // ------------------------------------------------------------------- map

  /** Removes `prefix` and `suffix` from `s`, if `s` has them. */
  function StripAffixes(prefix: string, suffix: string, s: string): (r: Option<string>)
    ensures r.Some? ==> s == prefix + r.value + suffix
  {
    if |prefix| + |suffix| <= |s| && s[..|prefix|] == prefix && s[|s| - |suffix|..] == suffix
    then
      var mid := s[|prefix|..|s| - |suffix|];
      assert s == s[..|prefix|] + mid + s[|s| - |suffix|..];
      Some(mid)
    else None
  }

  /** The permalink `/posts/${slug}/`. */
  function Permalink(slug: string): string {
    LinkPrefix + slug + LinkSuffix
  }

  /** The slug a permalink was built from. */
  function SlugOfLink(link: string): Option<string> {
    StripAffixes(LinkPrefix, LinkSuffix, link)
  }

  /** The custom data `<language>${language}</language>`, unescaped. */
  function LanguageTag(language: string): string {
    LanguageOpen + language + LanguageClose
  }

  /** The language a custom-data fragment carries. */
  function LanguageOfTag(customData: string): Option<string> {
    StripAffixes(LanguageOpen, LanguageClose, customData)
  }

  /** A link is the permalink of `slug` exactly when `slug` is what it
      carries between `/posts/` and the trailing `/`. */
  lemma PermalinkRoundTrip(slug: string, link: string)
    ensures SlugOfLink(link) == Some(slug) <==> link == Permalink(slug)
  {
  }

  /** A fragment is the language tag of `language` exactly when `language`
      is what it carries between the two tags. */
  lemma LanguageTagRoundTrip(language: string, customData: string)
    ensures LanguageOfTag(customData) == Some(language) <==> customData == LanguageTag(language)
  {
  }

  /** The item a post becomes. */
  function ToItem(p: Post): (it: FeedItem)
    ensures SlugOfLink(it.link) == Some(p.slug)
    ensures it.link[0] == '/' && it.link[|it.link| - 1] == '/'
    ensures LanguageOfTag(it.customData) == Some(p.data.language)
    ensures it.title == p.data.title && it.description == p.data.description && it.author == p.data.author
    ensures it.categories == p.data.tags
    ensures it.pubDate == p.data.publishedDate
  {
    PermalinkRoundTrip(p.slug, Permalink(p.slug));
    LanguageTagRoundTrip(p.data.language, LanguageTag(p.data.language));
    FeedItem(
      title := p.data.title,
      pubDate := p.data.publishedDate,
      description := p.data.description,
      link := Permalink(p.slug),
      categories := p.data.tags,
      author := p.data.author,
      customData := LanguageTag(p.data.language))
  }

  /** `posts.map(...)`. */
  function Items(posts: seq<Post>): seq<FeedItem> {
    seq(|posts|, i requires 0 <= i < |posts| => ToItem(posts[i]))
  }

  // ------------------------------------------------------------------- GET

  lemma ItemsOfPosts(posts: seq<Post>, parse: string -> Number)
    ensures |Items(Sort(ByPubDate(parse), Published(posts)))| == |NonDraftIndices(posts)|
    ensures |Items(Sort(ByPubDate(parse), Published(posts)))| == |KeptPositions(posts)|
    ensures forall k :: 0 <= k < |Items(Sort(ByPubDate(parse), Published(posts)))| ==>
      Items(Sort(ByPubDate(parse), Published(posts)))[k] == ToItem(posts[KeptPositions(posts)[k]])
  {
    SortKeepsFilteredOrder(posts, parse);
    PublishedAtPositions(posts);
    PublishedCount(posts);
  }

  /** The feed `GET` hands to the serialiser: fixed title and description,
      the caller's site, and one item per non-draft post in source order. */
  function Get(posts: seq<Post>, site: Option<string>, parse: string -> Number): (r: Feed)
    ensures r.title == "Are.dev"
    ensures r.description ==
      "A blog dedicated to mastering software development — learn, build, and elevate your coding skills."
    ensures r.site == site
    ensures |r.items| == |NonDraftIndices(posts)| == |KeptPositions(posts)|
    ensures forall k :: 0 <= k < |r.items| ==> r.items[k] == ToItem(posts[KeptPositions(posts)[k]])
  {
    var filteredPosts := Sort(ByPubDate(parse), Published(posts));
    ItemsOfPosts(posts, parse);
    Feed(FeedTitle, FeedDescription, site, Items(filteredPosts))
  }
}
