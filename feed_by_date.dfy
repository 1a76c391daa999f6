/** The feed as the comparator in src/pages/index.xml.js evidently intends
    it: newest post first, compared on the schema's own date field
    `publishedDate`. This is a corrected variant kept beside the model of the
    code as written (module RssFeed), which sorts on the absent `pubDate`. */
module FeedByDate {
  import opened Content
  import opened Js
  import opened StableSort
  import opened RssFeed

  /** The sort key: a post's time value. */
  function PublishedTime(p: Post): int {
    p.data.publishedDate
  }

  /** `(a, b) => new Date(b.data.publishedDate) - new Date(a.data.publishedDate)`
      as `sort` sees it. */
  function ByPublishedDate(parse: string -> Number): (Post, Post) -> int {
    (a: Post, b: Post) =>
      CompareArrayElements(Sub(NewDate(Lookup(b.data, "publishedDate"), parse),
                               NewDate(Lookup(a.data, "publishedDate"), parse)))
  }

  /** Every post has a valid `publishedDate`, so the comparator is the
      difference of the two time values, newer first. */
  lemma ByPublishedDateIsKeyed(parse: string -> Number)
    ensures KeyedDescending(ByPublishedDate(parse), PublishedTime)
  {
  }

  /** The non-draft posts, newest first; posts with the same date keep their
      source order. */
  function SortedByDate(posts: seq<Post>, parse: string -> Number): (s: seq<Post>)
    ensures |s| == |Published(posts)|
    ensures multiset(s) == multiset(Published(posts))
    ensures forall q :: q in s ==> Kept(q)
    ensures forall i, j :: 0 <= i < j < |s| ==> s[i].data.publishedDate >= s[j].data.publishedDate
    ensures forall t :: WithKey(PublishedTime, t, s) == WithKey(PublishedTime, t, Published(posts))
  {
    var s := Sort(ByPublishedDate(parse), Published(posts));
    ByPublishedDateIsKeyed(parse);
    SortDescending(ByPublishedDate(parse), PublishedTime, Published(posts));
    forall t
      ensures WithKey(PublishedTime, t, s) == WithKey(PublishedTime, t, Published(posts))
    {
      SortStable(ByPublishedDate(parse), PublishedTime, t, Published(posts));
    }
    forall q | q in s
      ensures Kept(q)
    {
      assert q in multiset(s);
    }
    s
  }

  /** The corrected feed: the same metadata and items, newest item first. */
  function GetByDate(posts: seq<Post>, site: Option<string>, parse: string -> Number): (r: Feed)
    ensures r.title == "Are.dev"
    ensures r.description ==
      "A blog dedicated to mastering software development — learn, build, and elevate your coding skills."
    ensures r.site == site
    ensures |r.items| == |NonDraftIndices(posts)| == |SortedByDate(posts, parse)|
    ensures forall i, j :: 0 <= i < j < |r.items| ==> r.items[i].pubDate >= r.items[j].pubDate
    ensures forall k :: 0 <= k < |r.items| ==>
      r.items[k] == ToItem(SortedByDate(posts, parse)[k]) && Kept(SortedByDate(posts, parse)[k])
  {
    var s := SortedByDate(posts, parse);
    PublishedCount(posts);
    assert forall k :: 0 <= k < |s| ==> s[k] in s;
    Feed(FeedTitle, FeedDescription, site, Items(s))
  }
}
