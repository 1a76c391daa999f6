/** Concrete feeds: a draft post left out, and two posts dated January and
    March 2024, which the code as written lists oldest first and the
    date-keyed comparator lists newest first. */
module FeedExamples {
  import opened Content
  import opened Js
  import opened RssFeed
  import opened FeedByDate

  /** 2024-01-01T00:00:00Z and 2024-03-01T00:00:00Z, in milliseconds. */
  const January2024: TimeValue := 1_704_067_200_000
  const March2024: TimeValue := 1_709_251_200_000

  function SamplePost(title: string, slug: string, date: TimeValue, draft: bool): Post {
    Post(slug, PostData(title, "", [], date, None, None, "Ann", None, None, None, draft, "en"))
  }

  /** A non-draft post next to a draft one: the feed has one item, the first
      post's, linked at `/posts/a/`. */
  lemma DraftLeftOut(parse: string -> Number)
    ensures var items := Get([SamplePost("A", "a", January2024, false),
                              SamplePost("B", "b", March2024, true)], None, parse).items;
      |items| == 1 && items[0].title == "A" && items[0].link == "/posts/a/"
  {
    var posts := [SamplePost("A", "a", January2024, false), SamplePost("B", "b", March2024, true)];
    assert Kept(posts[0]) && !Kept(posts[1]);
    assert posts[1..] == [posts[1]];
    assert posts[..1] == [posts[0]];
    assert KeptPositions(posts[..1]) == [0];
    assert KeptPositions(posts) == [0];
  }

  /** As written: the later post stays after the earlier one. */
  lemma SourceListsOldestFirst(parse: string -> Number)
    ensures var items := Get([SamplePost("A", "a", January2024, false),
                              SamplePost("C", "c", March2024, false)], None, parse).items;
      |items| == 2 && items[0].pubDate == January2024 && items[1].pubDate == March2024
  {
  }

  /** Keyed on `publishedDate`: the March post comes first. */
  lemma ByDateListsNewestFirst(parse: string -> Number)
    ensures var items := GetByDate([SamplePost("A", "a", January2024, false),
                                    SamplePost("C", "c", March2024, false)], None, parse).items;
      |items| == 2 && items[0].pubDate == March2024 && items[1].pubDate == January2024
  {
    var posts := [SamplePost("A", "a", January2024, false), SamplePost("C", "c", March2024, false)];
    assert posts[1..] == [posts[1]];
    assert Published(posts) == posts;
    var s := SortedByDate(posts, parse);
    assert multiset(s) == multiset{posts[0], posts[1]};
    assert s == [s[0], s[1]];
  }
}
