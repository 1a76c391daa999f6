# Are.dev RSS feed, modelled in Dafny

The blog's only logic is the RSS endpoint `GET` in `src/pages/index.xml.js`.
It takes the posts of the `posts` content collection and removes the drafts.
It sorts the rest with a date comparator and maps each post to a feed item.
Each item gets the permalink `/posts/{slug}/` and the custom data
`<language>…</language>`. The feed carries the fixed title `Are.dev`, a
fixed description and the caller's site URL.

The project has these modules:

- `Content` (`content.dfy`): the validated post record, with its field set
  and required fields taken from `src/content/config.ts`. It also models
  property access on `post.data` for keys that are not inherited from
  `Object.prototype`: such a key that the schema does not declare reads as
  `undefined`, because the schema object drops unknown keys.
- `Js` (`js.dfy`): the ECMAScript steps the comparator goes through. These
  are `new Date(v)`, TimeClip, subtraction of two dates, and the NaN-to-+0
  coercion of CompareArrayElements (ECMA-262, section 23.1.3.30.2).
- `StableSort` (`stable_sort.dfy`): `Array.prototype.sort` with a comparator,
  as a stable insertion sort (ECMA-262, section 23.1.3.30, requires
  stability).
- `RssFeed` (`rss_feed.dfy`): the filter, the sort with the source's
  comparator, the post-to-item map and `GET` itself, as written.
- `FeedByDate` (`feed_by_date.dfy`): the same pipeline with the comparator
  keyed on `publishedDate`. This is the corrected variant under "Findings".
- `FeedExamples` (`feed_examples.dfy`): concrete feeds.

The comparator reads `post.data.pubDate`, but the schema's date field is
`publishedDate`. So both dates are `new Date(undefined)`, an invalid date.
Their difference is NaN, and `sort` counts NaN as "equal". A stable sort
under a comparator that finds every pair equal returns its input unchanged.
The model proves this: the feed lists the non-draft posts in collection
order (`RssFeed.SortKeepsFilteredOrder`, `RssFeed.Get`).

Two points where the code differs from what a reader might expect:

- `src/content/config.ts:18` declares `language` as a required string, so
  the model has `language: string`.
- The comparator's `b - a` shape asks for newest first. The code keeps
  collection order (see "Findings"). `RssFeed.Get` models the code;
  `FeedByDate.GetByDate` is the newest-first order.

## Model

| member | source | states |
|---|---|---|
| `Content.Lookup` | src/content/config.ts:6-19 | reading a non-inherited key of `post.data` yields a defined value only for keys the schema declares; the required keys are always defined |
| `Js.TimeClip` | src/pages/index.xml.js:6 | the last step of `new Date(…)`: the result is NaN exactly when the input is NaN or out of range, and otherwise it is the input unchanged |
| `Js.NewDate` | src/pages/index.xml.js:6 | `new Date(v)` gives NaN or an in-range time value; a date argument keeps its time value; `undefined` gives NaN |
| `Js.Sub` | src/pages/index.xml.js:6 | subtracting two dates is NaN exactly when either date is invalid |
| `Js.CompareArrayElements` | src/pages/index.xml.js:6 | the NaN-to-+0 step `sort` applies to each comparator result; its effect on the source comparator is stated by `RssFeed.ByPubDateIndifferent` (every pair gives 0) and on the corrected one by `FeedByDate.ByPublishedDateIsKeyed` |
| `StableSort.Insert` | src/pages/index.xml.js:6 | one insertion step adds exactly the new element: length grows by one and the multiset gains it |
| `StableSort.Sort` | src/pages/index.xml.js:6 | the sort returns a permutation of its input |
| `StableSort.InsertIndifferent` | src/pages/index.xml.js:6 | under a comparator that finds every pair equal, an element is inserted at the end |
| `StableSort.SortIndifferentIsIdentity` | src/pages/index.xml.js:6 | under a comparator that finds every pair equal, the stable sort returns its input unchanged |
| `StableSort.SortDescending` | src/pages/index.xml.js:6 | under a comparator `key(b) - key(a)`, the output's keys never increase |
| `StableSort.SortStable` | src/pages/index.xml.js:6 | under a comparator `key(b) - key(a)`, the elements with any given key keep their input order |
| `RssFeed.Published` | src/pages/index.xml.js:6 | the filter returns no draft, and it keeps every non-draft post |
| `RssFeed.PublishedAppend` | src/pages/index.xml.js:6 | filtering a concatenation is the concatenation of the filtered parts |
| `RssFeed.Kept` | src/pages/index.xml.js:6 | the filter test `post.data.draft !== true`; on the boolean `draft` it holds exactly for non-drafts, as `RssFeed.Published` and `RssFeed.KeptPositions` state |
| `RssFeed.KeptPositions` | src/pages/index.xml.js:6 | the positions it lists strictly increase, are in range, and are exactly the positions of non-draft posts |
| `RssFeed.NonDraftIndicesAreKeptPositions` | src/pages/index.xml.js:6 | the set of non-draft positions holds exactly the positions the increasing enumeration lists |
| `RssFeed.PublishedAtPositions` | src/pages/index.xml.js:6 | the k-th post the filter returns is the post at the k-th non-draft position, so the filter keeps source order |
| `RssFeed.PublishedCount` | src/pages/index.xml.js:6 | the filter returns as many posts as there are non-draft positions in the input |
| `RssFeed.ByPubDate` | src/pages/index.xml.js:6 | the source comparator `new Date(b.data.pubDate) - new Date(a.data.pubDate)` as `sort` sees it; `RssFeed.ByPubDateIndifferent` states that it gives 0 for every pair |
| `RssFeed.ByPubDateIndifferent` | src/pages/index.xml.js:6 | the source comparator, which reads the undeclared key `pubDate`, coerces to 0 for every pair of posts |
| `RssFeed.SortKeepsFilteredOrder` | src/pages/index.xml.js:6 | the `sort` call returns the filtered posts unchanged and in order |
| `RssFeed.SortKeyIsNotItemDate` | src/pages/index.xml.js:6-14 | the key the comparator reads is undefined on every post, while the item's `pubDate` is the post's `publishedDate` |
| `RssFeed.Permalink` | src/pages/index.xml.js:16 | the link `/posts/${slug}/`; `RssFeed.PermalinkRoundTrip` states that it gives back exactly its slug |
| `RssFeed.PermalinkRoundTrip` | src/pages/index.xml.js:16 | a link carries slug `s` between `/posts/` and the trailing `/` exactly when it equals `/posts/{s}/` |
| `RssFeed.LanguageTag` | src/pages/index.xml.js:19 | the custom data `<language>${language}</language>`; `RssFeed.LanguageTagRoundTrip` states that it gives back exactly its language |
| `RssFeed.LanguageTagRoundTrip` | src/pages/index.xml.js:19 | custom data carries language `l` between the two tags exactly when it equals `<language>{l}</language>` |
| `RssFeed.ToItem` | src/pages/index.xml.js:12-20 | the link gives back the post's slug and starts and ends with `/`; the custom data gives back the language; title, description, author, categories (= tags) and pubDate (= publishedDate) are copied |
| `RssFeed.Items` | src/pages/index.xml.js:12-20 | the `.map` over the sorted posts; `RssFeed.ItemsOfPosts` and `RssFeed.Get` state that it yields one item per non-draft post, in collection order |
| `RssFeed.ItemsOfPosts` | src/pages/index.xml.js:6-20 | filter, sort and map give one item per non-draft post, the k-th from the k-th non-draft position |
| `RssFeed.Get` | src/pages/index.xml.js:4-21 | the feed title is `Are.dev` and the description is the fixed blurb whatever the input; the site is passed through; the items are exactly the non-draft posts' items, one each, in collection order |
| `FeedByDate.ByPublishedDateIsKeyed` | src/pages/index.xml.js:6 | keyed on `publishedDate`, the comparator is the newer date minus the older one |
| `FeedByDate.ByPublishedDate` | src/pages/index.xml.js:6 | the corrected comparator on `publishedDate`; `FeedByDate.ByPublishedDateIsKeyed` states that it is the newer time value minus the older one |
| `FeedByDate.SortedByDate` | src/pages/index.xml.js:6 | the date-keyed sort returns a permutation of the non-draft posts, newest first, with no draft, and equal dates keep collection order |
| `FeedByDate.GetByDate` | src/pages/index.xml.js:4-21 | the corrected feed has the same metadata and one item per non-draft post, with item dates non-increasing |
| `FeedExamples.DraftLeftOut` | src/pages/index.xml.js:6-16 | for a non-draft post "A" (slug `a`) followed by a draft, the feed has one item, titled "A" and linked `/posts/a/` |
| `FeedExamples.SourceListsOldestFirst` | src/pages/index.xml.js:6 | as written, for posts dated January then March 2024, the January item comes first |
| `FeedExamples.ByDateListsNewestFirst` | src/pages/index.xml.js:6 | keyed on `publishedDate`, the same two posts give the March item first |

## Left out

- `getCollection('posts')` is the framework's asynchronous content loader, and it is not part of this model. Its result is the `posts` argument.
- `rss(...)` from `@astrojs/rss` is not part of this model. The feed is the record handed to it. Its XML output, its escaping and its resolution of `link` against `site` are not modelled.
- `context.site` is passed through as an optional string. It stands for the framework's URL object, or undefined when no site is configured.
- `Content.Lookup`: properties inherited from `Object.prototype` (`toString`, `constructor`, `valueOf` and the rest) are not modelled; the function requires a key outside that set. The code reads only `pubDate` and schema keys, none of them inherited.
- The schema's validation (zod) is not modelled. Posts are taken as already validated records.
- Parsing a date string is left to the host, so it is the parameter `parse`. The comparator never reaches it.
- `publishedDate` is always a valid time value. A date string that fails to parse would give an invalid `Date`, and that case is left out.
- `Js.Sub` works on exact integers. JavaScript numbers are doubles, and a difference above 2^53 would be rounded. The sort uses only the sign, which rounding keeps.
- ECMA-262 does not fix which sort algorithm is used. The model uses insertion sort. The proof that every stable sort gives the same order under these comparators is not part of the model.
- `astro.config.mjs` holds only build configuration, so it is left out.
- The `async` handler and the HTTP response around the feed are plumbing, so they are left out.

## Findings

| source | as written | input that shows it | evidently intended | confidence | as-written member | corrected member |
|---|---|---|---|---|---|---|
| src/pages/index.xml.js:6 | the comparator subtracts `new Date(x.data.pubDate)` values, but the schema (src/content/config.ts:10) defines `publishedDate` and no `pubDate`, so every comparison is NaN, treated as equal, and the feed keeps collection order | two non-draft posts dated 2024-01-01 and then 2024-03-01: the January item is listed first | newest first by `publishedDate`, with equal dates in collection order | not executed | `FeedExamples.SourceListsOldestFirst` | `FeedByDate.GetByDate` |

The rest of this model is about the code as written. So `RssFeed.Get` keeps
the source's comparator. The corrected pipeline `FeedByDate.GetByDate` sits
beside it, and `FeedExamples.ByDateListsNewestFirst` shows the two
disagreeing on the same input.
