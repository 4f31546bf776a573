/** The news records the pipeline passes around and the corpus-level views
    of them: tag occurrences, link keys and positional tag assignment. */
module News {
  import opened Wrappers
  import opened Seqs

  /** One topic, as the feed reader builds it and as `all_topics.json` stores
      it. `description` is `None` where the record holds `null`; `tags` is
      `None` where the record has no `tags` key (never classified) or `null`. */
  datatype NewsItem = NewsItem(
    title: string,
    link: string,
    description: Option<string>,
    pubDate: string,
    tags: Option<seq<string>>)

  /** `topic.get('tags')` is truthy: the record has a non-empty tag list. */
  predicate HasTags(t: NewsItem) {
    t.tags.Some? && |t.tags.value| > 0
  }

  /** The labels the corpus scans take from one record: nothing unless it
      has a non-empty tag list. */
  function TagsOf(t: NewsItem): (ts: seq<string>)
    ensures HasTags(t) ==> ts == t.tags.value
    ensures !HasTags(t) ==> ts == []
  {
    if HasTags(t) then t.tags.value else []
  }

  /** Every tag occurrence of the corpus, record by record, as the loops
      `for topic in topics: if topic.get('tags'): for tag in topic['tags']`
      visit them. */
  function AllTags(corpus: seq<NewsItem>): (r: seq<string>)
    ensures forall tag :: tag in r <==>
      exists k :: 0 <= k < |corpus| && HasTags(corpus[k]) && tag in corpus[k].tags.value
    decreases |corpus|
  {
    if |corpus| == 0 then []
    else
      var init := corpus[..|corpus| - 1];
      var last := corpus[|corpus| - 1];
      assert forall k :: 0 <= k < |init| ==> init[k] == corpus[k];
      AllTags(init) + TagsOf(last)
  }

  /** One record contributes exactly its own tag list, repeats included, or
      nothing when the list is missing or empty. */
  lemma AllTagsOne(t: NewsItem)
    ensures AllTags([t]) == TagsOf(t)
  {
    assert [t][..0] == [];
  }

  /** The scan visits records in order: the occurrences of a concatenation
      are those of its halves, one after the other. */
  lemma {:induction false} AllTagsAppend(a: seq<NewsItem>, b: seq<NewsItem>)
    ensures AllTags(a + b) == AllTags(a) + AllTags(b)
    decreases |b|
  {
    if |b| == 0 {
      assert a + b == a;
    } else {
      var init := b[..|b| - 1];
      AllTagsAppend(a, init);
      assert (a + b)[..|a + b| - 1] == a + init;
      assert (a + b)[|a + b| - 1] == b[|b| - 1];
    }
  }

  /** `{topic['link'] for topic in topics}` */
  function Links(corpus: seq<NewsItem>): (ls: set<string>)
    ensures forall k :: 0 <= k < |corpus| ==> corpus[k].link in ls
    ensures forall l :: l in ls ==> exists k :: 0 <= k < |corpus| && corpus[k].link == l
  {
    set t | t in corpus :: t.link
  }

  /** `topic['link']`, the key the corpus is de-duplicated by. */
  function LinkOf(t: NewsItem): string {
    t.link
  }

  /** No two records share a link. */
  predicate UniqueLinks(corpus: seq<NewsItem>) {
    KeysDistinct(corpus, LinkOf)
  }

  /** `for i, topic in enumerate(items): topic['tags'] = tags[i]`: the i-th
      record receives the i-th tag list and keeps all its other fields;
      surplus tag lists are never read. */
  function AttachTags(items: seq<NewsItem>, tags: seq<seq<string>>): (r: seq<NewsItem>)
    requires |tags| >= |items|
    ensures |r| == |items|
    ensures forall i :: 0 <= i < |items| ==> r[i] == items[i].(tags := Some(tags[i]))
    decreases |items|
  {
    if |items| == 0 then []
    else
      var n := |items| - 1;
      AttachTags(items[..n], tags) + [items[n].(tags := Some(tags[n]))]
  }

  /** Items each feed contributes per fetch (`get_topics(url)[:4]`). */
  const MaxPerFeed: nat := 4

  /** `get_topics(url)[:4]`: the first `MaxPerFeed` items of one feed, or all
      of them when there are fewer. */
  function FeedHead(feed: seq<NewsItem>): (h: seq<NewsItem>)
    ensures |h| == if |feed| <= MaxPerFeed then |feed| else MaxPerFeed
    ensures h == feed[..|h|]
  {
    if |feed| <= MaxPerFeed then feed else feed[..MaxPerFeed]
  }

  /** The fetch loop: the first `MaxPerFeed` items of every feed, feed after
      feed, in feed order (`FetchAllOne`, `FetchAllAppend`). */
  function FetchAll(feeds: seq<seq<NewsItem>>): (r: seq<NewsItem>)
    ensures |r| <= MaxPerFeed * |feeds|
    decreases |feeds|
  {
    if |feeds| == 0 then [] else FeedHead(feeds[0]) + FetchAll(feeds[1..])
  }

  /** The fetch holds the first `MaxPerFeed` items of every feed. */
  lemma {:induction false} FetchAllHolds(feeds: seq<seq<NewsItem>>, f: nat, j: nat)
    requires f < |feeds| && j < |feeds[f]| && j < MaxPerFeed
    ensures feeds[f][j] in FetchAll(feeds)
    decreases f
  {
    var head := FeedHead(feeds[0]);
    if f == 0 {
      assert head[j] == feeds[0][j];
      assert head[j] in head;
    } else {
      assert feeds[1..][f - 1] == feeds[f];
      FetchAllHolds(feeds[1..], f - 1, j);
    }
  }

  /** Everything fetched comes from one of the feeds. */
  lemma {:induction false} FetchAllFromFeeds(feeds: seq<seq<NewsItem>>, x: NewsItem)
    requires x in FetchAll(feeds)
    ensures exists f :: 0 <= f < |feeds| && x in feeds[f]
    decreases |feeds|
  {
    var head := FeedHead(feeds[0]);
    if x in head {
      assert x in feeds[0];
    } else {
      FetchAllFromFeeds(feeds[1..], x);
      var f :| 0 <= f < |feeds| - 1 && x in feeds[1..][f];
      assert feeds[1..][f] == feeds[f + 1];
    }
  }

  /** A single feed contributes exactly its first `MaxPerFeed` items, in feed
      order. */
  lemma FetchAllOne(feed: seq<NewsItem>)
    ensures FetchAll([feed]) == FeedHead(feed)
  {
    assert [feed][1..] == [];
  }

  /** Feeds are read one after the other: fetching two groups of feeds is
      fetching the first group, then the second. */
  lemma {:induction false} FetchAllAppend(a: seq<seq<NewsItem>>, b: seq<seq<NewsItem>>)
    ensures FetchAll(a + b) == FetchAll(a) + FetchAll(b)
    decreases |a|
  {
    if |a| == 0 {
      assert a + b == b;
    } else {
      var c := a + b;
      var h := FeedHead(a[0]);
      FetchAllAppend(a[1..], b);
      assert c[1..] == a[1..] + b && c[0] == a[0];
      assert FetchAll(c) == h + FetchAll(a[1..] + b);
      assert FetchAll(a) == h + FetchAll(a[1..]);
    }
  }
}
