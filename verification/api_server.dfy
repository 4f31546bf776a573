/** The incremental tagging pipeline of the HTTP server: tag vocabulary,
    novelty detection by link, one normalizing batch request per fetch,
    merge of the new items in front of the corpus, tag filtering for
    `/api/news`, and the occurrence statistics of `/api/tags`.

    The text-generation service is the parameter `chat` (its reply text, or
    `None` when the call raised) and `json.loads` is the parameter `parse`
    (`None` when it raises). Loading and saving `all_topics.json` is replaced
    by passing the corpus in and returning the corpus to be written. */
module ApiServer {
  import opened Wrappers
  import opened Strings
  import opened Seqs
  import opened JsonText
  import opened News
  import opened Prompt
  import opened Reconcile
  import opened TagCounts

  /** The server's `generate_request_prompt`: one user message, the given
      sampling parameters and an output cap of 4096 tokens. */
  function GenerateRequestPrompt(prompt: Instruction, content: string, tmp: real, p: real): (r: Request)
    ensures r.context == prompt && r.maxOutputTokens == 4096
    ensures r.messages == [Message("user", content)]
    ensures r.temperature == tmp && r.topP == p
  {
    Request(prompt, 4096, [Message("user", content)], tmp, p)
  }

  /** `get_all_existing_tags`: every tag of every record with a non-empty tag
      list, each once. (Python returns `list(set(...))`, whose order is
      unspecified; the model lists tags by first appearance.) */
  function ExistingTags(corpus: seq<NewsItem>): (r: seq<string>)
    ensures NoDuplicates(r)
    ensures forall tag :: tag in r <==>
      exists k :: 0 <= k < |corpus| && HasTags(corpus[k]) && tag in corpus[k].tags.value
  {
    Dedup(AllTags(corpus))
  }

  /** `existing_tags_str`: the vocabulary as JSON, or "[]" when it is empty. */
  function ExistingTagsText(tags: seq<string>): (j: string)
    ensures j == DumpStringList(tags)
  {
    if |tags| > 0 then DumpStringList(tags) else "[]"
  }

  /** The vocabulary can be read back from the prompt text without loss. */
  lemma ExistingTagsTextRoundTrip(tags: seq<string>)
    ensures ReadStringList(ExistingTagsText(tags)) == Some(tags)
  {
    DumpReadRoundTrip(tags);
  }

  /** `find_new_topics`: the fetched items whose link is not a link of the
      corpus, in fetch order. Repeats inside the fetch are all kept. */
  function FindNewTopics(fetched: seq<NewsItem>, existing: seq<NewsItem>): (r: seq<NewsItem>)
    ensures forall t :: t in r <==> t in fetched && t.link !in Links(existing)
  {
    var links := Links(existing);
    Filter(fetched, (t: NewsItem) => t.link !in links)
  }

  /** Every occurrence of a new item is reported, and none of a known one. */
  lemma FindNewTopicsCounts(fetched: seq<NewsItem>, existing: seq<NewsItem>)
    ensures forall t ::
      multiset(FindNewTopics(fetched, existing))[t] == if t.link in Links(existing) then 0 else multiset(fetched)[t]
  {
    var links := Links(existing);
    FilterCounts(fetched, (t: NewsItem) => t.link !in links);
  }

  /** Novelty detection is an order-preserving filter: it commutes with
      concatenation of fetch results. */
  lemma FindNewTopicsAppend(a: seq<NewsItem>, b: seq<NewsItem>, existing: seq<NewsItem>)
    ensures FindNewTopics(a + b, existing) == FindNewTopics(a, existing) + FindNewTopics(b, existing)
  {
    var links := Links(existing);
    FilterAppend(a, b, (t: NewsItem) => t.link !in links);
  }

  /** The same article fetched twice is reported as new twice. */
  lemma FindNewTopicsKeepsRepeats(x: NewsItem, existing: seq<NewsItem>)
    requires x.link !in Links(existing)
    ensures FindNewTopics([x, x], existing) == [x, x]
  {
    FindNewTopicsAppend([x], [x], existing);
    FilterSingleton(x, (t: NewsItem) => t.link !in Links(existing));
    assert [x] + [x] == [x, x];
  }

  /** Distinct links stay distinct after novelty detection. */
  lemma FindNewTopicsUnique(fetched: seq<NewsItem>, existing: seq<NewsItem>)
    requires UniqueLinks(fetched)
    ensures UniqueLinks(FindNewTopics(fetched, existing))
  {
    var links := Links(existing);
    FilterKeepsKeysDistinct(fetched, (t: NewsItem) => t.link !in links, LinkOf);
  }

  /** When every fetched link is already known, nothing is new. */
  lemma NothingNew(fetched: seq<NewsItem>, existing: seq<NewsItem>)
    requires forall t :: t in fetched ==> t.link in Links(existing)
    ensures FindNewTopics(fetched, existing) == []
  {
    var r := FindNewTopics(fetched, existing);
    FindNewTopicsCounts(fetched, existing);
    assert forall t :: multiset(r)[t] == 0 by {
      forall t ensures multiset(r)[t] == 0 {
        if t in fetched {
          assert t.link in Links(existing);
        }
      }
    }
    assert multiset(r) == multiset{};
  }

  /** `tag_topics_batch_with_normalization`: an empty batch is answered with
      no tag lists and no service call; otherwise one request carries the
      numbered articles and the vocabulary, and the reply is reconciled to at
      least one tag list per article. */
  function TagBatchWithNormalization(
    topics: seq<NewsItem>,
    existingTags: seq<string>,
    chat: Request -> Option<string>,
    parse: string -> Option<seq<seq<string>>>): (b: Batch)
    ensures |topics| == 0 ==> b.request.None? && b.tags == []
    ensures |topics| > 0 ==>
      && b.request.Some?
      && b.request.value.context == TagBatchNormalized(DumpStringList(existingTags))
      && b.request.value.messages == [Message("user", NewsText(topics))]
      && b.request.value.temperature == 0.0
      && b.request.value.topP == 1.0
      && b.request.value.maxOutputTokens == 4096
      && b.tags == ReconcileReply(chat(b.request.value), |topics|, parse)
    ensures |b.tags| >= |topics|
  {
    if |topics| == 0 then Batch(None, [])
    else
      var request := GenerateRequestPrompt(
        TagBatchNormalized(ExistingTagsText(existingTags)), NewsText(topics), 0.0, 1.0);
      Batch(Some(request), ReconcileReply(chat(request), |topics|, parse))
  }

  /** What one `/api/news` fetch cycle did to the corpus: the corpus after the
      cycle, how many items were new, the classification request sent (if
      any), and whether the corpus was written back. */
  datatype Cycle = Cycle(corpus: seq<NewsItem>, newCount: nat, request: Option<Request>, saved: bool)

  /** The fetch-detect-classify-merge part of `get_news`: new items, tagged
      positionally, go in front of the unchanged corpus; with no new item
      nothing is classified or saved. */
  function Ingest(
    existing: seq<NewsItem>,
    feeds: seq<seq<NewsItem>>,
    chat: Request -> Option<string>,
    parse: string -> Option<seq<seq<string>>>): (c: Cycle)
    ensures var novel := FindNewTopics(FetchAll(feeds), existing);
      && c.newCount == |novel|
      && (|novel| == 0 ==> c == Cycle(existing, 0, None, false))
      && (|novel| > 0 ==>
          var batch := TagBatchWithNormalization(novel, ExistingTags(existing), chat, parse);
          && c.saved
          && c.request == batch.request
          && |c.corpus| == |novel| + |existing|
          && c.corpus[|novel|..] == existing
          && forall i :: 0 <= i < |novel| ==> c.corpus[i] == novel[i].(tags := Some(batch.tags[i])))
  {
    var existingTags := ExistingTags(existing);
    var novel := FindNewTopics(FetchAll(feeds), existing);
    if |novel| > 0 then
      var batch := TagBatchWithNormalization(novel, existingTags, chat, parse);
      var tagged := AttachTags(novel, batch.tags);
      assert (tagged + existing)[|novel|..] == existing;
      Cycle(tagged + existing, |novel|, batch.request, true)
    else
      Cycle(existing, 0, None, false)
  }

  /** The links of a concatenation are the links of its parts. */
  lemma LinksAppend(a: seq<NewsItem>, b: seq<NewsItem>)
    ensures Links(a + b) == Links(a) + Links(b)
  {
    assert forall t :: t in a + b <==> t in a || t in b;
  }

  /** Attaching tags does not change any link. */
  lemma AttachTagsLinks(items: seq<NewsItem>, tags: seq<seq<string>>)
    requires |tags| >= |items|
    ensures Links(AttachTags(items, tags)) == Links(items)
    ensures UniqueLinks(items) ==> UniqueLinks(AttachTags(items, tags))
  {
    var r := AttachTags(items, tags);
    assert forall i :: 0 <= i < |items| ==> LinkOf(r[i]) == LinkOf(items[i]);
    forall l | l in Links(r) ensures l in Links(items) {
      var k :| 0 <= k < |r| && r[k].link == l;
      assert LinkOf(items[k]) == l;
    }
    forall l | l in Links(items) ensures l in Links(r) {
      var k :| 0 <= k < |items| && items[k].link == l;
      assert LinkOf(r[k]) == l;
    }
  }

  /** Two link-unique lists with disjoint link sets concatenate to a
      link-unique list. */
  lemma UniqueLinksAppend(a: seq<NewsItem>, b: seq<NewsItem>)
    requires UniqueLinks(a) && UniqueLinks(b)
    requires Links(a) !! Links(b)
    ensures UniqueLinks(a + b)
  {
    var c := a + b;
    forall i, j | 0 <= i < j < |c| ensures LinkOf(c[i]) != LinkOf(c[j]) {
      if j < |a| {
        assert c[i] == a[i] && c[j] == a[j];
      } else if i < |a| {
        assert c[i] == a[i] && c[j] == b[j - |a|];
        assert a[i].link in Links(a) && b[j - |a|].link in Links(b);
      } else {
        assert c[i] == b[i - |a|] && c[j] == b[j - |a|];
      }
    }
  }

  /** The corpus after a cycle is the tagged new items followed by the old
      corpus. */
  lemma IngestShape(
    existing: seq<NewsItem>,
    feeds: seq<seq<NewsItem>>,
    chat: Request -> Option<string>,
    parse: string -> Option<seq<seq<string>>>)
    ensures var novel := FindNewTopics(FetchAll(feeds), existing);
      var batch := TagBatchWithNormalization(novel, ExistingTags(existing), chat, parse);
      Ingest(existing, feeds, chat, parse).corpus ==
        if |novel| > 0 then AttachTags(novel, batch.tags) + existing else existing
  {
  }

  /** Re-running a cycle over the same feed contents finds nothing new and
      leaves the corpus as it is. */
  lemma IngestIdempotent(
    existing: seq<NewsItem>,
    feeds: seq<seq<NewsItem>>,
    chat: Request -> Option<string>,
    parse: string -> Option<seq<seq<string>>>)
    ensures var c := Ingest(existing, feeds, chat, parse);
      Ingest(c.corpus, feeds, chat, parse) == Cycle(c.corpus, 0, None, false)
  {
    var corpus := Ingest(existing, feeds, chat, parse).corpus;
    var fetched := FetchAll(feeds);
    var novel := FindNewTopics(fetched, existing);
    var batch := TagBatchWithNormalization(novel, ExistingTags(existing), chat, parse);
    IngestShape(existing, feeds, chat, parse);
    if |novel| > 0 {
      LinksAppend(AttachTags(novel, batch.tags), existing);
      AttachTagsLinks(novel, batch.tags);
      assert Links(corpus) == Links(novel) + Links(existing);
    }
    forall t | t in fetched ensures t.link in Links(corpus) {
      if t.link !in Links(existing) {
        assert t in novel;
      }
    }
    NothingNew(fetched, corpus);
  }

  /** The corpus keeps its links unique through a cycle, provided the items
      fetched in that cycle have pairwise distinct links (the code does not
      remove repeats within one fetch). */
  lemma IngestKeepsLinksUnique(
    existing: seq<NewsItem>,
    feeds: seq<seq<NewsItem>>,
    chat: Request -> Option<string>,
    parse: string -> Option<seq<seq<string>>>)
    requires UniqueLinks(existing)
    requires UniqueLinks(FetchAll(feeds))
    ensures UniqueLinks(Ingest(existing, feeds, chat, parse).corpus)
  {
    var novel := FindNewTopics(FetchAll(feeds), existing);
    var batch := TagBatchWithNormalization(novel, ExistingTags(existing), chat, parse);
    IngestShape(existing, feeds, chat, parse);
    if |novel| > 0 {
      FindNewTopicsUnique(FetchAll(feeds), existing);
      AttachTagsLinks(novel, batch.tags);
      assert Links(novel) !! Links(existing) by {
        forall l | l in Links(novel) ensures l !in Links(existing) {
          var k :| 0 <= k < |novel| && novel[k].link == l;
          assert novel[k] in novel;
        }
      }
      UniqueLinksAppend(AttachTags(novel, batch.tags), existing);
    }
  }

  /** Without distinct fetched links the corpus can gain a repeated link: the
      same article returned by two feeds is stored twice. */
  lemma RepeatedFetchDuplicatesLink(
    x: NewsItem,
    chat: Request -> Option<string>,
    parse: string -> Option<seq<seq<string>>>)
    ensures !UniqueLinks(Ingest([], [[x], [x]], chat, parse).corpus)
  {
    var feeds := [[x], [x]];
    FetchTwice(x);
    assert Links([]) == {};
    FindNewTopicsKeepsRepeats(x, []);
    IngestShape([], feeds, chat, parse);
    var batch := TagBatchWithNormalization([x, x], ExistingTags([]), chat, parse);
    var c := AttachTags([x, x], batch.tags) + [];
    assert LinkOf(c[0]) == x.link && LinkOf(c[1]) == x.link;
  }

  lemma FetchTwice(x: NewsItem)
    ensures FetchAll([[x], [x]]) == [x, x]
  {
    FetchAllOne([x]);
    FetchAllAppend([[x]], [[x]]);
    assert [[x]] + [[x]] == [[x], [x]];
  }

  /** `set(tags.split(','))` */
  function FilterSet(query: string): (filter: set<string>)
    ensures forall tag :: tag in filter ==> ',' !in tag
    ensures ',' !in query ==> filter == {query}
  {
    assert ',' !in query ==> Split(query, ',') == [query] by {
      if ',' !in query {
        SplitNoSeparator(query, ',');
      }
    }
    set tag | tag in Split(query, ',')
  }

  /** `topic.get('tags') and any(tag in filter_tags for tag in topic['tags'])` */
  predicate Wanted(t: NewsItem, filter: set<string>) {
    HasTags(t) && exists tag :: tag in t.tags.value && tag in filter
  }

  /** The tag filter of `/api/news`: with an absent or empty query every item
      is returned; otherwise exactly the items carrying one of the
      comma-separated tags, every occurrence, in corpus order. */
  function FilterByTags(items: seq<NewsItem>, query: Option<string>): (r: seq<NewsItem>)
    ensures query.None? || query.value == "" ==> r == items
    ensures query.Some? && query.value != "" ==>
      forall t :: t in r <==> t in items && Wanted(t, FilterSet(query.value))
  {
    match query
    case None => items
    case Some(q) =>
      if q == "" then items
      else
        var filter := FilterSet(q);
        Filter(items, t => Wanted(t, filter))
  }

  /** A non-empty filter keeps every occurrence of a wanted item and none of
      an unwanted one. */
  lemma FilterByTagsCounts(items: seq<NewsItem>, query: string)
    requires query != ""
    ensures forall t ::
      multiset(FilterByTags(items, Some(query)))[t] == if Wanted(t, FilterSet(query)) then multiset(items)[t] else 0
  {
    var filter := FilterSet(query);
    FilterCounts(items, t => Wanted(t, filter));
  }

  /** Filtering keeps corpus order: it commutes with concatenation. */
  lemma FilterByTagsAppend(a: seq<NewsItem>, b: seq<NewsItem>, query: Option<string>)
    ensures FilterByTags(a + b, query) == FilterByTags(a, query) + FilterByTags(b, query)
  {
    if query.Some? && query.value != "" {
      var filter := FilterSet(query.value);
      FilterAppend(a, b, t => Wanted(t, filter));
    }
  }

  /** An item whose tag list is missing or empty never passes a non-empty
      filter, whatever the query. */
  lemma UntaggedNeverWanted(t: NewsItem, query: string)
    requires query != ""
    requires !HasTags(t)
    ensures FilterByTags([t], Some(query)) == []
  {
    FilterSingleton(t, u => Wanted(u, FilterSet(query)));
  }

  /** "x,y" names the tags x and y. */
  lemma FilterSetOfTwo(x: string, y: string)
    requires ',' !in x && ',' !in y
    ensures FilterSet(x + "," + y) == {x, y}
  {
    assert x + "," + y == x + [','] + y;
    SplitHead(x, y, ',');
    SplitNoSeparator(y, ',');
  }

  /** A query naming two tags (say "経済,スポーツ") returns the items
      carrying either of them, in corpus order, and drops an untagged item. */
  lemma FilterByTagsExample(a: NewsItem, b: NewsItem, c: NewsItem, x: string, y: string)
    requires ',' !in x && ',' !in y
    requires a.tags.Some? && x in a.tags.value
    requires b.tags.Some? && y in b.tags.value
    requires c.tags.None?
    ensures FilterByTags([a, c, b], Some(x + "," + y)) == [a, b]
  {
    FilterSetOfTwo(x, y);
    var filter := FilterSet(x + "," + y);
    assert Wanted(a, filter) by { assert x in a.tags.value && x in filter; }
    assert Wanted(b, filter) by { assert y in b.tags.value && y in filter; }
    FilterDropsMiddle(a, c, b, t => Wanted(t, filter));
  }

  /** The response of `/api/news`. */
  datatype NewsResponse = NewsResponse(count: nat, news: seq<NewsItem>, newCount: nat)

  /** `get_news`: one fetch cycle, then the optional tag filter over the whole
      resulting corpus. */
  function GetNews(
    existing: seq<NewsItem>,
    feeds: seq<seq<NewsItem>>,
    query: Option<string>,
    chat: Request -> Option<string>,
    parse: string -> Option<seq<seq<string>>>): (r: NewsResponse)
    ensures r.count == |r.news|
    ensures r.news == FilterByTags(Ingest(existing, feeds, chat, parse).corpus, query)
    ensures var c := Ingest(existing, feeds, chat, parse);
      && r.newCount == |FindNewTopics(FetchAll(feeds), existing)|
      && (query.None? || query.value == "" ==> r.news == c.corpus)
      && (query.Some? && query.value != "" ==>
          forall t :: t in r.news <==> t in c.corpus && Wanted(t, FilterSet(query.value)))
  {
    var c := Ingest(existing, feeds, chat, parse);
    var shown := FilterByTags(c.corpus, query);
    NewsResponse(|shown|, shown, c.newCount)
  }

  /** `get_tags`: one entry per distinct tag of the corpus with its number of
      occurrences, largest count first; entries with equal counts keep the
      order in which their tags first appear in the corpus. */
  function GetTags(corpus: seq<NewsItem>): (r: seq<TagCount>)
    ensures SortedByCount(r)
    ensures NoDuplicates(Names(r))
    ensures forall tag :: tag in Names(r) <==> tag in AllTags(corpus)
    ensures forall x :: x in r ==> x.count == multiset(AllTags(corpus))[x.name]
    ensures forall k: nat :: WithCount(r, k) == WithCount(CountTags(AllTags(corpus)), k)
  {
    var counts := CountTags(AllTags(corpus));
    CountTagsCounts(AllTags(corpus));
    SortSorted(counts);
    SortKeepsNamesDistinct(counts);
    SortKeepsNames(counts);
    SortStableAll(counts);
    SortByCount(counts)
  }
}
