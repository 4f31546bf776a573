# NCC AI NEWS tagging pipeline in Dafny

This project models the incremental tagging pipeline of NCC AI NEWS. Its HTTP
server (`api_server.py`) does the following on every `/api/news` request:

- fetches up to four items from each RSS feed;
- keeps the items whose link is not yet in the stored corpus;
- sends those items, numbered from 1, to a text-generation service in one
  classification request, together with the tag vocabulary already in use;
- turns the reply into one tag list per item;
- puts the tagged items in front of the corpus and stores the result;
- optionally filters the corpus by a comma-separated list of tags.

`/api/tags` counts how often each tag occurs and sorts the tags by that count.

The one-shot script `gen_news_topics.py` runs the same pipeline without a
corpus. It classifies every fetched item in a single batch and writes the
list out. It also keeps an older single-article classifier, `tag_topic`.

Everything is modelled as pure functions over immutable records:

- The text-generation service is a parameter
  `chat: Request -> Option<string>`. Its value is the reply text, or `None`
  when the call raised. A reply without text is not covered (see "Left out").
- `json.loads` is a parameter `parse: string -> Option<...>`. Its value is
  `None` when the call raises.
- Loading and saving `all_topics.json` is replaced by passing the corpus in
  and returning the corpus that would be written.

Modules, in dependency order:

| module | contents |
|---|---|
| `Wrappers` | `Option` |
| `Strings` | Python's `str.strip()` (with the exact `str.isspace` character set), `startswith`/`endswith`, `split`/`join` on one character, `str(n)` for naturals |
| `Seqs` | order-preserving filter (list comprehensions), first-appearance de-duplication, distinct keys |
| `JsonText` | `json.dumps(list_of_str, ensure_ascii=False)`, and a reader proving the vocabulary text is recoverable |
| `News` | the `NewsItem` record, tag occurrences, links, positional tag assignment, the per-feed fetch limit |
| `Prompt` | the request dictionary and the numbered user content |
| `Reconcile` | code-fence removal, the default classification `["未分類"]`, padding of a short answer |
| `TagCounts` | the tag-counting dict and the stable descending sort by count |
| `ApiServer` | `api_server.py`: vocabulary, novelty detection, batch classification, merge, filter, `/api/news`, `/api/tags` |
| `GenNewsTopics` | `gen_news_topics.py`: request builder, `tag_topic`, `tag_topics_batch`, the main flow |
| `ScriptAndServer` | how the script's requests relate to the server's |

Two places where the code does less than its own instruction text or its
naming suggests. The model follows the code:

- **Length and content of the reconciled answer.** The server's instruction
  asks the service for one entry per numbered article, each with at least one
  tag (api_server.py:187-188). The code enforces neither
  (api_server.py:218-223). It pads a short answer to N, keeps an over-long
  answer whole, so the length is the larger of the two, and keeps any empty
  entry.
- **Link uniqueness.** Novelty is decided by link alone
  (api_server.py:236-239): an item is new when its link is not a corpus link.
  A link that appears twice in one fetch, from two feeds or twice in one
  feed, is therefore stored twice. `ApiServer.IngestKeepsLinksUnique` proves
  that a link-unique corpus stays link-unique when the links of one fetch are
  pairwise distinct. `ApiServer.RepeatedFetchDuplicatesLink` shows the corpus
  gains a repeated link otherwise.

## Model

| member | source | states |
|---|---|---|
| Strings.StripSlice | api_server.py:139 | `strip()` returns the slice of the text that lies between a leading and a trailing whitespace run; it is empty exactly when the text is all whitespace |
| Strings.Strip | api_server.py:139 | `str.strip()` leaves no whitespace at either end and never lengthens the text |
| Strings.StripUnique | api_server.py:146 | whatever whitespace surrounds a string with non-space ends, `strip()` returns exactly that string |
| Strings.StripIdempotent | api_server.py:146 | stripping twice is stripping once |
| Strings.Split | api_server.py:283 | `split(',')` always yields at least one part, and no part contains the separator |
| Strings.JoinSplit | api_server.py:283 | joining the parts of a split with the same separator restores the text |
| Strings.SplitJoin | gen_news_topics.py:127 | splitting a join of separator-free lines at line breaks gives the lines back |
| Strings.SplitHead | api_server.py:283 | a separator-free head splits off as its own part |
| Strings.SplitNoSeparator | api_server.py:283 | a separator-free string is a single part |
| Strings.NatToString | gen_news_topics.py:125 | `str(i+1)` is a non-empty string of decimal digits with no leading zero |
| Strings.ParseNatToString | gen_news_topics.py:125 | reading the decimal text of a number gives the number back |
| Seqs.Filter | api_server.py:239 | a list comprehension with a condition keeps exactly the elements that satisfy it and is never longer than its input |
| Seqs.FilterCounts | api_server.py:239 | the comprehension keeps every occurrence of an accepted element and none of a rejected one |
| Seqs.FilterAppend | api_server.py:239 | the comprehension keeps input order: it commutes with concatenation |
| Seqs.FilterKeepsKeysDistinct | api_server.py:239 | filtering never brings two items with the same key together |
| Seqs.Dedup | api_server.py:228-233 | turning a list into a set and back yields each element once, and exactly the elements of the list |
| Seqs.DedupFirstAppearanceOrder | api_server.py:233 | the model lists the set's elements in order of first appearance; Python's order is unspecified |
| JsonText.DumpStringList | api_server.py:179 | `json.dumps` of a string list is bracketed, and it is "[]" exactly for the empty list |
| JsonText.EscapeChar | api_server.py:179 | inside a string literal, each character is written as one to six characters: the two-character escapes for quote, backslash and the common control characters, `\u00xx` for the other control characters, and the character itself otherwise |
| JsonText.EscapePlain | api_server.py:179 | with `ensure_ascii=False`, tags without quotes, backslashes or control characters are written verbatim |
| JsonText.DumpReadRoundTrip | api_server.py:179 | the JSON text of the vocabulary determines it: reading it back gives exactly the list that was written |
| ApiServer.ExistingTagsTextRoundTrip | api_server.py:179 | the vocabulary text in the prompt reads back as exactly the vocabulary |
| ApiServer.ExistingTagsText | api_server.py:179 | the vocabulary text, with its "[]" special case, is exactly `json.dumps` of the vocabulary |
| News.AllTags | api_server.py:229-232 | the tag occurrences of the corpus come only from records whose tag list is present and non-empty, and cover all of their tags |
| News.AllTagsOne | api_server.py:229-232 | one record contributes its tags, in list order and with repeats, when its tag list is present and non-empty, and nothing otherwise |
| News.AllTagsAppend | api_server.py:303-306 | the occurrence scan visits records in order: the scan of a concatenation is the scans of its halves, one after the other |
| News.Links | api_server.py:238 | the link set of a corpus holds exactly the links of its records |
| News.AttachTags | api_server.py:269-270 | record i receives tag list i and keeps every other field; surplus tag lists are not read |
| News.FeedHead | api_server.py:257 | `[:4]` keeps a feed's first four items in order, or the whole feed when it is shorter |
| News.FetchAll | api_server.py:255-258 | the fetch holds at most four items per feed |
| News.FetchAllOne | api_server.py:256-258 | a single feed contributes exactly its first four items, in feed order |
| News.FetchAllAppend | api_server.py:256-258 | feeds are read one after the other: the fetch of two groups of feeds is the fetch of the first followed by the fetch of the second |
| News.FetchAllHolds | api_server.py:257-258 | each of a feed's first four items is fetched |
| News.FetchAllFromFeeds | api_server.py:257-258 | every fetched item comes from one of the feeds |
| Prompt.NumberedLines | api_server.py:171-174 | line i of the user content is `str(i+1) + ". " + title + " " + (description or "")` |
| Prompt.NumberedLineNumber | api_server.py:174 | the number at the head of the line for index i reads back as i + 1: articles are numbered from 1 in batch order |
| Prompt.NewsText | api_server.py:176 | `"\n".join(news_list)` is empty exactly for an empty batch |
| Prompt.NewsTextLines | api_server.py:171-176 | for a non-empty batch in which no title or description has a line break, splitting the user content at line breaks gives one numbered line per article (an empty batch gives the empty content, which splits into one empty part) |
| ApiServer.GenerateRequestPrompt | api_server.py:126-134 | the request carries the given instruction and sampling parameters, one user message with the content, and a 4096-token cap |
| GenNewsTopics.GenerateRequestPrompt | gen_news_topics.py:57-70 | the request carries the given instruction and sampling parameters, one user message with the content, and a 1024-token cap |
| ScriptAndServer.RequestBuildersAgree | gen_news_topics.py:57-70 | the script's request builder and the server's (api_server.py:126-134) agree on everything but the output cap |
| Reconcile.StripFences | api_server.py:137-146 | the cleaned reply has no whitespace at either end and is no longer than the reply |
| Reconcile.DropOpenFence | api_server.py:140-143 | the opening-fence step removes a prefix of 0, 3, 7 or 10 characters, and it changes nothing in a text that does not start with "```" |
| Reconcile.DropCloseFence | api_server.py:144-145 | the closing-fence step removes a suffix of 0 or 3 characters, and it removes 3 exactly when the text ends with "```" |
| Reconcile.StripFencesUnfenced | api_server.py:139-146 | a reply that starts and ends without a fence once stripped is only whitespace-trimmed |
| Reconcile.DropOpenFenceOf | api_server.py:140-143 | an opening fence, with or without the `json` hint, is removed and nothing else is, provided the text after the fence starts with whitespace or `[` (text after "```" that starts with "json" loses that word too, as `startswith('```json')` does) |
| Reconcile.DropCloseFenceOf | api_server.py:144-145 | a closing fence is removed, and nothing else is |
| Reconcile.FencedReplyRoundTrip | api_server.py:137-146 | a JSON array wrapped in a code fence, with any whitespace inside and outside the fence, comes out as exactly the array text |
| Reconcile.StripFencesExample | api_server.py:139-146 | the reply "```json", line break, `[["政治"]]`, line break, "```" yields exactly `[["政治"]]` |
| Reconcile.Defaults | api_server.py:209 | one default classification `["未分類"]` per article |
| Reconcile.PadTo | api_server.py:220-221 | a short answer is extended with default entries to length N, keeping its entries as a prefix; a long one is left as it is |
| Reconcile.Fit | api_server.py:218-223 | the result has length max(len, N), the parsed entries form its prefix, and every added entry is the default |
| Reconcile.ReconcileReply | api_server.py:204-223 | no reply or an unparsable reply gives exactly N defaults; a parsed answer is padded to N when short and kept whole when long; the result covers every article |
| Reconcile.ReconcileEntries | api_server.py:207-223 | every entry of the reconciled answer is either the service's entry for that position or the default |
| ApiServer.TagBatchWithNormalization | api_server.py:156-223 | an empty batch gives no tag lists and makes no service call; otherwise one request (vocabulary JSON, numbered articles, temperature 0, top-p 1, 4096 tokens) is sent and its reply reconciled |
| ApiServer.ExistingTags | api_server.py:226-233 | the vocabulary holds no duplicates and holds exactly the tags of records whose tag list is present and non-empty |
| ApiServer.FindNewTopics | api_server.py:236-239 | an item is kept exactly when it was fetched and its link is not a corpus link |
| ApiServer.FindNewTopicsCounts | api_server.py:236-239 | every occurrence of a new item is kept, and no occurrence of a known one |
| ApiServer.FindNewTopicsAppend | api_server.py:239 | novelty detection keeps fetch order: it commutes with concatenation |
| ApiServer.FindNewTopicsKeepsRepeats | api_server.py:239 | the same new article fetched twice is reported twice |
| ApiServer.FindNewTopicsUnique | api_server.py:239 | distinct fetched links stay distinct among the new items |
| ApiServer.NothingNew | api_server.py:236-239 | when every fetched link is known, nothing is new |
| ApiServer.Ingest | api_server.py:250-279 | with k > 0 new items the corpus becomes the k new items, each tagged with its own entry of the batch answer, then the old corpus unchanged, and it is saved; with none, the corpus is untouched, nothing is sent and nothing is saved |
| ApiServer.LinksAppend | api_server.py:273 | the links of the merged corpus are the links of its two parts |
| ApiServer.AttachTagsLinks | api_server.py:269-270 | attaching tags changes no link |
| ApiServer.UniqueLinksAppend | api_server.py:273 | two link-unique lists with disjoint link sets merge into a link-unique list |
| ApiServer.IngestShape | api_server.py:263-279 | the stored corpus is the tagged new items followed by the old corpus, or the old corpus |
| ApiServer.IngestIdempotent | api_server.py:250-279 | a second cycle over the same feed contents finds nothing new and leaves the corpus as it is |
| ApiServer.IngestKeepsLinksUnique | api_server.py:250-276 | a link-unique corpus stays link-unique through a cycle whose fetched links are pairwise distinct |
| ApiServer.RepeatedFetchDuplicatesLink | api_server.py:255-273 | one article returned by two feeds is stored twice, so the corpus gains a repeated link |
| ApiServer.FetchTwice | api_server.py:255-258 | two feeds returning the same single article fetch it twice |
| ApiServer.FilterByTags | api_server.py:282-287 | with an absent or empty query every item is returned; otherwise exactly the items whose tag list is non-empty and shares a tag with `set(query.split(','))` |
| ApiServer.FilterByTagsCounts | api_server.py:284-287 | the filter keeps every occurrence of a wanted item and none of an unwanted one |
| ApiServer.FilterByTagsAppend | api_server.py:284-287 | the filter keeps corpus order: it commutes with concatenation |
| ApiServer.UntaggedNeverWanted | api_server.py:286 | an item with a missing or empty tag list never passes a non-empty filter |
| ApiServer.FilterSetOfTwo | api_server.py:283 | the query "x,y" names exactly the tags x and y |
| ApiServer.FilterSet | api_server.py:283 | no tag named by the query contains a comma, and a query without a comma names exactly itself |
| Seqs.FilterDropsMiddle | api_server.py:284-287 | filtering three items, with the middle one rejected, keeps the outer two in order |
| ApiServer.FilterByTagsExample | api_server.py:282-287 | a two-tag query returns the items carrying either tag, in corpus order, and drops an untagged item |
| ApiServer.GetNews | api_server.py:242-293 | `count` is the number of items shown; `new_count` is the number of new items; the items shown are the corpus after the cycle passed through the tag filter, so the filter lemmas (every occurrence of a wanted item kept, corpus order kept) hold for the response; with an absent or empty query that is the whole corpus, otherwise exactly the items that pass the filter |
| TagCounts.Names | api_server.py:312 | the names of the counted items, one per item, in order |
| TagCounts.Tally | api_server.py:306 | counting one occurrence adds one to that tag's entry, or appends an entry with count 1; all other counts are unchanged |
| TagCounts.CountTags | api_server.py:302-306 | one entry per distinct tag, in order of first appearance, holding its number of occurrences |
| TagCounts.CountTagsCounts | api_server.py:302-306 | every entry holds the number of occurrences of its tag |
| TagCounts.Insert | api_server.py:309 | inserting an item adds exactly that item |
| TagCounts.InsertPermutes | api_server.py:309 | insertion adds one occurrence of the item and changes nothing else |
| TagCounts.InsertSorted | api_server.py:309 | insertion into a list sorted by descending count keeps it sorted |
| TagCounts.InsertWithCount | api_server.py:309 | insertion keeps the order among items of each count and puts the new item first among items of its own count |
| TagCounts.NamesMembership | api_server.py:312 | a name is listed exactly when some item carries it |
| TagCounts.NamesDistinctCons | api_server.py:312 | an item can head a list of distinct names exactly when its name is new to that list |
| TagCounts.InsertKeepsNamesDistinct | api_server.py:309 | inserting an item with a new name keeps names distinct |
| TagCounts.SortByCount | api_server.py:309 | the sort keeps the length and the set of items |
| TagCounts.SortPermutes | api_server.py:309 | the sort is a permutation |
| TagCounts.SortSorted | api_server.py:309 | the sort orders by count, largest first |
| TagCounts.SortStable | api_server.py:309 | the sort is stable: items with the same count keep their relative order |
| TagCounts.SortStableAll | api_server.py:309 | the sort is stable for every count at once |
| TagCounts.SortKeepsNamesDistinct | api_server.py:309 | the sort keeps names distinct |
| TagCounts.SortKeepsNames | api_server.py:309 | the sort keeps the set of names |
| TagCounts.SortByCountExample | api_server.py:309 | a tag counted twice goes before two tags counted once, and those two keep their counting order |
| ApiServer.GetTags | api_server.py:296-313 | the tag listing is sorted by count, largest first; it has one entry per distinct tag of the corpus, holding that tag's number of occurrences; ties keep first-appearance order |
| GenNewsTopics.TagTopic | gen_news_topics.py:73-108 | the single-article classifier sends one request with the 1024-token cap; no reply or an unparsable reply gives `["未分類"]`; a parsed reply is returned as it is |
| GenNewsTopics.FencedListStrips | gen_news_topics.py:93-100 | a tag list inside a `json` code fence is cleaned to exactly its JSON text |
| GenNewsTopics.TagTopicFencedReply | gen_news_topics.py:73-104 | when the service answers with a fenced JSON tag list, the classifier returns exactly that list, for any parser that reads the list's JSON text back as the list |
| GenNewsTopics.TagTopicFencedReplyRead | gen_news_topics.py:73-104 | the reader for the vocabulary layout is such a parser, so the fenced reply comes back as the list |
| GenNewsTopics.TagTopicsBatch | gen_news_topics.py:111-182 | the script's batch always sends one request (numbered articles, temperature 0, top-p 1, cap raised to 4096) and reconciles the reply, covering every article |
| ScriptAndServer.BatchRequestsAgree | gen_news_topics.py:129-149 | for a non-empty batch, the script's batch request and the server's (api_server.py:156-204) differ only in the instruction, where the server adds the known tag vocabulary |
| GenNewsTopics.EmptyBatchStillAsks | gen_news_topics.py:147-178 | unlike the server, the script sends a request even for an empty batch and returns whatever list the service answers |
| GenNewsTopics.RunScript | gen_news_topics.py:190-203 | every fetched item, in fetch order, receives the entry of the batch answer at its own position |
| GenNewsTopics.RunTagsEveryItem | gen_news_topics.py:199-203 | every written item carries a tag list: the service's entry for its position, or `["未分類"]` |

## Left out

- The text-generation client `chat` (api_server.py:104-123, gen_news_topics.py:36-54) calls a network service. It is the parameter `chat`, whose value is the reply text or `None`.
- A reply whose text is `None` is not modelled. The client wraps `response.text` (api_server.py:120, gen_news_topics.py:51), which is `None` for a reply with no text part. `res_str.strip()` then raises an `AttributeError`, and nothing catches it: `/api/news` fails (api_server.py:139) and the script aborts (gen_news_topics.py:93, 161).
- `json.loads` is the parameter `parse`. The parsed value is typed as a list of tag lists (a tag list for `tag_topic`). The code does not validate this. A reply that parses to a dict, a number or a string would make `len`/`append` raise, or would flow on as a non-list; neither path is modelled.
- A reply of JSON `null` makes `parse_json_response` return `None`. The server then falls back to the defaults, and the model covers this, since `parse` returning `None` stands for both outcomes. In the script, `len(None)` raises an uncaught `TypeError` and aborts the run (gen_news_topics.py:171-173). That crash is not modelled. In `tag_topic`, a `null` reply is returned as `None` (gen_news_topics.py:103-104). That is neither the default nor a tag list, and this path is not modelled: for `GenNewsTopics.TagTopic`, `parse` is `None` only when `json.loads` raises.
- The model assumes every title is text. For an empty `<title/>` element, `item.find('title').text` is `None` (api_server.py:77, gen_news_topics.py:18). `topic['title'] + ' '` then raises a `TypeError` in the numbering loop (api_server.py:173, gen_news_topics.py:124), and nothing catches it. That error path is not modelled. A `None` link or publication date is likewise not modelled.
- RSS fetching, XML parsing, `strptime` date parsing and the `datetime.now()` fallback (api_server.py:70-101, gen_news_topics.py:13-33) depend on the network, the clock and library code. A feed is its already-parsed item list.
- Reading and writing `all_topics.json` (api_server.py:56-67, gen_news_topics.py:208-209) is disk I/O. The corpus is passed in, and the returned corpus (with `saved`) stands for the write.
- FastAPI setup, CORS, static files and the uvicorn launch (api_server.py:22-44, 316-318) are framework plumbing.
- The prose of the system instructions is not modelled. `Prompt.Instruction` names which fixed instruction a request carries. For the server's normalizing batch instruction, it also carries the vocabulary's JSON text.
- `print` logging is not modelled.
- The set `existing_links` built at api_server.py:252 is unused by the code, so it is not modelled.
- ApiServer.ExistingTags: Python returns `list(set(...))` in an unspecified order. The model fixes first-appearance order. The contract promises only no duplicates and exact membership, as the code does.
- Concurrency between overlapping requests on the shared file is not addressed by the code and is not modelled.
