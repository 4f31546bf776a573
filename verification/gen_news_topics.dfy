/** The one-shot batch script: fetch up to four items per feed, classify all
    of them with a single request, attach the tag lists by position, and
    write the result (the write is the returned list).

    As in the server, the text-generation service is the parameter `chat`
    and `json.loads` is the parameter `parse`. */
module GenNewsTopics {
  import opened Wrappers
  import opened Strings
  import opened JsonText
  import opened News
  import opened Prompt
  import opened Reconcile

  /** The script's `generate_request_prompt`: one user message, the given
      sampling parameters and an output cap of 1024 tokens. */
  function GenerateRequestPrompt(prompt: Instruction, content: string, tmp: real, p: real): (r: Request)
    ensures r.context == prompt && r.maxOutputTokens == 1024
    ensures r.messages == [Message("user", content)]
    ensures r.temperature == tmp && r.topP == p
  {
    Request(prompt, 1024, [Message("user", content)], tmp, p)
  }

  /** What a single-article classification did: the request it sent and the
      tag list it returned. */
  datatype Tagging = Tagging(request: Request, tags: seq<string>)

  /** `tag_topic`: one article in, one tag list out. No reply or an
      unparsable reply gives the default classification; anything parsed is
      returned as it is, even an empty list. `parse` is `None` only when
      `json.loads` raises: a reply of JSON `null` is not modelled. */
  function TagTopic(content: string, chat: Request -> Option<string>, parse: string -> Option<seq<string>>): (t: Tagging)
    ensures t.request == GenerateRequestPrompt(TagOneTopic, content, 0.0, 1.0)
    ensures chat(t.request).None? ==> t.tags == DefaultTags
    ensures chat(t.request).Some? ==>
      var parsed := parse(StripFences(chat(t.request).value));
      t.tags == if parsed.Some? then parsed.value else DefaultTags
  {
    var request := GenerateRequestPrompt(TagOneTopic, content, 0.0, 1.0);
    match chat(request)
    case None => Tagging(request, DefaultTags)
    case Some(text) =>
      match parse(StripFences(text))
      case None => Tagging(request, DefaultTags)
      case Some(l) => Tagging(request, l)
  }

  /** The fence around a JSON tag list is removed exactly. */
  lemma FencedListStrips(tags: seq<string>)
    ensures StripFences("```json\n" + DumpStringList(tags) + "\n```") == DumpStringList(tags)
  {
    var body := DumpStringList(tags);
    var nl := "\n";
    assert "```json\n" + body + "\n```" == "" + "```json" + nl + body + nl + "```" + "";
    assert IsSpace(nl[0]);
    assert Trimmed(body);
    FencedReplyRoundTrip("", "```json", nl, body, nl, "");
  }

  /** When the service answers with a tag list written as JSON inside a code
      fence, the single-article classification returns exactly that list, for
      any parser that reads the JSON text of a list back as the list. */
  lemma TagTopicFencedReply(
    content: string,
    tags: seq<string>,
    chat: Request -> Option<string>,
    parse: string -> Option<seq<string>>)
    requires chat(GenerateRequestPrompt(TagOneTopic, content, 0.0, 1.0)) ==
      Some("```json\n" + DumpStringList(tags) + "\n```")
    requires parse(DumpStringList(tags)) == Some(tags)
    ensures TagTopic(content, chat, parse).tags == tags
  {
    FencedListStrips(tags);
  }

  /** The reader for the vocabulary layout is one such parser. */
  lemma TagTopicFencedReplyRead(content: string, tags: seq<string>, chat: Request -> Option<string>)
    requires chat(GenerateRequestPrompt(TagOneTopic, content, 0.0, 1.0)) ==
      Some("```json\n" + DumpStringList(tags) + "\n```")
    ensures TagTopic(content, chat, ReadStringList).tags == tags
  {
    DumpReadRoundTrip(tags);
    TagTopicFencedReply(content, tags, chat, ReadStringList);
  }

  /** `tag_topics_batch`: one request carrying the numbered articles, always
      sent (even for an empty batch), with the output cap raised to 4096;
      the reply is reconciled to at least one tag list per article. */
  function TagTopicsBatch(
    topics: seq<NewsItem>,
    chat: Request -> Option<string>,
    parse: string -> Option<seq<seq<string>>>): (b: Batch)
    ensures b.request.Some?
    ensures b.request.value.context == TagBatch
    ensures b.request.value.messages == [Message("user", NewsText(topics))]
    ensures b.request.value.maxOutputTokens == 4096
    ensures b.request.value.temperature == 0.0 && b.request.value.topP == 1.0
    ensures b.tags == ReconcileReply(chat(b.request.value), |topics|, parse)
    ensures |b.tags| >= |topics|
  {
    var request := GenerateRequestPrompt(TagBatch, NewsText(topics), 0.0, 1.0).(maxOutputTokens := 4096);
    Batch(Some(request), ReconcileReply(chat(request), |topics|, parse))
  }

  /** Unlike the server, the script does not short-cut an empty batch: the
      service is still asked, and whatever list it answers is returned. */
  lemma EmptyBatchStillAsks(chat: Request -> Option<string>, parse: string -> Option<seq<seq<string>>>)
    ensures var b := TagTopicsBatch([], chat, parse);
      && b.request.Some?
      && (chat(b.request.value).Some? && parse(StripFences(chat(b.request.value).value)).Some? ==>
          b.tags == parse(StripFences(chat(b.request.value).value)).value)
  {
  }

  /** What a run of the script produced: the classification request and the
      list written to `all_topics.json`. */
  datatype Run = Run(request: Request, topics: seq<NewsItem>)

  /** The script's main flow: every fetched item, in fetch order, receives
      the tag list at its own position of the batch answer. */
  function RunScript(
    feeds: seq<seq<NewsItem>>,
    chat: Request -> Option<string>,
    parse: string -> Option<seq<seq<string>>>): (r: Run)
    ensures var fetched := FetchAll(feeds);
      var batch := TagTopicsBatch(fetched, chat, parse);
      && r.request == batch.request.value
      && |r.topics| == |fetched|
      && forall i :: 0 <= i < |fetched| ==> r.topics[i] == fetched[i].(tags := Some(batch.tags[i]))
  {
    var fetched := FetchAll(feeds);
    var batch := TagTopicsBatch(fetched, chat, parse);
    Run(batch.request.value, AttachTags(fetched, batch.tags))
  }

  /** Every written item carries a tag list: the service's entry for its
      position, or the default classification. */
  lemma RunTagsEveryItem(
    feeds: seq<seq<NewsItem>>,
    chat: Request -> Option<string>,
    parse: string -> Option<seq<seq<string>>>,
    i: nat)
    requires i < |RunScript(feeds, chat, parse).topics|
    ensures var r := RunScript(feeds, chat, parse);
      var reply := chat(r.request);
      && r.topics[i].tags.Some?
      && (|| r.topics[i].tags.value == DefaultTags
          || (reply.Some? && parse(StripFences(reply.value)).Some?
              && i < |parse(StripFences(reply.value)).value|
              && r.topics[i].tags.value == parse(StripFences(reply.value)).value[i]))
  {
    var fetched := FetchAll(feeds);
    var batch := TagTopicsBatch(fetched, chat, parse);
    ReconcileEntries(chat(batch.request.value), |fetched|, parse, i);
  }
}
