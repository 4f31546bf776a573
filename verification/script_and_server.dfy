/** How the one-shot script and the HTTP server differ in what they ask of
    the text-generation service. */
module ScriptAndServer {
  import opened Wrappers
  import opened JsonText
  import opened News
  import opened Prompt
  import ApiServer
  import GenNewsTopics

  /** The two request builders agree on everything but the output cap: 1024
      tokens in the script, 4096 in the server. */
  lemma RequestBuildersAgree(prompt: Instruction, content: string, tmp: real, p: real)
    ensures GenNewsTopics.GenerateRequestPrompt(prompt, content, tmp, p)
      == ApiServer.GenerateRequestPrompt(prompt, content, tmp, p).(maxOutputTokens := 1024)
  {
  }

  /** For a non-empty batch, the script's request and the server's differ
      only in the system instruction: the server adds the known tag
      vocabulary. */
  lemma BatchRequestsAgree(
    topics: seq<NewsItem>,
    existingTags: seq<string>,
    chat: Request -> Option<string>,
    parse: string -> Option<seq<seq<string>>>)
    requires |topics| > 0
    ensures var script := GenNewsTopics.TagTopicsBatch(topics, chat, parse).request.value;
      var server := ApiServer.TagBatchWithNormalization(topics, existingTags, chat, parse).request.value;
      server == script.(context := TagBatchNormalized(DumpStringList(existingTags)))
  {
  }
}
