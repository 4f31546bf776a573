/** The request handed to the text-generation service and the numbered user
    content listing the articles of a batch. */
module Prompt {
  import opened Wrappers
  import opened Strings
  import opened News

  datatype Message = Message(author: string, content: string)

  /** Which fixed system instruction a request carries. The instruction prose
      is not modelled; only its variable part is: the JSON text of the known
      tag vocabulary in the server's normalizing prompt. */
  datatype Instruction =
    | TagOneTopic                          // one article in, one JSON list of tags out
    | TagBatch                             // numbered articles in, one JSON list of tag lists out
    | TagBatchNormalized(vocabulary: string) // as TagBatch, preferring the listed known tags

  /** The request dictionary `chat` reads: system instruction, output token
      cap, messages, and the sampling parameters. */
  datatype Request = Request(
    context: Instruction,
    maxOutputTokens: nat,
    messages: seq<Message>,
    temperature: real,
    topP: real)

  /** What one article contributes to the user content:
      `topic['title'] + ' ' + (topic['description'] or '')`. */
  function ItemText(t: NewsItem): string {
    t.title + " " + t.description.GetOr("")
  }

  /** `f"{i+1}. {content}"`: the article at index `i` is numbered from 1. */
  function NumberedLine(i: nat, t: NewsItem): string {
    NatToString(i + 1) + ". " + ItemText(t)
  }

  /** The lines the numbering loop collects, one per article, in batch order. */
  function NumberedLines(items: seq<NewsItem>): (ls: seq<string>)
    ensures |ls| == |items|
    ensures forall i :: 0 <= i < |items| ==> ls[i] == NumberedLine(i, items[i])
    decreases |items|
  {
    if |items| == 0 then []
    else
      var n := |items| - 1;
      NumberedLines(items[..n]) + [NumberedLine(n, items[n])]
  }

  /** `"\n".join(news_list)`: the user content of a batch request. */
  function NewsText(items: seq<NewsItem>): (text: string)
    ensures text == "" <==> |items| == 0
  {
    var ls := NumberedLines(items);
    assert |ls| > 0 ==> |ls[0]| > 0;
    Join(ls, '\n')
  }

  /** The maximal run of decimal digits at the start of `s`. */
  function DigitPrefix(s: string): (d: string)
    ensures |d| <= |s| && d == s[..|d|]
    ensures forall i :: 0 <= i < |d| ==> IsDigit(d[i])
    ensures |d| < |s| ==> !IsDigit(s[|d|])
    decreases |s|
  {
    if |s| > 0 && IsDigit(s[0]) then [s[0]] + DigitPrefix(s[1..]) else ""
  }

  /** A digit string followed by a non-digit is exactly the digit prefix. */
  lemma DigitPrefixOf(d: string, rest: string)
    requires forall i :: 0 <= i < |d| ==> IsDigit(d[i])
    requires |rest| > 0 && !IsDigit(rest[0])
    ensures DigitPrefix(d + rest) == d
  {
    var p := DigitPrefix(d + rest);
    assert forall i :: 0 <= i < |p| ==> (d + rest)[i] == p[i];
    assert (d + rest)[|d|] == rest[0];
    assert |p| == |d|;
  }

  /** The number a reader finds at the head of the line for index `i` is
      `i + 1`: the service sees the articles numbered from 1, in batch order. */
  lemma NumberedLineNumber(i: nat, t: NewsItem)
    ensures ParseDecimal(DigitPrefix(NumberedLine(i, t))) == i + 1
  {
    var d := NatToString(i + 1);
    assert NumberedLine(i, t) == d + (". " + ItemText(t));
    DigitPrefixOf(d, ". " + ItemText(t));
    ParseNatToString(i + 1);
  }

  /** A numbered line has a line break only where its article text has one. */
  lemma NumberedLineNoBreak(i: nat, t: NewsItem)
    requires '\n' !in ItemText(t)
    ensures '\n' !in NumberedLine(i, t)
  {
    var d := NatToString(i + 1);
    assert '\n' !in d by {
      forall j | 0 <= j < |d| ensures d[j] != '\n' {
        assert IsDigit(d[j]);
      }
    }
    assert '\n' !in ". ";
  }

  /** When no title or description contains a line break, splitting the user
      content at line breaks gives back one numbered line per article. */
  lemma NewsTextLines(items: seq<NewsItem>)
    requires |items| > 0
    requires forall k :: 0 <= k < |items| ==> '\n' !in ItemText(items[k])
    ensures Split(NewsText(items), '\n') == NumberedLines(items)
  {
    var ls := NumberedLines(items);
    forall k | 0 <= k < |ls| ensures '\n' !in ls[k] {
      NumberedLineNoBreak(k, items[k]);
    }
    SplitJoin(ls, '\n');
  }
}
