/** Turning the service's reply into one tag list per article: code-fence
    removal, the default classification on any failure, and padding of a
    short answer. */
module Reconcile {
  import opened Wrappers
  import opened Strings
  import opened Prompt

  /** The fallback label "unclassified". */
  const Uncategorized: string := "未分類"

  /** The default classification `["未分類"]`. */
  const DefaultTags: seq<string> := [Uncategorized]

  /** What one batch call did: the request it sent to the service, if any, and
      the tag lists it returned. */
  datatype Batch = Batch(request: Option<Request>, tags: seq<seq<string>>)

  /** Drops a leading "```json", then a leading "```". */
  function DropOpenFence(t: string): (r: string)
    ensures |t| - |r| in {0, 3, 7, 10} && r == t[|t| - |r|..]
    ensures !StartsWith(t, "```") ==> r == t
  {
    var t1 := if StartsWith(t, "```json") then t[7..] else t;
    if StartsWith(t1, "```") then t1[3..] else t1
  }

  /** Drops a trailing "```". */
  function DropCloseFence(t: string): (r: string)
    ensures |t| - |r| in {0, 3} && r == t[..|r|]
    ensures |r| == |t| - 3 <==> EndsWith(t, "```")
  {
    if EndsWith(t, "```") then t[..|t| - 3] else t
  }

  /** The markdown code-fence removal applied before `json.loads`: strip, drop
      a leading "```json", then a leading "```", then a trailing "```", and
      strip again. */
  function StripFences(text: string): (r: string)
    ensures Trimmed(r)
    ensures |r| <= |text|
  {
    Strip(DropCloseFence(DropOpenFence(Strip(text))))
  }

  /** A reply that, once stripped, neither starts nor ends with a fence is
      only whitespace-trimmed. */
  lemma StripFencesUnfenced(text: string)
    requires !StartsWith(Strip(text), "```") && !EndsWith(Strip(text), "```")
    ensures StripFences(text) == Strip(text)
  {
    var t0 := Strip(text);
    assert DropOpenFence(t0) == t0 by {
      if |t0| >= 7 {
        assert t0[..7][..3] == t0[..3];
      }
    }
    StripIdempotent(text);
  }

  /** An opening fence, with or without the `json` hint, followed by text that
      starts with whitespace or '[' is removed and nothing else is. */
  lemma DropOpenFenceOf(fence: string, inner: string)
    requires fence == "```json" || fence == "```"
    requires |inner| > 0 && (IsSpace(inner[0]) || inner[0] == '[')
    ensures DropOpenFence(fence + inner) == inner
  {
    var t := fence + inner;
    if fence == "```json" {
      assert t[..7] == fence;
      assert t[7..] == inner;
    } else {
      assert t[3] == inner[0];
      assert t[..3] == fence;
      assert t[3..] == inner;
    }
  }

  lemma DropCloseFenceOf(m: string)
    ensures DropCloseFence(m + "```") == m
  {
    assert (m + "```")[|m|..] == "```";
    assert (m + "```")[..|m|] == m;
  }

  /** A JSON array reply wrapped in a code fence, with or without the `json`
      hint, and surrounded by any whitespace inside and outside the fence,
      comes out as exactly the array text. */
  lemma FencedReplyRoundTrip(p: string, fence: string, w1: string, body: string, w2: string, q: string)
    requires fence == "```json" || fence == "```"
    requires AllSpace(p) && AllSpace(w1) && AllSpace(w2) && AllSpace(q)
    requires Trimmed(body) && |body| > 0 && body[0] == '['
    ensures StripFences(p + fence + w1 + body + w2 + "```" + q) == body
  {
    var m := w1 + body + w2;
    var inner := m + "```";
    var framed := fence + inner;
    assert p + fence + w1 + body + w2 + "```" + q == p + framed + q;
    assert framed[0] == '`' && framed[|framed| - 1] == '`';
    StripUnique(p, framed, q);
    assert inner[0] == (if |w1| > 0 then w1[0] else body[0]);
    DropOpenFenceOf(fence, inner);
    DropCloseFenceOf(m);
    StripUnique(w1, body, w2);
  }

  /** An example: the reply "```json", line break, `[["政治"]]`,
      line break, "```" parses from exactly `[["政治"]]`. */
  lemma StripFencesExample()
    ensures StripFences("```json\n[[\"政治\"]]\n```") == "[[\"政治\"]]"
  {
    var body := "[[\"政治\"]]";
    var nl := "\n";
    var text := "" + "```json" + nl + body + nl + "```" + "";
    assert text == "```json\n[[\"政治\"]]\n```";
    assert IsSpace(nl[0]);
    assert body[0] == '[' && body[|body| - 1] == ']';
    FencedReplyRoundTrip("", "```json", nl, body, nl, "");
  }

  /** `[["未分類"] for _ in topics]` */
  function Defaults(n: nat): (r: seq<seq<string>>)
    ensures |r| == n
    ensures forall i :: 0 <= i < n ==> r[i] == DefaultTags
  {
    seq(n, _ => DefaultTags)
  }

  /** `while len(res_list) < n: res_list.append(["未分類"])`: a short list is
      extended with default entries up to length `n`, a long one is left as
      it is. */
  function PadTo(l: seq<seq<string>>, n: nat): (r: seq<seq<string>>)
    ensures |r| == if |l| < n then n else |l|
    ensures r[..|l|] == l
    ensures forall i :: |l| <= i < |r| ==> r[i] == DefaultTags
    decreases n - |l|
  {
    if |l| < n then PadTo(l + [DefaultTags], n) else l
  }

  /** A parsed answer made to cover a batch of `n`: padded when short, kept
      as it is otherwise (a long answer is not cut). */
  function Fit(l: seq<seq<string>>, n: nat): (r: seq<seq<string>>)
    ensures |r| == if |l| < n then n else |l|
    ensures r[..|l|] == l
    ensures forall i :: |l| <= i < |r| ==> r[i] == DefaultTags
  {
    if |l| != n then PadTo(l, n) else l
  }

  /** The reply handling shared by the server and the batch script, for a
      batch of `n` articles: `reply` is the service's text (`None` when the
      call failed) and `parse` stands for `json.loads`, `None` when it raises. */
  function ReconcileReply(reply: Option<string>, n: nat, parse: string -> Option<seq<seq<string>>>): (r: seq<seq<string>>)
    ensures |r| >= n
    ensures reply.None? ==> r == Defaults(n)
    ensures reply.Some? && parse(StripFences(reply.value)).None? ==> r == Defaults(n)
    ensures reply.Some? && parse(StripFences(reply.value)).Some? ==>
      var l := parse(StripFences(reply.value)).value;
      && |r| == (if |l| < n then n else |l|)
      && r[..|l|] == l
      && forall i :: |l| <= i < |r| ==> r[i] == DefaultTags
  {
    match reply
    case None => Defaults(n)
    case Some(text) =>
      match parse(StripFences(text))
      case None => Defaults(n)
      case Some(l) => Fit(l, n)
  }

  /** Every entry of a reconciled batch is either what the service answered
      for that position or the default classification. */
  lemma ReconcileEntries(reply: Option<string>, n: nat, parse: string -> Option<seq<seq<string>>>, i: nat)
    requires i < |ReconcileReply(reply, n, parse)|
    ensures var r := ReconcileReply(reply, n, parse);
      || r[i] == DefaultTags
      || (reply.Some? && parse(StripFences(reply.value)).Some?
          && i < |parse(StripFences(reply.value)).value|
          && r[i] == parse(StripFences(reply.value)).value[i])
  {
    var r := ReconcileReply(reply, n, parse);
    if reply.Some? && parse(StripFences(reply.value)).Some? {
      var l := parse(StripFences(reply.value)).value;
      if i < |l| {
        assert r[..|l|][i] == r[i];
      }
    }
  }
}
