/** The JSON text of a list of strings as Python's `json.dumps(tags,
    ensure_ascii=False)` writes it with default separators, and a reader for
    exactly that layout, so that the tag vocabulary placed in the prompt can
    be shown to be recoverable from it. */
module JsonText {
  import opened Wrappers

  /** Lower-case hexadecimal digit, as in Python's `'\\u{0:04x}'` escape. */
  function HexDigit(d: nat): (c: char)
    requires d < 16
  {
    "0123456789abcdef"[d]
  }

  /** Value of a hexadecimal digit of either case, as JSON readers accept. */
  function HexValue(c: char): Option<nat> {
    if '0' <= c <= '9' then Some(c as int - '0' as int)
    else if 'a' <= c <= 'f' then Some(c as int - 'a' as int + 10)
    else if 'A' <= c <= 'F' then Some(c as int - 'A' as int + 10)
    else None
  }

  lemma HexDigitValue(d: nat)
    requires d < 16
    ensures HexValue(HexDigit(d)) == Some(d)
  {
    var digits := "0123456789abcdef";
    assert digits[0] == '0' && digits[9] == '9' && digits[10] == 'a' && digits[15] == 'f';
    if d < 10 {
      assert forall k :: 0 <= k < 10 ==> digits[k] as int == '0' as int + k;
    } else {
      assert forall k :: 10 <= k < 16 ==> digits[k] as int == 'a' as int + k - 10;
    }
  }

  /** How the encoder writes one character inside a string literal: quote,
      backslash and the control characters are escaped, everything else
      (non-ASCII included, because `ensure_ascii` is off) is written as is. */
  function EscapeChar(c: char): (e: string)
    ensures 1 <= |e| <= 6
  {
    if c == '"' then "\\\""
    else if c == '\\' then "\\\\"
    else if c == '\n' then "\\n"
    else if c == '\r' then "\\r"
    else if c == '\t' then "\\t"
    else if c == '\U{8}' then "\\b"
    else if c == '\U{c}' then "\\f"
    else if c < ' ' then "\\u00" + [HexDigit(c as int / 16), HexDigit(c as int % 16)]
    else [c]
  }

  function Escape(s: string): string
    decreases |s|
  {
    if |s| == 0 then "" else EscapeChar(s[0]) + Escape(s[1..])
  }

  function Quote(s: string): string {
    "\"" + Escape(s) + "\""
  }

  /** The elements of a non-empty list, quoted and separated by `", "`. */
  function QuotedItems(l: seq<string>): string
    requires |l| >= 1
    decreases |l|
  {
    if |l| == 1 then Quote(l[0]) else Quote(l[0]) + ", " + QuotedItems(l[1..])
  }

  /** `json.dumps(l, ensure_ascii=False)` for a list of strings. */
  function DumpStringList(l: seq<string>): (j: string)
    ensures |j| >= 2 && j[0] == '[' && j[|j| - 1] == ']'
    ensures j == "[]" <==> |l| == 0
  {
    if |l| == 0 then "[]" else "[" + QuotedItems(l) + "]"
  }

  /** A character needing no escape is written unchanged. */
  predicate Plain(c: char) {
    c != '"' && c != '\\' && c >= ' '
  }

  /** Text without quotes, backslashes or control characters (tags such as
      "政治" or "スポーツ") appears verbatim in the JSON text. */
  lemma {:induction false} EscapePlain(s: string)
    requires forall i :: 0 <= i < |s| ==> Plain(s[i])
    ensures Escape(s) == s
    decreases |s|
  {
    if |s| > 0 {
      EscapePlain(s[1..]);
      assert s == [s[0]] + s[1..];
    }
  }

  /** Reads one possibly escaped character at the start of `t` (which is not a
      closing quote): the character and how many characters it took. Raw
      control characters are rejected, as in strict JSON; `\u` escapes naming
      a surrogate code point are rejected too, since they are not characters
      on their own. */
  function ReadChar(t: string): (r: Option<(char, nat)>)
    requires |t| > 0 && t[0] != '"'
    ensures r.Some? ==> 1 <= r.value.1 <= |t|
  {
    if t[0] == '\\' then
      if |t| < 2 then None
      else if t[1] == '"' || t[1] == '\\' || t[1] == '/' then Some((t[1], 2))
      else if t[1] == 'b' then Some(('\U{8}', 2))
      else if t[1] == 'f' then Some(('\U{c}', 2))
      else if t[1] == 'n' then Some(('\n', 2))
      else if t[1] == 'r' then Some(('\r', 2))
      else if t[1] == 't' then Some(('\t', 2))
      else if t[1] == 'u' && |t| >= 6 then
        match (HexValue(t[2]), HexValue(t[3]), HexValue(t[4]), HexValue(t[5]))
        case (Some(a), Some(b), Some(c), Some(d)) =>
          var v := ((a * 16 + b) * 16 + c) * 16 + d;
          if v < 0xD800 || 0xE000 <= v < 0x11_0000 then Some((v as char, 6)) else None
        case _ => None
      else None
    else if t[0] < ' ' then None
    else Some((t[0], 1))
  }

  /** Reads the body of a string literal up to its closing quote: the decoded
      text and whatever follows the quote. */
  function ReadStringBody(t: string): (r: Option<(string, string)>)
    ensures r.Some? ==> |r.value.1| < |t|
    decreases |t|
  {
    if |t| == 0 then None
    else if t[0] == '"' then Some(("", t[1..]))
    else
      match ReadChar(t)
      case None => None
      case Some((c, k)) =>
        match ReadStringBody(t[k..])
        case None => None
        case Some((s, rest)) => Some(([c] + s, rest))
  }

  /** Reads `"…", "…", …]`: the quoted elements up to and including the
      closing bracket, which must end the text. */
  function ReadItems(t: string): Option<seq<string>>
    decreases |t|
  {
    if |t| == 0 || t[0] != '"' then None
    else
      match ReadStringBody(t[1..])
      case None => None
      case Some((s, rest)) =>
        if rest == "]" then Some([s])
        else if |rest| >= 2 && rest[..2] == ", " then
          match ReadItems(rest[2..])
          case None => None
          case Some(more) => Some([s] + more)
        else None
  }

  /** Reads a list of strings in the layout DumpStringList writes. */
  function ReadStringList(t: string): Option<seq<string>> {
    if t == "[]" then Some([])
    else if |t| > 0 && t[0] == '[' then ReadItems(t[1..])
    else None
  }

  /** Every escape the encoder writes reads back as the character it encodes. */
  lemma ReadEscapedChar(c: char, u: string)
    ensures (EscapeChar(c) + u)[0] != '"'
    ensures ReadChar(EscapeChar(c) + u) == Some((c, |EscapeChar(c)|))
  {
    var t := EscapeChar(c) + u;
    if c != '"' && c != '\\' && c != '\n' && c != '\r' && c != '\t'
      && c != '\U{8}' && c != '\U{c}' && c < ' '
    {
      var hi := c as int / 16;
      var lo := c as int % 16;
      HexDigitValue(0);
      HexDigitValue(hi);
      HexDigitValue(lo);
      assert t[2] == '0' && t[3] == '0' && t[4] == HexDigit(hi) && t[5] == HexDigit(lo);
      assert ((0 * 16 + 0) * 16 + hi) * 16 + lo == c as int;
    }
  }

  /** A string body written by the encoder, followed by the closing quote,
      reads back as the original text and leaves what follows untouched. */
  lemma {:induction false} ReadEscapedBody(s: string, rest: string)
    ensures ReadStringBody(Escape(s) + "\"" + rest) == Some((s, rest))
    decreases |s|
  {
    var t := Escape(s) + "\"" + rest;
    if |s| == 0 {
      assert t == "\"" + rest;
      assert t[1..] == rest;
    } else {
      var e := EscapeChar(s[0]);
      var u := Escape(s[1..]) + "\"" + rest;
      assert t == e + u;
      ReadEscapedChar(s[0], u);
      assert t[|e|..] == u;
      ReadEscapedBody(s[1..], rest);
      assert [s[0]] + s[1..] == s;
    }
  }

  /** One quoted element followed by the rest of the list text. */
  lemma ReadOneItem(s: string, tail: string)
    ensures ReadItems("\"" + Escape(s) + "\"" + tail) ==
      if tail == "]" then Some([s])
      else if |tail| >= 2 && tail[..2] == ", " then
        match ReadItems(tail[2..])
        case None => None
        case Some(more) => Some([s] + more)
      else None
  {
    var t := "\"" + Escape(s) + "\"" + tail;
    assert t[1..] == Escape(s) + "\"" + tail;
    ReadEscapedBody(s, tail);
  }

  /** The text after the first element of a list of two or more. */
  lemma QuotedItemsTail(l: seq<string>)
    requires |l| >= 2
    ensures var tail := ", " + (QuotedItems(l[1..]) + "]");
      && QuotedItems(l) + "]" == "\"" + Escape(l[0]) + "\"" + tail
      && |tail| >= 2 && tail[..2] == ", " && tail[2..] == QuotedItems(l[1..]) + "]"
  {
  }

  lemma {:induction false} ReadQuotedItems(l: seq<string>)
    requires |l| >= 1
    ensures ReadItems(QuotedItems(l) + "]") == Some(l)
    decreases |l|
  {
    if |l| == 1 {
      assert QuotedItems(l) + "]" == "\"" + Escape(l[0]) + "\"" + "]";
      ReadOneItem(l[0], "]");
      assert l == [l[0]];
    } else {
      QuotedItemsTail(l);
      ReadOneItem(l[0], ", " + (QuotedItems(l[1..]) + "]"));
      ReadQuotedItems(l[1..]);
      assert [l[0]] + l[1..] == l;
    }
  }

  /** The JSON text of a string list determines the list: reading it back
      gives exactly the list that was written. */
  lemma DumpReadRoundTrip(l: seq<string>)
    ensures ReadStringList(DumpStringList(l)) == Some(l)
  {
    if |l| > 0 {
      var j := DumpStringList(l);
      assert j[1..] == QuotedItems(l) + "]";
      ReadQuotedItems(l);
    }
  }
}
