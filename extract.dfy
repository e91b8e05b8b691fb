/** Recovering the JSON object from a language model's reply (stream_invoice_clean.py:132-148)
    and the two wrappers that ask the model for a policy schedule or a claim document
    (stream_invoice_clean.py:213-327). `json.loads` is an abstract partial parser: `None`
    where it raises. */
module Extract {
  import opened Common
  import opened Text
  import opened Json

  /** `json.loads`: the decoded value, or `None` where it raises. */
  type Parser = string -> Option<Json>

  const JsonFence: string := "```json"
  const Fence: string := "```"

  predicate NoBacktick(s: string) {
    forall k :: 0 <= k < |s| ==> s[k] != '`'
  }

  /** `re.sub(tag + r'\s*', '', s)`: scanning left to right, every occurrence of `tag` is
      removed together with the whitespace run that follows it. */
  function RemoveFence(s: string, tag: string): string
    requires tag != []
    decreases |s|
  {
    if s == [] then []
    else if StartsWith(s, tag) then RemoveFence(LStrip(s[|tag|..]), tag)
    else [s[0]] + RemoveFence(s[1..], tag)
  }

  /** The two substitutions of stream_invoice_clean.py:134-135, in order. */
  function RemoveFences(text: string): string {
    RemoveFence(RemoveFence(text, JsonFence), Fence)
  }

  /** The first index holding `c`, or -1. */
  function Find(s: string, c: char): (r: int)
    ensures r == -1 || (0 <= r < |s| && s[r] == c)
    ensures forall k :: 0 <= k < |s| && (r == -1 || k < r) ==> s[k] != c
  {
    if s == [] then -1
    else if s[0] == c then 0
    else
      var r := Find(s[1..], c);
      assert forall k :: 1 <= k < |s| ==> s[k] == s[1..][k - 1];
      if r == -1 then -1 else r + 1
  }

  /** `re.search(r'\{.*\}', t, re.DOTALL)`: the leftmost match starts at the first `{` and,
      `.*` being greedy, ends at the last `}` after it; there is no match when no `}`
      follows the first `{`. The result is the span `[i, j]`, both ends included. */
  function BraceSpan(t: string): (r: Option<(nat, nat)>)
    ensures r.Some? ==> var (i, j) := r.value;
      i < j < |t| && t[i] == '{' && t[j] == '}'
      && (forall k :: 0 <= k < i ==> t[k] != '{')
      && (forall k :: j < k < |t| ==> t[k] != '}')
    ensures r.None? ==> forall i, j :: 0 <= i < j < |t| && t[i] == '{' ==> t[j] != '}'
  {
    var i := Find(t, '{');
    if i == -1 then None
    else
      var j := RFind(t, '}', i + 1, |t|);
      if j == -1 then None else Some((i, j))
  }

  /** `extract_json_from_text(text)`: the span from the first `{` to the last `}` is parsed
      when there is one; if that is absent or fails, the whole stripped text is parsed;
      `None` when both fail. Nothing escapes: both parses sit in a bare `except`. */
  function ExtractJson(text: string, parse: Parser): (r: Option<Json>)
    ensures var t := RemoveFences(text);
      r.None? <==>
        (BraceSpan(t).None? || parse(t[BraceSpan(t).value.0..BraceSpan(t).value.1 + 1]).None?)
        && parse(Strip(t)).None?
  {
    var t := RemoveFences(text);
    match BraceSpan(t)
    case Some((i, j)) =>
      if parse(t[i..j + 1]).Some? then parse(t[i..j + 1]) else parse(Strip(t))
    case None => parse(Strip(t))
  }

  /** Removing a fence tag that starts with a backtick leaves a backtick-free prefix alone. */
  lemma {:induction false} RemoveFenceSkipsPlain(a: string, b: string, tag: string)
    requires tag != [] && tag[0] == '`' && NoBacktick(a)
    ensures RemoveFence(a + b, tag) == a + RemoveFence(b, tag)
    decreases |a|
  {
    if a != [] {
      assert (a + b)[0] == a[0];
      assert !StartsWith(a + b, tag);
      assert (a + b)[1..] == a[1..] + b;
      RemoveFenceSkipsPlain(a[1..], b, tag);
      assert [a[0]] + (a[1..] + RemoveFence(b, tag)) == a + RemoveFence(b, tag);
    } else {
      assert a + b == b;
    }
  }

  lemma BackticksFreeOfFences(s: string)
    requires NoBacktick(s)
    ensures RemoveFences(s) == s
  {
    RemoveFenceSkipsPlain(s, [], JsonFence);
    assert s + [] == s;
    RemoveFenceSkipsPlain(s, [], Fence);
  }

  /** A backtick-free object text: it starts with `{`, ends with `}` and has no fence. */
  predicate ObjectText(s: string) {
    |s| >= 2 && s[0] == '{' && s[|s| - 1] == '}' && NoBacktick(s)
  }

  /** The brace span of an object text followed by anything without a `}` is the text. */
  lemma SpanOfObjectText(s: string, tail: string)
    requires ObjectText(s) && forall k :: 0 <= k < |tail| ==> tail[k] != '}'
    ensures BraceSpan(s + tail).Some? && BraceSpan(s + tail).value == (0, |s| - 1)
  {
    var t := s + tail;
    assert t[0] == '{';
    assert forall k :: |s| <= k < |t| ==> t[k] == tail[k - |s|];
    assert t[|s| - 1] == '}';
  }

  /** A bare object text is recovered as is: `extract_json_from_text(s) == json.loads(s)`. */
  lemma ExtractBare(s: string, parse: Parser)
    requires ObjectText(s)
    ensures ExtractJson(s, parse) == parse(s)
  {
    BackticksFreeOfFences(s);
    SpanOfObjectText(s, []);
    assert s + [] == s;
    assert s[0..|s|] == s;
    StripOfStripped(s);
  }

  /** A fenced object text is recovered too:
      `extract_json_from_text("```json\n" + s + "\n```") == json.loads(s)`. */
  lemma ExtractFenced(s: string, parse: Parser)
    requires ObjectText(s)
    ensures ExtractJson("```json\n" + s + "\n```", parse) == parse(s)
  {
    var text := "```json\n" + s + "\n```";
    // the first substitution removes the opening fence and the newline after it
    assert StartsWith(text, JsonFence);
    var rest := text[|JsonFence|..];
    assert rest == "\n" + (s + "\n```");
    assert LeadingSpaces(rest) == 1 by {
      assert rest[0] == '\n' && rest[1..] == s + "\n```";
      assert (s + "\n```")[0] == '{';
    }
    assert LStrip(rest) == s + "\n```";
    RemoveFenceSkipsPlain(s, "\n```", JsonFence);
    assert RemoveFence("\n```", JsonFence) == "\n```" by {
      assert !StartsWith("\n```", JsonFence);
      assert "\n```"[1..] == Fence;
      assert !StartsWith(Fence, JsonFence);
      assert Fence[1..] == "``" && !StartsWith("``", JsonFence);
      assert "``"[1..] == "`" && !StartsWith("`", JsonFence);
      assert "`"[1..] == [];
    }
    assert RemoveFence(text, JsonFence) == s + "\n```";
    // the second removes the closing fence
    var t := s + "\n";
    assert s + "\n```" == t + Fence;
    assert NoBacktick(t);
    RemoveFenceSkipsPlain(t, Fence, Fence);
    assert RemoveFence(Fence, Fence) == [] by {
      assert StartsWith(Fence, Fence) && Fence[|Fence|..] == [];
    }
    assert t + [] == t;
    assert RemoveFences(text) == t;
    SpanOfObjectText(s, "\n");
    assert t[0..|s|] == s;
    StripOfNewlineEnded(s);
  }

  lemma StripOfNewlineEnded(s: string)
    requires |s| >= 1 && !IsSpace(s[0]) && !IsSpace(s[|s| - 1])
    ensures Strip(s + "\n") == s
  {
    var t := s + "\n";
    assert LeadingSpaces(t) == 0;
    assert LStrip(t) == t;
    assert t[..|t| - 1] == s;
    assert TrailingSpaces(t) == 1;
  }

  // ----- process_policy_schedule / process_claim_document -----

  datatype DocumentKind = PolicySchedule | ClaimDocument

  /** What `call_gemini_api` hands back for the prompt built from the document kind and
      the extracted text: the first candidate's text, or the last error after every
      endpoint failed. */
  datatype LlmReply = Reply(text: string) | Failed(lastError: string)

  /** The model, the prompt wording and the network behind one abstract function. */
  type Llm = (DocumentKind, string) -> LlmReply

  const ApiErrorPrefix: string := "API Error: All API attempts failed. Last error: "
  const ParseErrorPrefix: string := "Could not parse JSON from response.\n\nRaw Response:\n"

  /** `process_policy_schedule` (kind `PolicySchedule`) and `process_claim_document` (kind
      `ClaimDocument`): `(data, error)`, exactly one of them present. Data is present only
      when the reply parses to a truthy value; a reply that parses to `{}`, `[]`, `0`, `""`,
      `null` or not at all gives the parse error, which carries the raw reply. */
  function ProcessDocument(kind: DocumentKind, extractedText: string, llm: Llm, parse: Parser)
    : (r: (Option<Json>, Option<string>))
    ensures r.0.Some? != r.1.Some?
    ensures r.0.Some? ==> Truthy(r.0.value) && llm(kind, extractedText).Reply?
                          && r.0 == ExtractJson(llm(kind, extractedText).text, parse)
    ensures llm(kind, extractedText).Failed? ==>
              r.1 == Some(ApiErrorPrefix + llm(kind, extractedText).lastError)
    ensures llm(kind, extractedText).Reply? && r.1.Some? ==>
              r.1 == Some(ParseErrorPrefix + llm(kind, extractedText).text)
    ensures llm(kind, extractedText).Reply? ==>
              var data := ExtractJson(llm(kind, extractedText).text, parse);
              data.Some? && Truthy(data.value) ==> r == (data, None)
  {
    match llm(kind, extractedText)
    case Failed(lastError) => (None, Some(ApiErrorPrefix + lastError))
    case Reply(text) =>
      var data := ExtractJson(text, parse);
      if data.Some? && Truthy(data.value) then (data, None)
      else (None, Some(ParseErrorPrefix + text))
  }

  /** An empty object is falsy, so a reply of `{}` is reported as unparseable. */
  lemma EmptyObjectIsRejected(kind: DocumentKind, extractedText: string, llm: Llm, parse: Parser)
    requires llm(kind, extractedText) == Reply("{}")
    requires parse("{}") == Some(JObject([]))
    ensures ProcessDocument(kind, extractedText, llm, parse) == (None, Some(ParseErrorPrefix + "{}"))
  {
    assert ObjectText("{}");
    FalsyReplyIsRejected(kind, extractedText, llm, parse, "{}");
  }

  /** A bare object reply that `json.loads` rejects or reads as falsy is reported as
      unparseable, with the reply in the message. */
  lemma FalsyReplyIsRejected(kind: DocumentKind, extractedText: string, llm: Llm, parse: Parser, s: string)
    requires ObjectText(s) && llm(kind, extractedText) == Reply(s)
    requires parse(s).None? || !Truthy(parse(s).value)
    ensures ProcessDocument(kind, extractedText, llm, parse) == (None, Some(ParseErrorPrefix + s))
  {
    ExtractBare(s, parse);
  }

  /** A well-formed fenced object reply whose object has members is returned as data. */
  lemma FencedReplyIsAccepted(kind: DocumentKind, extractedText: string, llm: Llm, parse: Parser, s: string)
    requires ObjectText(s) && llm(kind, extractedText) == Reply("```json\n" + s + "\n```")
    requires parse(s).Some? && Truthy(parse(s).value)
    ensures ProcessDocument(kind, extractedText, llm, parse) == (parse(s), None)
  {
    ExtractFenced(s, parse);
  }
}
