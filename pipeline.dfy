/**
 * The decision skeleton of `generate_json_from_pdf`. The chat-completion
 * call is the parameter `complete`: given the user prompt it yields the
 * reply's content, or `None` when the call or reading its content raises, or
 * when the content is `None` so that `.strip()` raises `AttributeError` (the
 * outer `except Exception` turns each of these into `None`). `json.loads` is the
 * parameter `parse`: `None` stands for a `JSONDecodeError`.
 */
module Pipeline {
  import opened Wrappers
  import opened JsonExtract
  import opened PyStrip
  import opened Prompt

  /** Stripping the reply never changes which JSON candidate is extracted. */
  lemma StripKeepsExtraction(reply: string)
    ensures ExtractJson(Strip(reply)) == ExtractJson(reply)
  {
    var pre, post := StripParts(reply);
    assert '{' !in pre && '}' !in pre by {
      assert forall k :: 0 <= k < |pre| ==> IsSpace(pre[k]);
    }
    assert '{' !in post && '}' !in post by {
      assert forall k :: 0 <= k < |post| ==> IsSpace(post[k]);
    }
    ExtractIgnoresBraceFreeContext(pre, Strip(reply), post);
  }

  /**
   * The part of `generate_json_from_pdf` after the completion call: strip the
   * reply, cut out the JSON candidate and parse it; every failure gives `None`.
   * A failed call gives `None`; a reply without a candidate gives `None`;
   * otherwise the result is whatever parsing the reply's candidate gives.
   */
  function HandleReply<J>(reply: Option<string>, parse: string -> Option<J>): (r: Option<J>)
    ensures reply.None? ==> r.None?
    ensures reply.Some? && ExtractJson(reply.value).None? ==> r.None?
    ensures reply.Some? && ExtractJson(reply.value).Some? ==> r == parse(ExtractJson(reply.value).value)
  {
    match reply
    case None => None
    case Some(content) =>
      var jsonContent := Strip(content);
      StripKeepsExtraction(content);
      match ExtractJson(jsonContent)
      case None => None
      case Some(jsonString) => parse(jsonString)
  }

  /**
   * `generate_json_from_pdf`: ask the model with the prompt built from the PDF
   * text, then handle its reply. A failed call gives `None`; a reply without
   * a candidate gives `None`; otherwise the result is the parse of the
   * reply's candidate.
   */
  function GenerateJsonFromPdf<J>(
    pdfContent: string,
    complete: string -> Option<string>,
    parse: string -> Option<J>
  ): (r: Option<J>)
    ensures complete(BuildPrompt(pdfContent)).None? ==> r.None?
    ensures var reply := complete(BuildPrompt(pdfContent));
      reply.Some? && ExtractJson(reply.value).None? ==> r.None?
    ensures var reply := complete(BuildPrompt(pdfContent));
      reply.Some? && ExtractJson(reply.value).Some? ==> r == parse(ExtractJson(reply.value).value)
  {
    HandleReply(complete(BuildPrompt(pdfContent)), parse)
  }

  /**
   * When the reply has no `}` after a `{` the parser is never consulted: the
   * result is `None` whatever `json.loads` would have done.
   */
  lemma NoCandidateNoParse<J>(reply: string, parse: string -> Option<J>)
    requires !HasBracePair(reply)
    ensures HandleReply(Some(reply), parse) == None
  {
    ExtractNoneIff(reply);
  }

  /**
   * The parser is consulted on one string only, the extracted candidate:
   * two parsers that agree on it give the same result.
   */
  lemma ParsesOnlyTheCandidate<J>(reply: string, parse1: string -> Option<J>, parse2: string -> Option<J>)
    requires ExtractJson(reply).Some? ==> parse1(ExtractJson(reply).value) == parse2(ExtractJson(reply).value)
    ensures HandleReply(Some(reply), parse1) == HandleReply(Some(reply), parse2)
  {
  }

  /**
   * A result is only ever produced by parsing a piece of the model's reply that
   * runs from its first `{` to its last `}`.
   */
  lemma ResultComesFromReplySlice<J>(reply: string, parse: string -> Option<J>)
    ensures HandleReply(Some(reply), parse).Some? ==> exists pre, candidate, post ::
      reply == pre + candidate + post &&
      '{' !in pre && '}' !in post && |candidate| >= 2 &&
      candidate[0] == '{' && candidate[|candidate| - 1] == '}' &&
      HandleReply(Some(reply), parse) == parse(candidate)
  {
    if ExtractJson(reply).Some? {
      ExtractIsSlice(reply);
    }
  }
}
