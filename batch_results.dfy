/**
 * The records of a batch output file, and the two ways the source digs the
 * completion text out of one: leniently with defaults in the bot, strictly by
 * indexing in the notebook helpers. `None` fields are absent keys.
 */
module BatchResults {
  import opened Wrappers

  const NoContent := "No content available"

  datatype ChoiceMessage = ChoiceMessage(content: Option<string>)
  datatype Choice = Choice(message: Option<ChoiceMessage>)
  datatype ResponseBody = ResponseBody(choices: Option<seq<Choice>>)
  datatype Response = Response(body: Option<ResponseBody>)
  datatype ResultRecord = ResultRecord(customId: Option<string>, response: Option<Response>)

  /** The `choices` list as the bot sees it: `[{}]` when the response, its body or the key is absent. */
  function ChoicesOrDefault(r: ResultRecord): seq<Choice> {
    match r.response
    case None => [Choice(None)]
    case Some(resp) =>
      match resp.body
      case None => [Choice(None)]
      case Some(body) => body.choices.GetOr([Choice(None)])
  }

  /**
   * The bot's chain of `.get` calls with defaults. `None` is the one failure
   * it has: indexing an empty `choices` list raises.
   */
  function LenientContent(r: ResultRecord): Option<string> {
    var choices := ChoicesOrDefault(r);
    if choices == [] then None
    else
      match choices[0].message
      case None => Some(NoContent)
      case Some(m) => Some(m.content.GetOr(NoContent))
  }

  /**
   * The notebook helper's `res['response']['body']['choices'][0]['message']['content']`:
   * `None` when any key is absent or `choices` is empty (the lookup raises).
   */
  function StrictContent(r: ResultRecord): Option<string> {
    match r.response
    case None => None
    case Some(resp) =>
      match resp.body
      case None => None
      case Some(body) =>
        match body.choices
        case None => None
        case Some(choices) =>
          if choices == [] then None
          else
            match choices[0].message
            case None => None
            case Some(m) => m.content
  }

  /**
   * The two extractions agree wherever the strict one succeeds; where it
   * fails, the bot either fails too (an empty `choices` list) or falls back
   * to "No content available".
   */
  lemma LenientExtendsStrict(r: ResultRecord)
    ensures StrictContent(r).Some? ==> LenientContent(r) == StrictContent(r)
    ensures StrictContent(r).None? ==>
              LenientContent(r) == None || LenientContent(r) == Some(NoContent)
    ensures LenientContent(r).None? <==> ChoicesOrDefault(r) == []
  {
  }
}
