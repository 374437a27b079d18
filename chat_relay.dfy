/** One chat turn (`process_chat`): build the prompt, send it upstream,
    and extend the caller's history with the assistant's reply unless the
    upstream call reported an error. The upstream provider is a parameter:
    `send` maps a prompt to what the HTTP exchange produced. */
module ChatRelay {
  import opened Wrappers
  import opened PyJson
  import PyStr
  import PromptBuilder
  import ResponseExtractor

  const APOLOGY := "I'm sorry, I couldn't process your request at the moment. Please try again later."
  const ASSISTANT_TAG := "Assistant: "

  /** What the HTTP exchange with the provider produced: a 2xx response
      with its decoded JSON body, or a request exception with its text. A
      2xx body that is not JSON makes `response.json()` raise
      `requests.exceptions.JSONDecodeError` (requests 2.27 and later), a
      RequestException that the provider function catches, so it is a
      TransportFailed outcome too. */
  datatype Upstream = Delivered(body: Json) | TransportFailed(detail: string)

  /** The `(reply, error)` pair a provider call returns. */
  datatype Reply = Reply(text: Json, error: Option<string>)

  /** The result of `call_google_api` and `call_Yi_api`, which share it:
      on success the extracted reply and no error; on a request exception
      the fixed apology and the exception text. */
  function CallUpstream(outcome: Upstream): (r: Reply)
    ensures r.error.None? <==> outcome.Delivered?
    ensures outcome.Delivered? ==> r.text == ResponseExtractor.ExtractText(outcome.body)
    ensures outcome.TransportFailed? ==> r.text == JStr(APOLOGY) && r.error == Some(outcome.detail)
  {
    match outcome
    case Delivered(body) => Reply(ResponseExtractor.ExtractText(body), None)
    case TransportFailed(detail) => Reply(JStr(APOLOGY), Some(detail))
  }

  /** `if error:` on a value that is None or a string. */
  predicate ErrorIsTruthy(error: Option<string>)
    ensures ErrorIsTruthy(error) ==> error.Some?
    ensures error == Some("") ==> !ErrorIsTruthy(error)
  {
    error.Some? && |error.value| > 0
  }

  /** `process_chat`. The returned history is a new list: the caller's own
      history is a value here and is never changed. */
  method ProcessChat(userInput: string, role: string, history: Option<seq<string>>, send: string -> Upstream)
    returns (reply: Json, turns: seq<string>, error: Option<string>)
    ensures var h := PromptBuilder.HistoryOrEmpty(history);
      var outcome := send(PromptBuilder.GeneratePrompt(userInput, role, history).prompt);
      && (error.Some? <==> outcome.TransportFailed? && |outcome.detail| > 0)
      && (outcome.Delivered? ==> reply == ResponseExtractor.ExtractText(outcome.body))
      && (outcome.TransportFailed? ==> reply == JStr(APOLOGY))
      && (error.Some? ==> error == Some(outcome.detail) && turns == h + [PromptBuilder.USER_TAG + userInput])
      && (error.None? ==>
            turns == h + [PromptBuilder.USER_TAG + userInput, ASSISTANT_TAG + PyStr.Str(reply)])
      && |turns| == |h| + (if error.Some? then 1 else 2)
  {
    var built := PromptBuilder.GeneratePrompt(userInput, role, history);
    var answer := CallUpstream(send(built.prompt));
    turns := built.history;
    if ErrorIsTruthy(answer.error) {
      return answer.text, turns, answer.error;
    }
    turns := turns + [ASSISTANT_TAG + PyStr.Str(answer.text)];
    reply, error := answer.text, None;
  }
}
