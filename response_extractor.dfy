/** Response extraction (`extract_text`): the reply text taken from the
    upstream JSON body, trying the Gemini shape
    `candidates[0].content.parts[0].text` first and the chat-completions
    shape `choices[0].message.content` second, with fixed fallback texts,
    and any exception raised on the way turned into a
    "Something went wrong" text. */
module ResponseExtractor {
  import opened Wrappers
  import opened PyJson

  const CLARIFY := "I'm not sure how to respond to that. Could you clarify?"
  const NO_PARTS := "I'm having trouble finding the right words. Please try again."
  const NO_RESPONSE := "I'm sorry, but I couldn't generate a response at the moment."
  const WENT_WRONG := "Something went wrong: "

  /** The body of the `try` block: a value, or the text of the exception
      one of its steps raised. */
  function ExtractBody(data: Json): (r: Result<Json, string>)
    ensures r.Success? ==> data.JObj?
    ensures r.Failure? ==> |r.error| > 0
  {
    var candidates :- Get(data, "candidates", JArr([]));
    if Truthy(candidates) then FromCandidates(candidates)
    else FromChoices(Get(data, "choices", JArr([])).value)
  }

  /** The Gemini block, for a truthy `candidates`. */
  function FromCandidates(candidates: Json): (r: Result<Json, string>)
    ensures r.Failure? ==> |r.error| > 0
  {
    var first :- Index0(candidates);
    var content :- Get(first, "content", JObj([]));
    var parts :- Get(content, "parts", JArr([]));
    if Truthy(parts) then
      var part :- Index0(parts);
      Get(part, "text", JStr(CLARIFY))
    else
      Success(JStr(NO_PARTS))
  }

  /** The chat-completions block, reached when `candidates` is falsy. */
  function FromChoices(choices: Json): (r: Result<Json, string>)
    ensures r.Failure? ==> |r.error| > 0
  {
    if Truthy(choices) then
      var choice :- Index0(choices);
      var message :- Get(choice, "message", JObj([]));
      Get(message, "content", JStr(CLARIFY))
    else
      Success(JStr(NO_RESPONSE))
  }

  /** `extract_text`: never raises; an exception becomes a text. */
  function ExtractText(data: Json): (r: Json)
    ensures ExtractBody(data).Success? ==> r == ExtractBody(data).value
    ensures ExtractBody(data).Failure? ==>
      r.JStr? && WENT_WRONG <= r.s && r.s[|WENT_WRONG|..] == ExtractBody(data).error
  {
    match ExtractBody(data)
    case Success(v) => v
    case Failure(msg) => JStr(WENT_WRONG + msg)
  }

  /** Gemini shape: with a non-empty candidate list whose first candidate
      has non-empty parts, the reply is the first part's `text`, or the
      clarification text when that key is missing. A missing `content`
      counts as an empty dict. */
  lemma GeminiReply(doc: seq<(string, Json)>, cands: seq<Json>, first: seq<(string, Json)>,
                    content: seq<(string, Json)>, parts: seq<Json>, part: seq<(string, Json)>)
    requires Lookup(doc, "candidates") == Some(JArr(cands)) && |cands| > 0 && cands[0] == JObj(first)
    requires Member(first, "content", JObj([])) == JObj(content)
    requires Lookup(content, "parts") == Some(JArr(parts)) && |parts| > 0 && parts[0] == JObj(part)
    ensures ExtractText(JObj(doc)) == Member(part, "text", JStr(CLARIFY))
  {
  }

  /** Gemini shape without parts: once the candidate list is non-empty, a
      falsy or missing `parts` gives the "trouble finding the right words"
      text, whatever `choices` holds. */
  lemma GeminiWithoutParts(doc: seq<(string, Json)>, cands: seq<Json>, first: seq<(string, Json)>,
                           content: seq<(string, Json)>)
    requires Lookup(doc, "candidates") == Some(JArr(cands)) && |cands| > 0 && cands[0] == JObj(first)
    requires Member(first, "content", JObj([])) == JObj(content)
    requires !Truthy(Member(content, "parts", JArr([])))
    ensures ExtractText(JObj(doc)) == JStr(NO_PARTS)
  {
  }

  /** Candidates take priority: when `candidates` is truthy, adding or
      replacing `choices` never changes the reply. */
  lemma CandidatesTakePriority(doc: seq<(string, Json)>, choices: Json)
    requires Truthy(Member(doc, "candidates", JArr([])))
    ensures ExtractText(JObj(doc + [("choices", choices)])) == ExtractText(JObj(doc))
  {
  }

  /** Chat-completions shape: with falsy or missing `candidates` and a
      non-empty `choices` list, the reply is the first choice's
      `message.content`, or the clarification text when that key is
      missing. A missing `message` counts as an empty dict. */
  lemma ChoicesReply(doc: seq<(string, Json)>, choices: seq<Json>, first: seq<(string, Json)>,
                     message: seq<(string, Json)>)
    requires !Truthy(Member(doc, "candidates", JArr([])))
    requires Lookup(doc, "choices") == Some(JArr(choices)) && |choices| > 0 && choices[0] == JObj(first)
    requires Member(first, "message", JObj([])) == JObj(message)
    ensures ExtractText(JObj(doc)) == Member(message, "content", JStr(CLARIFY))
  {
  }

  /** An empty candidate list falls through to `choices`: it behaves as if
      `candidates` were missing. */
  lemma EmptyCandidatesFallThrough(doc: seq<(string, Json)>)
    requires Lookup(doc, "candidates") == Some(JArr([]))
    ensures ExtractText(JObj(doc)) == ExtractText(JObj(doc + [("candidates", JNull)]))
  {
    var nulled := doc + [("candidates", JNull)];
    assert nulled[..|nulled| - 1] == doc;
    assert Lookup(nulled, "choices") == Lookup(doc, "choices");
    assert Get(JObj(nulled), "choices", JArr([])) == Get(JObj(doc), "choices", JArr([]));
  }

  /** Neither shape: with both `candidates` and `choices` falsy or missing,
      the reply is the "couldn't generate a response" text. */
  lemma NoReply(doc: seq<(string, Json)>)
    requires !Truthy(Member(doc, "candidates", JArr([])))
    requires !Truthy(Member(doc, "choices", JArr([])))
    ensures ExtractText(JObj(doc)) == JStr(NO_RESPONSE)
  {
  }

  /** A body that is not a JSON object has no `get`: the AttributeError is
      caught and reported. */
  lemma NonObjectBody(data: Json)
    requires !data.JObj?
    ensures ExtractText(data) == JStr(WENT_WRONG + ("'" + TypeName(data) + "' object has no attribute 'get'"))
  {
  }

  /** A `content` key present with value null is not replaced by the
      default: `.get` on None raises, and the error is reported. */
  lemma NullContent(doc: seq<(string, Json)>, cands: seq<Json>, first: seq<(string, Json)>)
    requires Lookup(doc, "candidates") == Some(JArr(cands)) && |cands| > 0 && cands[0] == JObj(first)
    requires Lookup(first, "content") == Some(JNull)
    ensures ExtractText(JObj(doc)) == JStr(WENT_WRONG + ("'" + TypeName(JNull) + "' object has no attribute 'get'"))
  {
    assert Get(JObj(first), "content", JObj([])) == Success(JNull);
    assert ExtractBody(JObj(doc)) == Get(JNull, "parts", JArr([]));
  }

  /** Truthy `candidates` that cannot be indexed with `[0]` (a dict, a
      number, true) raise, and the error is reported. */
  lemma UnindexableCandidates(doc: seq<(string, Json)>)
    requires Truthy(Member(doc, "candidates", JArr([])))
    requires !Member(doc, "candidates", JArr([])).JArr? && !Member(doc, "candidates", JArr([])).JStr?
    ensures ExtractText(JObj(doc)) == JStr(WENT_WRONG + Index0(Member(doc, "candidates", JArr([]))).error)
  {
  }

  /** A reply the Gemini block finds is the clarification text, the "no
      parts" text, or a value bound to `text` inside the candidates. */
  lemma {:induction false} CandidatesReplyFromBody(candidates: Json)
    requires FromCandidates(candidates).Success?
    ensures var r := FromCandidates(candidates).value;
      r == JStr(CLARIFY) || r == JStr(NO_PARTS) || Holds(candidates, "text", r)
  {
    var r := FromCandidates(candidates).value;
    var first := Index0(candidates).value;
    var content := Get(first, "content", JObj([])).value;
    var parts := Get(content, "parts", JArr([])).value;
    if !Truthy(parts) {
      return;
    }
    var part := Index0(parts).value;
    if Absent(part.fields, "text") {
      return;
    }
    var i :| 0 <= i < |part.fields| && part.fields[i] == ("text", r) &&
      forall j :: i < j < |part.fields| ==> part.fields[j].0 != "text";
    assert Holds(part, "text", r);
    HoldsThroughIndex0(parts, "text", r);
    HoldsThroughMember(content.fields, "parts", JArr([]), "text", r);
    HoldsThroughMember(first.fields, "content", JObj([]), "text", r);
    HoldsThroughIndex0(candidates, "text", r);
  }

  /** A reply the chat-completions block finds is the clarification text,
      the "couldn't generate" text, or a value bound to `content` inside
      the choices. */
  lemma {:induction false} ChoicesReplyFromBody(choices: Json)
    requires FromChoices(choices).Success?
    ensures var r := FromChoices(choices).value;
      r == JStr(CLARIFY) || r == JStr(NO_RESPONSE) || Holds(choices, "content", r)
  {
    var r := FromChoices(choices).value;
    if !Truthy(choices) {
      return;
    }
    var choice := Index0(choices).value;
    var message := Get(choice, "message", JObj([])).value;
    if Absent(message.fields, "content") {
      return;
    }
    var i :| 0 <= i < |message.fields| && message.fields[i] == ("content", r) &&
      forall j :: i < j < |message.fields| ==> message.fields[j].0 != "content";
    assert Holds(message, "content", r);
    HoldsThroughMember(choice.fields, "message", JObj([]), "content", r);
    HoldsThroughIndex0(choices, "content", r);
  }

  /** Whatever the body, the reply is one of the three fixed fallback texts,
      a "Something went wrong" report, or a value that the body itself holds
      under a `text` or `content` key: the extractor never invents a reply. */
  lemma {:induction false} ReplyComesFromBody(data: Json)
    ensures var r := ExtractText(data);
      r == JStr(CLARIFY) || r == JStr(NO_PARTS) || r == JStr(NO_RESPONSE) ||
      (r.JStr? && WENT_WRONG <= r.s) ||
      Holds(data, "text", r) || Holds(data, "content", r)
  {
    var r := ExtractText(data);
    if ExtractBody(data).Failure? {
      assert r.s == WENT_WRONG + ExtractBody(data).error;
      return;
    }
    var doc := data.fields;
    var candidates := Member(doc, "candidates", JArr([]));
    if Truthy(candidates) {
      CandidatesReplyFromBody(candidates);
      if Holds(candidates, "text", r) {
        HoldsThroughMember(doc, "candidates", JArr([]), "text", r);
      }
    } else {
      var choices := Member(doc, "choices", JArr([]));
      ChoicesReplyFromBody(choices);
      if Holds(choices, "content", r) {
        HoldsThroughMember(doc, "choices", JArr([]), "content", r);
      }
    }
  }

  /** The documented Gemini example gives its text. */
  lemma GeminiExample()
    ensures ExtractText(JObj([("candidates", JArr([JObj([("content",
              JObj([("parts", JArr([JObj([("text", JStr("Paris is lovely"))])]))]))])]))]))
            == JStr("Paris is lovely")
  {
    var part := [("text", JStr("Paris is lovely"))];
    var content := [("parts", JArr([JObj(part)]))];
    var first := [("content", JObj(content))];
    GeminiReply([("candidates", JArr([JObj(first)]))], [JObj(first)], first, content, [JObj(part)], part);
  }

  /** The documented example with empty parts gives the "trouble" text. */
  lemma EmptyPartsExample()
    ensures ExtractText(JObj([("candidates", JArr([JObj([("content",
              JObj([("parts", JArr([]))]))])]))])) == JStr(NO_PARTS)
  {
    var first := [("content", JObj([("parts", JArr([]))]))];
    GeminiWithoutParts([("candidates", JArr([JObj(first)]))], [JObj(first)], first, [("parts", JArr([]))]);
  }

  /** The documented chat-completions example gives its content. */
  lemma ChoicesExample()
    ensures ExtractText(JObj([("choices", JArr([JObj([("message",
              JObj([("content", JStr("Hello"))]))])]))])) == JStr("Hello")
  {
    var message := [("content", JStr("Hello"))];
    var choice := [("message", JObj(message))];
    ChoicesReply([("choices", JArr([JObj(choice)]))], [JObj(choice)], choice, message);
  }

  /** The empty object gives the "couldn't generate" text. */
  lemma EmptyObjectExample()
    ensures ExtractText(JObj([])) == JStr(NO_RESPONSE)
  {
    NoReply([]);
  }
}
