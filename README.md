# Chat relay to an LLM provider — a Dafny model of its core

The relay takes a user message, a persona ("role") and the conversation so
far, builds one text prompt from them, sends it to an LLM provider (Gemini
or Yi), takes the reply text out of the provider's JSON answer, and returns
it with the conversation extended by the new turns. This project models the
three pieces of logic in `main.py` that carry behaviour:

- **Prompt assembly** (`generate_prompt`) — module `PromptBuilder`. A
  missing history counts as empty. A copy of it gets the turn
  `"User: " + message`. The prompt is the persona, a newline, the turns
  joined by newlines, then `"\nAssistant:"`.
- **Response extraction** (`extract_text`) — module `ResponseExtractor`,
  over the decoded JSON value of module `PyJson`. It tries
  `candidates[0].content.parts[0].text` first and then
  `choices[0].message.content`. It has three fixed fallback texts, and it
  turns any exception raised on the way into `"Something went wrong: " + str(e)`.
  `PyJson` gives the Python meaning of the operations involved:
  - truthiness;
  - `dict.get(key, default)`, which returns the default only when the key
    is absent, keeps the last binding of a duplicated key, and raises on
    anything that is not a dict;
  - `[0]` on lists, strings, dicts and scalars.

  The exception texts are CPython's.
- **Chat turn** (`process_chat`) — module `ChatRelay`. The provider call is
  a parameter `send` that maps a prompt to what the HTTP exchange produced.
  `CallUpstream` gives the `(reply, error)` pair both provider functions
  return. The turn is an imperative method that appends to its fresh
  history list. On an error it returns the apology, the history with only
  the user turn, and the error. Otherwise it appends
  `"Assistant: " + str(reply)` and returns no error. `if error:` is Python
  truthiness, so an empty error text takes the success path.

Supporting modules: `Wrappers` (Option, Result), `Text` (`sep.join`, its
inverse `split`, `str(int)`), and `PyStr` (`str`/`repr` of a decoded
value). `str` is needed because the reply found under `text` or `content`
need not be a string, and `f"Assistant: {reply}"` formats it with `str`.

Two behaviours of the code that its fallback texts might suggest otherwise
(the model follows the code):
- An empty `candidates` list does not give a clarification text. It is
  falsy, so extraction falls through to `choices`.
- Empty `parts` give "I'm having trouble finding the right words. Please
  try again.", not the clarification text. The clarification text is used
  only when the `text` or `content` key is missing.

## Model

| member | source | states |
|---|---|---|
| PyJson.Truthy | main.py:61 | `if v:` on a decoded value: None is falsy, and a dict is truthy exactly when some key is bound in it |
| PyJson.Member | main.py:60-73 | `d.get(key, default)` on a dict: the default when no member has the key, otherwise the value of the last member with that key |
| PyJson.Lookup | main.py:60-73 | looking a key up in a decoded dict finds nothing exactly when no member has that key, and otherwise finds the value of the last member with that key |
| PyJson.Get | main.py:60-73 | `v.get(key, default)` succeeds exactly on dicts; it gives the default only when the key is absent and the last binding when present; on a non-dict it raises AttributeError `'<type>' object has no attribute 'get'` |
| PyJson.Index0 | main.py:62-72 | `v[0]` succeeds exactly on truthy lists and strings, giving the first element (a one-character string for a string); everything else raises |
| Text.JoinSnoc | main.py:90 | joining one more turn appends the separator and that turn to the joined text |
| Text.JoinEndsWithLast | main.py:90 | a joined list of turns ends with its last turn |
| Text.SplitJoin | main.py:90 | splitting the joined turns at newlines gives the turns back when no turn contains a newline |
| Text.NatDigits | main.py:152 | check of the model of Python's builtin `str` on integers: `str(n)` of a natural number is a non-empty string of decimal digits, with a leading zero only for 0 |
| Text.NatDigitsRoundTrip | main.py:152 | check of the model of Python's builtin `str` on integers: the decimal digits of a natural number read back as that number |
| Text.DecimalRoundTrip | main.py:152 | check of the model of Python's builtin `str` on integers: `str(n)` of a negative integer is `-` followed by the digits of `-n`, and every integer's text reads back as the integer |
| PyStr.StrRepr | main.py:152 | check of the model of Python's builtin `repr` on strings: `repr` of a string is enclosed in the quote character Python picks: double quotes only when the text has a single quote and no double quote |
| PyStr.StrReprRoundTrip | main.py:152 | check of the model of Python's builtin `repr` on strings: the escapes inside a string's `repr` read back as the original text, so `repr` loses nothing |
| PyStr.PlainStrRepr | main.py:152 | check of the model of Python's builtin `repr` on strings: text made only of printable ASCII characters other than the single quote and the backslash is printed as itself between single quotes |
| PyStr.DistinctKeys | main.py:152 | the keys a decoded dict shows are exactly the keys of its members, each once, in the order in which each key first occurs (dict iteration order) |
| PyStr.FirstIndexOfPrefix | main.py:152 | a key already bound before the last member is first bound at the same place with or without that member, so appending a member never moves an earlier key |
| PyStr.Repr | main.py:152 | `repr(v)`: None prints as `None`; the text between a string's quotes reads back as the string; a list prints between `[` and `]` and a dict between `{` and `}` |
| PyStr.DictEntries | main.py:152 | a dict's `repr` shows one entry per listed key, in order: entry `i` is `repr` of key `i`, `": "`, and `repr` of the value that key is last bound to |
| PyStr.DictStr | main.py:152 | `str` of a dict is its shown entries joined by `", "` between braces |
| PyStr.Str | main.py:152 | `str(reply)` in `f"Assistant: {reply}"`: a string is itself, `True`/`False` for booleans, the decimal text of an integer, and `repr` for everything else |
| PyStr.DuplicateKeyOrder | main.py:152 | for `{"a": 1, "b": 2, "a": 3}` the keys are `a`, `b` in that order, and `a` is last bound by its second member |
| PyStr.DuplicateKeyEntries | main.py:152 | for `{"a": 1, "b": 2, "a": 3}` the shown entries are `'a': 3` and `'b': 2` |
| PyStr.DuplicateKeyShown | main.py:152 | the entries shown for `{"a": 1, "b": 2, "a": 3}`, in dict order, are `'a': 3` then `'b': 2` |
| PyStr.DuplicateKeyRepr | main.py:152 | `str` of the dict decoded from `{"a": 1, "b": 2, "a": 3}` is `{'a': 3, 'b': 2}`: first-occurrence order, last value |
| PyStr.ReprShowsLookup | main.py:152 | for each key, `repr` of a dict shows the value that `get` returns, the value of the last binding |
| PromptBuilder.HistoryOrEmpty | main.py:87-88 | `if history is None: history = []`: a missing history is empty, a given one is used as it is |
| PromptBuilder.GeneratePrompt | main.py:83-92 | the new history has one more turn than the old one; the old turns are its prefix and `"User: " + input` is its last turn; the prompt starts with `role + "\n"` and ends with `"User: " + input + "\nAssistant:"` |
| PromptBuilder.PromptLayout | main.py:90 | the prompt is the persona, the earlier turns, the user turn and the cue, newline-separated; with no earlier turns it is `role + "\nUser: " + input + "\nAssistant:"` |
| PromptBuilder.MissingHistoryIsEmpty | main.py:87-89 | a missing history gives the same result as an empty one, and the new history is exactly `["User: " + input]` |
| PromptBuilder.TurnsReadBack | main.py:89-90 | between the persona line and the cue, splitting the prompt at newlines gives the new history back, when no turn holds a newline |
| ResponseExtractor.ExtractBody | main.py:59-76 | the `try` block succeeds only on a JSON object, and a raised exception always carries a non-empty text |
| ResponseExtractor.ExtractText | main.py:55-80 | `extract_text` never raises: it returns what the `try` block produced, or `"Something went wrong: "` followed by exactly the exception text |
| ResponseExtractor.FromCandidates | main.py:62-68 | the Gemini block of the `try`: an exception it raises always carries a non-empty text |
| ResponseExtractor.FromChoices | main.py:70-76 | the chat-completions block of the `try`: an exception it raises always carries a non-empty text |
| ResponseExtractor.CandidatesReplyFromBody | main.py:62-68 | a reply the Gemini block finds is the clarification text, the "trouble finding the right words" text, or a value bound to `text` somewhere inside the candidates |
| ResponseExtractor.ChoicesReplyFromBody | main.py:70-76 | a reply the chat-completions block finds is the clarification text, the "couldn't generate" text, or a value bound to `content` somewhere inside the choices |
| ResponseExtractor.GeminiReply | main.py:60-66 | with a non-empty candidate list and non-empty parts, the reply is `parts[0]["text"]`, or the clarification text when that key is missing |
| ResponseExtractor.GeminiWithoutParts | main.py:61-68 | with a non-empty candidate list and falsy or missing parts, the reply is the "trouble finding the right words" text, whatever `choices` holds |
| ResponseExtractor.CandidatesTakePriority | main.py:60-70 | when `candidates` is truthy, adding or replacing `choices` never changes the reply |
| ResponseExtractor.ChoicesReply | main.py:70-74 | with falsy or missing candidates and a non-empty `choices` list, the reply is `choices[0]["message"]["content"]`, or the clarification text when that key is missing |
| ResponseExtractor.EmptyCandidatesFallThrough | main.py:60-71 | an empty candidate list gives the same reply as a falsy one: extraction falls through to `choices` |
| ResponseExtractor.NoReply | main.py:70-76 | with both `candidates` and `choices` falsy or missing, the reply is the "couldn't generate a response" text |
| ResponseExtractor.NonObjectBody | main.py:59-80 | a body that is not a JSON object gives `"Something went wrong: '<type>' object has no attribute 'get'"` |
| ResponseExtractor.NullContent | main.py:62-80 | a `content` key present with value null is not replaced by the default; the reply is the "Something went wrong" report of the AttributeError on None |
| ResponseExtractor.UnindexableCandidates | main.py:61-80 | truthy candidates that are neither a list nor a string make `[0]` raise, and the reply is the "Something went wrong" report of that error |
| ResponseExtractor.ReplyComesFromBody | main.py:55-80 | for every body, the reply is one of the three fallback texts, a "Something went wrong" report, or a value the body itself binds to a `text` or `content` key: no exception escapes, and no reply is invented |
| ResponseExtractor.GeminiExample | main.py:60-66 | the Gemini body with `parts[0].text` "Paris is lovely" gives "Paris is lovely" |
| ResponseExtractor.EmptyPartsExample | main.py:60-68 | a candidate whose `parts` is empty gives the "trouble finding the right words" text |
| ResponseExtractor.ChoicesExample | main.py:70-74 | the chat-completions body with `message.content` "Hello" gives "Hello" |
| ResponseExtractor.EmptyObjectExample | main.py:70-76 | `{}` gives the "couldn't generate a response" text |
| ChatRelay.CallUpstream | main.py:128-135 | a delivered body gives the extracted reply and no error; a request exception gives the fixed apology and the exception text as the error |
| ChatRelay.ErrorIsTruthy | main.py:148 | `if error:` holds only for a present error, and never for an empty error text |
| ChatRelay.ProcessChat | main.py:138-154 | there is an error exactly when the transport failed with a non-empty error text; then the result is the apology, the old history plus the user turn, and the error; otherwise the history gains the user turn and `"Assistant: " + str(reply)`, so it is two turns longer, and the reply is the extracted text (or the apology, for an empty error text) |

## Left out

- The Flask application: the `/chat` and `/` routes, reading `request.json`, `jsonify`, and the 500/200 choice (main.py:157-183). That choice is one branch on the error that `ChatRelay.ProcessChat` returns.
- The HTTP exchange: `requests.post`, URLs, headers, payload serialisation, `raise_for_status` and the `temperature` value (main.py:99-106, main.py:117-130). The `Upstream` value passed in by `send` stands for what the exchange produced. A 2xx body that is not JSON makes `response.json()` raise `requests.exceptions.JSONDecodeError` (requests 2.27 and later). That is a `RequestException`, caught at main.py:133, so it is a `TransportFailed` outcome. Older versions of requests raise a plain `ValueError` there, which is not caught; the model does not cover that case.
- Loading environment variables, the startup `ValueError` for missing API keys, and logging setup (main.py:16-42). All `logging` calls are left out too. They are configuration and side effects with no effect on results.
- The commented-out choice between the two providers (main.py:144-146). Both provider functions return the same `(reply, error)` shape. `ChatRelay.CallUpstream` models that shape once, including the Google variant at main.py:103-110.
- JSON numbers with a fraction or exponent, which decode to Python floats. `PyJson.Json` has integers only, and the `str` of a float is not modelled.
- Lone surrogates: a JSON escape such as `\ud800` with no partner decodes to a Python string that holds the surrogate, but a Dafny `char` cannot hold one, so such strings are not modelled.
- PyStr.StrRepr: non-ASCII characters are written as themselves. CPython escapes the non-printable ones as `\x`, `\u` or `\U`, and the model does not.
- Values of the wrong type in the request. A non-string message or persona does not fail: `f"User: {user_input}"` (main.py:89) and `f"{role}\n"` (main.py:90) format any value with `str`, giving for example `"User: 5"` or `"User: None"`. The model's string parameters stand for `str(message)` and `str(role)`. A history that is not a list raises TypeError at `history + [...]` (main.py:89). A list holding a non-string raises TypeError in `"\n".join` (main.py:90). Both happen outside the handling modelled here, and the model types the history as a list of strings.
- Exceptions other than the AttributeError, IndexError, KeyError and TypeError that the extraction steps raise (for example, running out of memory). `extract_text` would report them the same way, but their texts are not modelled.
