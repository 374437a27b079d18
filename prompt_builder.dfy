/** Prompt assembly (`generate_prompt`): the persona, the conversation so
    far and the new user turn, one per line, followed by the cue for the
    assistant's answer. */
module PromptBuilder {
  import opened Wrappers
  import opened Text

  const USER_TAG := "User: "
  const ASSISTANT_CUE := "\nAssistant:"

  /** The prompt sent upstream and the history extended by the user turn. */
  datatype Built = Built(prompt: string, history: seq<string>)

  /** A missing history (`None`) counts as an empty one. */
  function HistoryOrEmpty(history: Option<seq<string>>): (h: seq<string>)
    ensures history.None? ==> h == []
    ensures history.Some? ==> h == history.value
  {
    match history
    case Some(h) => h
    case None => []
  }

  function GeneratePrompt(userInput: string, role: string, history: Option<seq<string>>): (r: Built)
    ensures var h := HistoryOrEmpty(history);
      |r.history| == |h| + 1 && r.history[..|h|] == h && r.history[|h|] == USER_TAG + userInput
    ensures |role| + 1 <= |r.prompt| && r.prompt[..|role| + 1] == role + "\n"
    ensures EndsWith(r.prompt, USER_TAG + userInput + ASSISTANT_CUE)
  {
    var turns := HistoryOrEmpty(history) + [USER_TAG + userInput];
    var prompt := role + "\n" + Join(turns, "\n") + ASSISTANT_CUE;
    JoinEndsWithLast(HistoryOrEmpty(history), USER_TAG + userInput, "\n");
    EndsWithWrap(role + "\n", Join(turns, "\n"), USER_TAG + userInput, ASSISTANT_CUE);
    assert prompt[..|role| + 1] == role + "\n";
    Built(prompt, turns)
  }

  /** The prompt lays out the persona, the earlier turns, the new user turn
      and the cue, separated by newlines; without earlier turns it is the
      persona, the user turn and the cue. */
  lemma PromptLayout(userInput: string, role: string, history: Option<seq<string>>)
    ensures var h := HistoryOrEmpty(history);
      var p := GeneratePrompt(userInput, role, history).prompt;
      (|h| == 0 ==> p == role + "\n" + USER_TAG + userInput + ASSISTANT_CUE) &&
      (|h| > 0 ==> p == role + "\n" + Join(h, "\n") + "\n" + USER_TAG + userInput + ASSISTANT_CUE)
  {
    var h := HistoryOrEmpty(history);
    if |h| == 0 {
      assert h + [USER_TAG + userInput] == [USER_TAG + userInput];
    } else {
      JoinSnoc(h, USER_TAG + userInput, "\n");
    }
  }

  /** A missing history and an empty one give the same prompt, and the new
      history is then just the user turn. */
  lemma MissingHistoryIsEmpty(userInput: string, role: string)
    ensures GeneratePrompt(userInput, role, None) == GeneratePrompt(userInput, role, Some([]))
    ensures GeneratePrompt(userInput, role, None).history == [USER_TAG + userInput]
  {
  }

  /** The turns can be read back from the prompt: between the persona line
      and the cue, splitting at newlines gives the new history, provided no
      turn holds a newline itself. */
  lemma TurnsReadBack(userInput: string, role: string, history: Option<seq<string>>)
    requires forall i :: 0 <= i < |HistoryOrEmpty(history)| ==> '\n' !in HistoryOrEmpty(history)[i]
    requires '\n' !in userInput
    ensures var r := GeneratePrompt(userInput, role, history);
      |role| + 1 + |ASSISTANT_CUE| <= |r.prompt| &&
      Split(r.prompt[|role| + 1..|r.prompt| - |ASSISTANT_CUE|], '\n') == r.history
  {
    var r := GeneratePrompt(userInput, role, history);
    var body := Join(r.history, "\n");
    assert r.prompt == role + "\n" + body + ASSISTANT_CUE;
    assert r.prompt[|role| + 1..|r.prompt| - |ASSISTANT_CUE|] == body;
    var h := HistoryOrEmpty(history);
    assert forall i :: 0 <= i < |r.history| ==> '\n' !in r.history[i] by {
      forall i | 0 <= i < |r.history|
        ensures '\n' !in r.history[i]
      {
        if i < |h| {
          assert r.history[i] == h[i];
        } else {
          assert r.history[i] == USER_TAG + userInput;
        }
      }
    }
    SplitJoin(r.history, '\n');
  }
}
