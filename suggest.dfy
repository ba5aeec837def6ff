/**
 * The request `suggest_task` sends to the text-generation service: a fixed
 * sentence around the category the user typed, "General" when the dialog is
 * cancelled or left empty.
 */
module Suggest {
  import opened Wrappers
  import opened TaskStore

  const PromptPrefix := "Suggest a productive task for improving "
  const PromptSuffix := " productivity."

  /** The prompt for the category dialog's answer `answer`. */
  function SuggestionPrompt(answer: Option<string>): (r: string)
    ensures |r| == |PromptPrefix| + |CategoryOr(answer)| + |PromptSuffix|
    ensures r[..|PromptPrefix|] == PromptPrefix
    ensures r[|r| - |PromptSuffix|..] == PromptSuffix
    ensures r[|PromptPrefix|..|r| - |PromptSuffix|] == CategoryOr(answer)
  {
    PromptPrefix + CategoryOr(answer) + PromptSuffix
  }
}
