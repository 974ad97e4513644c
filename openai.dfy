/** The stricter suggestion test of json_openai.py: a key phrase (without
    "let me know") as whole words in a last line that ends with '?', and no
    phrase-only fallback. Its `extract_text` is the shared `LastText`. */
module OpenAiSuggestions {
  import opened Text
  import opened Options
  import opened JsonValue
  import opened LastText
  import Suggestions

  const StrictPhrases: seq<string> := [
    "would you like", "should i", "do you want", "want me to", "shall i",
    "do you want me to", "would you like me to"
  ]

  /** `extract_suggestion(node)` */
  function ExtractSuggestion(node: Json): string {
    StrictSuggestionIn(ExtractText(node))
  }

  function StrictSuggestionIn(text: string): string {
    if text == "" then ""
    else
      var last := LastLine(text);
      if last.None? then ""
      else if QuestionMatch(last.value, StrictPhrases) then last.value
      else ""
  }

  /** The result is "" or the text's last non-blank line, and it is that line
      exactly when the line is a phrase question; so it ends with '?'. */
  lemma StrictIsLastLine(text: string)
    ensures StrictSuggestionIn(text) == "" || LastLine(text) == Some(StrictSuggestionIn(text))
    ensures StrictSuggestionIn(text) != "" <==> LastLine(text).Some? && QuestionMatch(LastLine(text).value, StrictPhrases)
    ensures StrictSuggestionIn(text) == "" || StrictSuggestionIn(text)[|StrictSuggestionIn(text)| - 1] == '?'
  {
    if text == "" {
      assert SplitLines(text) == [];
    }
  }

  /** Every strict phrase is a lenient one. */
  lemma StrictPhrasesIncluded(line: string)
    requires QuestionMatch(line, StrictPhrases)
    ensures QuestionMatch(line, Suggestions.Phrases)
  {
    var p, i :| 0 <= p < |StrictPhrases| && 0 <= i <= |line| && PhraseAt(line, StrictPhrases[p], i);
    assert StrictPhrases[p] == Suggestions.Phrases[p];
  }

  /** Whatever the strict test accepts the lenient one accepts too, with the
      same line. */
  lemma StrictImpliesLenient(node: Json)
    ensures ExtractSuggestion(node) != "" ==> Suggestions.ExtractSuggestion(node) == ExtractSuggestion(node)
  {
    var text := ExtractText(node);
    if StrictSuggestionIn(text) != "" {
      StrictPhrasesIncluded(LastLine(text).value);
    }
  }
}
