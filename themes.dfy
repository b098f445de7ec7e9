/** Card themes (applyDynamicThemes): a card gets the first subject, in the table's order,
    one of whose keywords appears anywhere in its lower-cased question and answer; a card
    that matches none gets "default". Keywords match as substrings, so "art" matches
    "start". */
module Themes {
  import opened Strings
  import opened Rules
  import opened Cards

  const DefaultTheme: string := "default"

  /** The subject keyword table, in its priority order. */
  const Subjects: seq<Rule<string>> := [
    Rule("math", ["math", "equation", "calculate", "number", "formula", "geometry", "algebra"]),
    Rule("science", ["science", "biology", "chemistry", "physics", "experiment", "theory", "scientific"]),
    Rule("history", ["history", "past", "ancient", "century", "war", "civilization", "historical"]),
    Rule("languages", ["language", "word", "grammar", "vocabulary", "speak", "write", "meaning"]),
    Rule("arts", ["art", "music", "paint", "draw", "creative", "design", "color"])
  ]

  /** The text searched for a card's subject: question, a space, answer, lower-cased. */
  function CombinedText(card: Card): string {
    Lower(card.question + " " + card.answer)
  }

  /** `theme` is the theme of a card whose combined text is `text`. */
  ghost predicate IsThemeFor(text: string, theme: string) {
    || (exists k :: FirstMatchAt(Subjects, text, k) && theme == Subjects[k].name)
    || ((forall k :: 0 <= k < |Subjects| ==> !AnyIn(Subjects[k].patterns, text)) && theme == DefaultTheme)
  }

  /** The subject search for one card: the for..of loop over the table that stops at the first
      subject with a keyword in the text. */
  method DetectTheme(text: string) returns (theme: string)
    ensures IsThemeFor(text, theme)
  {
    theme := DefaultTheme;
    var k := 0;
    while k < |Subjects|
      invariant 0 <= k <= |Subjects|
      invariant forall j :: 0 <= j < k ==> !AnyIn(Subjects[j].patterns, text)
    {
      if AnyIn(Subjects[k].patterns, text) {
        theme := Subjects[k].name;
        assert FirstMatchAt(Subjects, text, k);
        return;
      }
      k := k + 1;
    }
  }

  /** A card's text determines its theme: two themes that both fit are the same. */
  lemma ThemeDetermined(text: string, t1: string, t2: string)
    requires IsThemeFor(text, t1) && IsThemeFor(text, t2)
    ensures t1 == t2
  {
  }
}
