/** Keyword rules tried in a fixed priority order: the first rule one of whose patterns occurs
    in the text wins. Both the card themes of the flashcard page and the question categories
    of the server's generator are chosen this way. */
module Rules {
  import opened Wrappers
  import opened Strings

  datatype Rule<L> = Rule(name: L, patterns: seq<string>)

  /** Some pattern occurs in `text`: JavaScript's patterns.some(p => text.includes(p)) and
      Python's `p1 in text or p2 in text or ...`. */
  function AnyIn(patterns: seq<string>, text: string): (r: bool)
    ensures r <==> exists k :: 0 <= k < |patterns| && Contains(text, patterns[k])
  {
    if patterns == [] then false
    else Contains(text, patterns[0]) || AnyIn(patterns[1..], text)
  }

  /** The rule at index k matches `text` and no earlier rule does. */
  ghost predicate FirstMatchAt<L>(rules: seq<Rule<L>>, text: string, k: int) {
    && 0 <= k < |rules|
    && AnyIn(rules[k].patterns, text)
    && forall j :: 0 <= j < k ==> !AnyIn(rules[j].patterns, text)
  }

  /** The index of the first rule that matches `text`, if any. */
  function FirstMatch<L>(rules: seq<Rule<L>>, text: string): (r: Option<nat>)
    ensures r.Some? ==> FirstMatchAt(rules, text, r.value)
    ensures r.None? <==> forall j :: 0 <= j < |rules| ==> !AnyIn(rules[j].patterns, text)
  {
    if rules == [] then None
    else if AnyIn(rules[0].patterns, text) then Some(0)
    else match FirstMatch(rules[1..], text)
      case None => None
      case Some(k) => Some(k + 1)
  }
}
