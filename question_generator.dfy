/** The server's question generator (generate_flashcards): every summary sentence long enough and
    holding a keyword becomes a card whose question is a template, chosen by the sentence's
    category, filled with the sentence's keywords. */
module QuestionGenerator {
  import opened Wrappers
  import opened Strings
  import opened Rules
  import opened Cards
  import opened Seqs

  // ---------------------------------------------------------------------------------------------
  // Keywords

  const Stopwords: seq<string> :=
    ["the", "and", "that", "this", "with", "from", "their", "have", "for", "not", "are", "but"]

  /** The characters word.strip('.,?!()[]{}":;') removes. */
  predicate IsStrippedPunct(c: char) {
    c in ".,?!()[]{}\":;"
  }

  /** A token is a keyword candidate: longer than four characters, alphabetic, and not a stopword
      once lower-cased. */
  predicate IsCandidate(word: string) {
    |word| > 4 && Lower(word) !in Stopwords && IsAlpha(word)
  }

  /** A keyword as stored: lower-case, alphabetic, longer than four characters, not a stopword. */
  ghost predicate IsKeyword(k: string) {
    |k| > 4 && IsAlpha(k) && Lower(k) == k && k !in Stopwords
  }

  /** Stripping characters a word does not contain leaves it as it is. */
  lemma StripNothing(s: string, strip: char -> bool)
    requires forall k :: 0 <= k < |s| ==> !strip(s[k])
    ensures StripBy(s, strip) == s
  {
  }

  /** `k` is the lower-cased form of a keyword candidate among `words`. */
  ghost predicate FromCandidate(k: string, words: seq<string>) {
    exists j :: 0 <= j < |words| && IsCandidate(words[j]) && k == Lower(words[j])
  }

  lemma FromCandidateTail(k: string, words: seq<string>)
    requires |words| > 0 && FromCandidate(k, words[1..])
    ensures FromCandidate(k, words)
  {
    var j :| 0 <= j < |words[1..]| && IsCandidate(words[1..][j]) && k == Lower(words[1..][j]);
    assert words[j + 1] == words[1..][j];
  }

  /** A candidate, lower-cased, is a keyword. */
  lemma CandidateIsKeyword(w: string)
    requires IsCandidate(w)
    ensures IsKeyword(Lower(w))
  {
    LowerIdempotent(w);
    assert forall i :: 0 <= i < |w| ==> IsLetter(Lower(w)[i]);
  }

  /** The keyword list of one sentence's tokens, in token order. */
  function Keywords(words: seq<string>): seq<string> {
    FlatMap(KeywordOf, words)
  }

  /** The keyword one token contributes: none, or the token stripped and lower-cased. */
  function KeywordOf(word: string): seq<string> {
    if IsCandidate(word) then [Lower(StripBy(word, IsStrippedPunct))] else []
  }

  /** Every keyword is a lower-cased keyword candidate of the sentence, as stored: alphabetic,
      lower-case, longer than four characters and not a stopword. */
  lemma {:induction false} KeywordsSound(words: seq<string>)
    ensures forall k :: 0 <= k < |Keywords(words)| ==>
              IsKeyword(Keywords(words)[k]) && FromCandidate(Keywords(words)[k], words)
    decreases |words|
  {
    if words != [] {
      var rest := Keywords(words[1..]);
      KeywordsSound(words[1..]);
      forall k | 0 <= k < |rest| ensures FromCandidate(rest[k], words) {
        FromCandidateTail(rest[k], words);
      }
      if IsCandidate(words[0]) {
        StripNothing(words[0], IsStrippedPunct);
        CandidateIsKeyword(words[0]);
        assert FromCandidate(Lower(words[0]), words);
        assert Keywords(words) == [Lower(words[0])] + rest;
      } else {
        assert Keywords(words) == rest;
      }
    }
  }

  /** No candidate is lost: every candidate token, lower-cased, is among the keywords. */
  lemma {:induction false} KeywordsComplete(words: seq<string>)
    ensures forall j :: 0 <= j < |words| && IsCandidate(words[j]) ==> Lower(words[j]) in Keywords(words)
    decreases |words|
  {
    if words != [] {
      KeywordsComplete(words[1..]);
      var w := words[0];
      assert forall j :: 1 <= j < |words| ==> words[j] == words[1..][j - 1];
      if IsCandidate(w) {
        StripNothing(w, IsStrippedPunct);
        assert Keywords(words) == [Lower(w)] + Keywords(words[1..]);
      } else {
        assert Keywords(words) == Keywords(words[1..]);
      }
    }
  }

  // ---------------------------------------------------------------------------------------------
  // Question categories

  datatype Kind = Definition | Process | Comparison | CauseEffect | Application

  /** The substring tests of the category chain, in the order they are tried. */
  const CategoryRules: seq<Rule<Kind>> := [
    Rule(Definition, [" is ", " are ", " refers to "]),
    Rule(Process, ["process", "procedure", "steps", "method"]),
    Rule(Comparison, [" than ", " versus ", " compared to ", " while "]),
    Rule(CauseEffect, [" because ", " causes ", " results in ", " leads to "])
  ]

  /** The category of a sentence: the first rule matching its lower-cased text; failing all,
      application for more than fifteen tokens and definition otherwise. */
  function Category(sentence: string): (r: Kind)
    ensures FirstMatch(CategoryRules, Lower(sentence)).Some? ==>
              r == CategoryRules[FirstMatch(CategoryRules, Lower(sentence)).value].name
    ensures FirstMatch(CategoryRules, Lower(sentence)).None? ==>
              r == (if |Words(sentence)| > 15 then Application else Definition)
  {
    match FirstMatch(CategoryRules, Lower(sentence))
    case Some(k) => CategoryRules[k].name
    case None => if |Words(sentence)| > 15 then Application else Definition
  }

  /** Application is chosen only when no rule matches; each rule's kind only when no earlier
      rule matches and one of its own patterns does. */
  lemma CategoryPriority(sentence: string)
    ensures Category(sentence) == Application ==>
              |Words(sentence)| > 15 && forall j :: 0 <= j < |CategoryRules| ==> !AnyIn(CategoryRules[j].patterns, Lower(sentence))
    ensures forall k :: 0 <= k < |CategoryRules| && FirstMatchAt(CategoryRules, Lower(sentence), k) ==>
              Category(sentence) == CategoryRules[k].name
  {
    var text := Lower(sentence);
    forall k | 0 <= k < |CategoryRules| && FirstMatchAt(CategoryRules, text, k)
      ensures Category(sentence) == CategoryRules[k].name
    {
      var m := FirstMatch(CategoryRules, text);
      assert m.Some?;
      assert FirstMatchAt(CategoryRules, text, m.value);
    }
  }

  // ---------------------------------------------------------------------------------------------
  // Templates and str.format

  /** A format string, kept as the literal text around its `{}` placeholders:
      "What is {}?" is Template(["What is ", "?"]). */
  datatype Template = Template(pieces: seq<string>)

  /** The number of `{}` placeholders. */
  function Holes(t: Template): int {
    |t.pieces| - 1
  }

  function Fill(pieces: seq<string>, args: seq<string>): string
    requires |pieces| >= 1 && |args| >= |pieces| - 1
    decreases |pieces|
  {
    if |pieces| == 1 then pieces[0]
    else pieces[0] + args[0] + Fill(pieces[1..], args[1..])
  }

  /** str.format with automatic numbering: the i-th placeholder takes the i-th argument, extra
      arguments are ignored, and too few arguments raise IndexError (None). */
  function Format(t: Template, args: seq<string>): (r: Option<string>)
    requires |t.pieces| >= 1
    ensures r.None? <==> Holes(t) > |args|
    ensures r.Some? && Holes(t) >= 1 ==> Contains(r.value, args[0])
  {
    if Holes(t) > |args| then None
    else if Holes(t) >= 1 then
      ContainsInfix(t.pieces[0], args[0], Fill(t.pieces[1..], args[1..]));
      Some(Fill(t.pieces, args))
    else Some(Fill(t.pieces, args))
  }

  const DefinitionTemplates: seq<Template> := [
    Template(["Define the term ", "."]),
    Template(["What is ", "?"]),
    Template(["Explain the concept of ", "."]),
    Template(["What does ", " mean in this context?"]),
    Template(["Describe what ", " refers to."])
  ]

  const ProcessTemplates: seq<Template> := [
    Template(["Explain the process of ", "."]),
    Template(["How does ", " work?"]),
    Template(["What are the steps involved in ", "?"]),
    Template(["Describe how ", " happens."]),
    Template(["Outline the procedure for ", "."])
  ]

  const ComparisonTemplates: seq<Template> := [
    Template(["Compare and contrast ", " and ", "."]),
    Template(["What is the difference between ", " and ", "?"]),
    Template(["How are ", " and ", " related?"]),
    Template(["Distinguish between ", " and ", "."]),
    Template(["What similarities exist between ", " and ", "?"])
  ]

  const CauseEffectTemplates: seq<Template> := [
    Template(["What causes ", "?"]),
    Template(["What are the effects of ", "?"]),
    Template(["What is the relationship between ", " and ", "?"]),
    Template(["How does ", " impact ", "?"]),
    Template(["What happens when ", "?"])
  ]

  const ApplicationTemplates: seq<Template> := [
    Template(["How is ", " applied in real-world situations?"]),
    Template(["Give an example of ", " in practice."]),
    Template(["How would you use ", " to solve a problem?"]),
    Template(["What is a practical application of ", "?"]),
    Template(["In what situation would ", " be useful?"])
  ]

  /** The template list and the format arguments each branch of the category chain uses:
      comparison and cause-effect pass the first two keywords when there are two, and otherwise,
      like every other branch, the chosen keyword alone; comparison then falls back to the
      definition templates. */
  function Plan(kind: Kind, keywords: seq<string>, keyword: string): (r: (seq<Template>, seq<string>))
    requires keywords != []
    ensures |r.0| == 5 && forall i :: 0 <= i < 5 ==> 2 <= |r.0[i].pieces| <= 3
    ensures Holes(r.0[0]) <= |r.1|
    ensures 1 <= |r.1| <= 2
    ensures r.1[0] == keyword || r.1[0] == keywords[0]
    ensures if kind == CauseEffect && |keywords| == 1 then r == (CauseEffectTemplates, [keyword])
            else forall i :: 0 <= i < 5 ==> Holes(r.0[i]) <= |r.1|
    ensures (kind == Comparison || kind == CauseEffect) && |keywords| >= 2 ==> r.1 == keywords[..2]
    ensures !((kind == Comparison || kind == CauseEffect) && |keywords| >= 2) ==> r.1 == [keyword]
  {
    match kind
    case Definition => (DefinitionTemplates, [keyword])
    case Process => (ProcessTemplates, [keyword])
    case Comparison =>
      if |keywords| >= 2 then (ComparisonTemplates, [keywords[0], keywords[1]])
      else (DefinitionTemplates, [keyword])
    case CauseEffect =>
      if |keywords| >= 2 then (CauseEffectTemplates, [keywords[0], keywords[1]])
      else (CauseEffectTemplates, [keyword])
    case Application => (ApplicationTemplates, [keyword])
  }

  /** The question of app.py as written, for template number `pick` of the branch's list;
      None where str.format raises IndexError. A question that exists names one of the keywords. */
  function AskAsWritten(kind: Kind, keywords: seq<string>, keyword: string, pick: nat): (r: Option<string>)
    requires keywords != [] && pick < 5
    ensures r.None? <==> kind == CauseEffect && |keywords| == 1 && pick in {2, 3}
    ensures r.Some? && keyword in keywords ==> exists k :: 0 <= k < |keywords| && Contains(r.value, keywords[k])
  {
    var (templates, args) := Plan(kind, keywords, keyword);
    Format(templates[pick], args)
  }

  function QuestionAsWritten(sentence: string, keywords: seq<string>, keyword: string, pick: nat): (r: Option<string>)
    requires keywords != [] && pick < 5
    ensures r.None? <==> Category(sentence) == CauseEffect && |keywords| == 1 && pick in {2, 3}
  {
    AskAsWritten(Category(sentence), keywords, keyword, pick)
  }

  /** The positions, from `from` on, of the templates that `count` arguments can fill. */
  function Fillable(templates: seq<Template>, count: nat, from: nat): (r: seq<nat>)
    requires from <= |templates|
    ensures forall k :: 0 <= k < |r| ==> from <= r[k] < |templates| && Holes(templates[r[k]]) <= count
    ensures from < |templates| && Holes(templates[from]) <= count ==> |r| > 0 && r[0] == from
    decreases |templates| - from
  {
    if from == |templates| then []
    else (if Holes(templates[from]) <= count then [from] else []) + Fillable(templates, count, from + 1)
  }

  /** The listed positions are strictly increasing. */
  lemma {:induction false} FillableOrdered(templates: seq<Template>, count: nat, from: nat)
    requires from <= |templates|
    ensures forall i, j :: 0 <= i < j < |Fillable(templates, count, from)| ==>
              Fillable(templates, count, from)[i] < Fillable(templates, count, from)[j]
    decreases |templates| - from
  {
    if from < |templates| {
      var r := Fillable(templates, count, from);
      var rest := Fillable(templates, count, from + 1);
      var head: seq<nat> := if Holes(templates[from]) <= count then [from] else [];
      FillableOrdered(templates, count, from + 1);
      assert r == head + rest;
      forall i, j | 0 <= i < j < |r| ensures r[i] < r[j] {
        if i < |head| {
          assert r[i] == from && r[j] == rest[j - 1];
        } else {
          assert r[i] == rest[i - |head|] && r[j] == rest[j - |head|];
        }
      }
    }
  }

  /** A position from `from` on whose template `count` arguments can fill is listed. */
  lemma {:induction false} FillableHas(templates: seq<Template>, count: nat, from: nat, k: nat)
    requires from <= k < |templates| && Holes(templates[k]) <= count
    ensures k in Fillable(templates, count, from)
    decreases k - from
  {
    var r := Fillable(templates, count, from);
    var rest := Fillable(templates, count, from + 1);
    var head: seq<nat> := if Holes(templates[from]) <= count then [from] else [];
    assert r == head + rest;
    if k == from {
      assert r[0] == k;
    } else {
      FillableHas(templates, count, from + 1, k);
      var m :| 0 <= m < |rest| && rest[m] == k;
      assert r[|head| + m] == k;
    }
  }

  /** No template from `from` on that `count` arguments can fill is left out. */
  lemma FillableComplete(templates: seq<Template>, count: nat, from: nat)
    requires from <= |templates|
    ensures forall k :: from <= k < |templates| && Holes(templates[k]) <= count ==> k in Fillable(templates, count, from)
  {
    forall k | from <= k < |templates| && Holes(templates[k]) <= count
      ensures k in Fillable(templates, count, from)
    {
      FillableHas(templates, count, from, k);
    }
  }

  /** When every template can be filled, every position is usable, in order. */
  lemma {:induction false} FillableAll(templates: seq<Template>, count: nat, from: nat)
    requires from <= |templates|
    requires forall i :: 0 <= i < |templates| ==> Holes(templates[i]) <= count
    ensures |Fillable(templates, count, from)| == |templates| - from
    ensures forall k :: 0 <= k < |templates| - from ==> Fillable(templates, count, from)[k] == from + k
    decreases |templates| - from
  {
    if from < |templates| {
      FillableAll(templates, count, from + 1);
    }
  }

  /** The question the generator evidently means to ask: template number `pick` among those
      the branch's arguments can fill. */
  function Ask(kind: Kind, keywords: seq<string>, keyword: string, pick: nat): (r: string)
    requires keywords != [] && pick < 5
    ensures keyword in keywords ==> exists k :: 0 <= k < |keywords| && Contains(r, keywords[k])
  {
    var (templates, args) := Plan(kind, keywords, keyword);
    var usable := Fillable(templates, |args|, 0);
    var index := usable[pick % |usable|];
    assert Format(templates[index], args).Some?;
    AskAsWritten(kind, keywords, keyword, index).value
  }

  /** The corrected question: it always exists, and it names one of the sentence's keywords. */
  function Question(sentence: string, keywords: seq<string>, keyword: string, pick: nat): (r: string)
    requires keywords != [] && pick < 5
    ensures keyword in keywords ==> exists k :: 0 <= k < |keywords| && Contains(r, keywords[k])
  {
    Ask(Category(sentence), keywords, keyword, pick)
  }

  /** When every template can be filled, picking among the usable ones picks the template itself. */
  lemma FillableAllPick(templates: seq<Template>, count: nat, pick: nat)
    requires pick < |templates|
    requires forall i :: 0 <= i < |templates| ==> Holes(templates[i]) <= count
    ensures |Fillable(templates, count, 0)| > 0
    ensures Fillable(templates, count, 0)[pick % |Fillable(templates, count, 0)|] == pick
  {
    FillableAll(templates, count, 0);
    var usable := Fillable(templates, count, 0);
    assert |usable| == |templates|;
    assert pick % |usable| == pick;
  }

  /** Where every template of the branch can be filled, the corrected question is app.py's. */
  lemma AskAsWrittenWhenFilled(kind: Kind, keywords: seq<string>, keyword: string, pick: nat)
    requires keywords != [] && pick < 5
    requires !(kind == CauseEffect && |keywords| == 1)
    ensures AskAsWritten(kind, keywords, keyword, pick) == Some(Ask(kind, keywords, keyword, pick))
  {
    var plan := Plan(kind, keywords, keyword);
    FillableAllPick(plan.0, |plan.1|, pick);
    AskAt(kind, keywords, keyword, pick, Fillable(plan.0, |plan.1|, 0));
  }

  /** The single-keyword cause-effect branch: the corrected question picks among templates 0, 1
      and 4, the ones app.py fills without error. */
  lemma FillableForOneCause()
    ensures Fillable(CauseEffectTemplates, 1, 0) == [0, 1, 4]
  {
    var ts := CauseEffectTemplates;
    assert Holes(ts[0]) == 1 && Holes(ts[1]) == 1 && Holes(ts[2]) == 2 && Holes(ts[3]) == 2 && Holes(ts[4]) == 1;
    assert Fillable(ts, 1, 4) == [4];
    assert Fillable(ts, 1, 3) == [4];
    assert Fillable(ts, 1, 2) == [4];
    assert Fillable(ts, 1, 1) == [1, 4];
  }

  /** The corrected question is app.py's question at a usable template position. */
  lemma AskAt(kind: Kind, keywords: seq<string>, keyword: string, pick: nat, usable: seq<nat>)
    requires keywords != [] && pick < 5
    requires usable == Fillable(Plan(kind, keywords, keyword).0, |Plan(kind, keywords, keyword).1|, 0)
    ensures |usable| > 0 && usable[pick % |usable|] < 5
    ensures AskAsWritten(kind, keywords, keyword, usable[pick % |usable|]) == Some(Ask(kind, keywords, keyword, pick))
  {
  }

  lemma AskOneCause(keywords: seq<string>, keyword: string, pick: nat)
    requires |keywords| == 1 && pick < 5
    ensures AskAsWritten(CauseEffect, keywords, keyword, pick).Some? ==>
              exists p :: 0 <= p < 5 && Ask(CauseEffect, keywords, keyword, p) == AskAsWritten(CauseEffect, keywords, keyword, pick).value
    ensures exists p :: 0 <= p < 5 && AskAsWritten(CauseEffect, keywords, keyword, p) == Some(Ask(CauseEffect, keywords, keyword, pick))
  {
    FillableForOneCause();
    var usable := [0, 1, 4];
    AskAt(CauseEffect, keywords, keyword, pick, usable);
    if pick == 0 || pick == 1 {
      assert usable[pick % |usable|] == pick;
      assert Ask(CauseEffect, keywords, keyword, pick) == AskAsWritten(CauseEffect, keywords, keyword, pick).value;
    } else if pick == 4 {
      AskAt(CauseEffect, keywords, keyword, 2, usable);
      assert Ask(CauseEffect, keywords, keyword, 2) == AskAsWritten(CauseEffect, keywords, keyword, 4).value;
    }
  }

  /** Where app.py's question exists, the corrected one can be the same question, and every
      corrected question is one app.py can ask: only the IndexError outcomes are gone. */
  lemma AskKeepsOutcomes(kind: Kind, keywords: seq<string>, keyword: string, pick: nat)
    requires keywords != [] && pick < 5
    ensures AskAsWritten(kind, keywords, keyword, pick).Some? ==>
              exists p :: 0 <= p < 5 && Ask(kind, keywords, keyword, p) == AskAsWritten(kind, keywords, keyword, pick).value
    ensures exists p :: 0 <= p < 5 && AskAsWritten(kind, keywords, keyword, p) == Some(Ask(kind, keywords, keyword, pick))
  {
    if kind == CauseEffect && |keywords| == 1 {
      AskOneCause(keywords, keyword, pick);
    } else {
      AskAsWrittenWhenFilled(kind, keywords, keyword, pick);
    }
  }

  /** Keywords are extracted token by token. */
  lemma KeywordsAppend(a: seq<string>, b: seq<string>)
    ensures Keywords(a + b) == Keywords(a) + Keywords(b)
  {
    FlatMapAppend(KeywordOf, a, b);
  }

  // ---------------------------------------------------------------------------------------------
  // The card loop

  /** A sentence generate_flashcards turns into a card: five tokens or more, and a keyword. */
  predicate IsEligible(sentence: string) {
    |Words(sentence)| >= 5 && Keywords(Words(sentence)) != []
  }

  /** The eligible sentences, in order. */
  function Eligible(sentences: seq<string>): seq<string>
    decreases |sentences|
  {
    if sentences == [] then []
    else
      var n := |sentences| - 1;
      Eligible(sentences[..n]) + (if IsEligible(sentences[n]) then [sentences[n]] else [])
  }

  lemma {:induction false} EligibleSubseq(sentences: seq<string>)
    ensures IsSubseq(Eligible(sentences), sentences)
    ensures forall k :: 0 <= k < |Eligible(sentences)| ==> IsEligible(Eligible(sentences)[k])
    decreases |sentences|
  {
    if sentences != [] {
      var n := |sentences| - 1;
      EligibleSubseq(sentences[..n]);
      assert sentences == sentences[..n] + [sentences[n]];
      if IsEligible(sentences[n]) {
        SubseqKeep(Eligible(sentences[..n]), sentences[..n], sentences[n]);
      } else {
        assert Eligible(sentences) == Eligible(sentences[..n]);
        SubseqSkip(Eligible(sentences[..n]), sentences[..n], sentences[n]);
      }
    }
  }

  /** The eligible sentences of a prefix are a prefix of the eligible sentences. */
  lemma {:induction false} EligiblePrefix(sentences: seq<string>, i: nat)
    requires i <= |sentences|
    ensures |Eligible(sentences[..i])| <= |Eligible(sentences)|
    ensures Eligible(sentences)[..|Eligible(sentences[..i])|] == Eligible(sentences[..i])
    decreases |sentences|
  {
    if i < |sentences| {
      var n := |sentences| - 1;
      assert sentences[..n][..i] == sentences[..i];
      EligiblePrefix(sentences[..n], i);
    } else {
      assert sentences[..i] == sentences;
    }
  }

  /** `card` is a card generate_flashcards can make of `sentence`: the sentence as the answer,
      and as the question the corrected question for some keyword and template choice. */
  ghost predicate IsCardOf(card: Card, sentence: string) {
    var keywords := Keywords(Words(sentence));
    && keywords != []
    && card.answer == sentence
    && card.theme == None
    && exists keyPick, templatePick :: 0 <= keyPick < |keywords| && 0 <= templatePick < 5
                                     && card.question == Question(sentence, keywords, keywords[keyPick], templatePick)
  }

  ghost predicate CardsOf(cards: seq<Card>, sentences: seq<string>) {
    |cards| == |sentences| && forall k :: 0 <= k < |cards| ==> IsCardOf(cards[k], sentences[k])
  }

  lemma EligibleStep(sentences: seq<string>, i: nat)
    requires i < |sentences|
    ensures Eligible(sentences[..i + 1]) == Eligible(sentences[..i]) + (if IsEligible(sentences[i]) then [sentences[i]] else [])
  {
    assert sentences[..i + 1][..i] == sentences[..i];
  }

  lemma CardsOfAppend(cards: seq<Card>, sentences: seq<string>, card: Card, sentence: string)
    requires CardsOf(cards, sentences) && IsCardOf(card, sentence)
    ensures CardsOf(cards + [card], sentences + [sentence])
  {
  }

  /** A card built from picks in range is a card of the sentence. */
  lemma MadeCardIsCardOf(sentence: string, keyPick: nat, templatePick: nat)
    requires Keywords(Words(sentence)) != [] && keyPick < |Keywords(Words(sentence))| && templatePick < 5
    ensures var keywords := Keywords(Words(sentence));
            IsCardOf(Card(Question(sentence, keywords, keywords[keyPick], templatePick), sentence, None), sentence)
  {
  }

  /** The body of the card loop for an eligible sentence: a keyword and a template are chosen at
      random (random.choice) and the question is asked about them. */
  method MakeCard(sentence: string, keywords: seq<string>) returns (card: Card)
    requires keywords == Keywords(Words(sentence)) && keywords != []
    ensures IsCardOf(card, sentence)
  {
    var keyPick := 0;
    if |keywords| > 1 {
      keyPick :| 0 <= keyPick < |keywords|;
    }
    var templatePick :| 0 <= templatePick < 5;
    var question := Question(sentence, keywords, keywords[keyPick], templatePick);
    MadeCardIsCardOf(sentence, keyPick, templatePick);
    card := Card(question, sentence, None);
  }

  const MaxCards := 12

  /** generate_flashcards: one card per eligible summary sentence, in order, stopping at twelve. */
  method GenerateFlashcards(summarized: seq<string>) returns (cards: seq<Card>)
    ensures |cards| == if |Eligible(summarized)| < MaxCards then |Eligible(summarized)| else MaxCards
    ensures CardsOf(cards, Eligible(summarized)[..|cards|])
  {
    cards := [];
    var i := 0;
    while i < |summarized|
      invariant 0 <= i <= |summarized|
      invariant |cards| < MaxCards
      invariant CardsOf(cards, Eligible(summarized[..i]))
    {
      var sentence := summarized[i];
      EligibleStep(summarized, i);
      if |Words(sentence)| < 5 {
        i := i + 1;
        continue;
      }
      var words := Words(sentence);
      var keywords := Keywords(words);
      if keywords == [] {
        i := i + 1;
        continue;
      }
      var card := MakeCard(sentence, keywords);
      CardsOfAppend(cards, Eligible(summarized[..i]), card, sentence);
      cards := cards + [card];
      i := i + 1;
      if |cards| >= MaxCards {
        EligiblePrefix(summarized, i);
        return;
      }
    }
    assert summarized[..i] == summarized;
  }
}
