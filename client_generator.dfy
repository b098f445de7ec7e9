/** The flashcard page's own generator, used when the server cannot be reached
    (clientSideGenerateFlashcards): it cuts the text into sentences, keeps the first ten, and
    asks about a long word of every sentence that is long enough. Math.random is modelled by
    two roll functions, one value per sentence position, reduced modulo the number of choices. */
module ClientGenerator {
  import opened Wrappers
  import opened Strings
  import opened Cards
  import opened Seqs

  /** A match of /[^.!?]+[.!?]+/: a non-empty run without terminators, then a non-empty run of
      terminators. */
  ghost predicate IsSentenceMatch(s: string) {
    exists k :: TurnsAt(s, k)
  }

  /** `s` has no terminator before index k and only terminators from k on, both runs non-empty. */
  ghost predicate TurnsAt(s: string, k: int) {
    && 0 < k < |s|
    && (forall i :: 0 <= i < k ==> !IsSentenceEnd(s[i]))
    && (forall i :: k <= i < |s| ==> IsSentenceEnd(s[i]))
  }

  /** text.match(/[^.!?]+[.!?]+/g) || []: every match, left to right. Terminators with no text
      before them are skipped, and so is a last piece with no terminator after it. */
  function SentenceMatches(text: string): (r: seq<string>)
    ensures forall k :: 0 <= k < |r| ==> IsSentenceMatch(r[k])
    decreases |text|
  {
    if text == [] then []
    else if IsSentenceEnd(text[0]) then SentenceMatches(text[1..])
    else
      var n := RunEnd(text, 0, c => !IsSentenceEnd(c));
      if n == |text| then []
      else
        var m := RunEnd(text, n, IsSentenceEnd);
        assert TurnsAt(text[..m], n);
        [text[..m]] + SentenceMatches(text[m..])
  }

  /** text[i..j] is `body`, everything before i is a terminator and nothing from j on is. */
  ghost predicate CoveredBy(text: string, body: string, i: int, j: int) {
    && 0 <= i <= j <= |text| && text[i..j] == body
    && (forall k :: 0 <= k < i ==> IsSentenceEnd(text[k]))
    && (forall k :: j <= k < |text| ==> !IsSentenceEnd(text[k]))
  }

  lemma CoveredBehindTerminator(text: string, body: string, i: int, j: int)
    requires |text| > 0 && IsSentenceEnd(text[0]) && CoveredBy(text[1..], body, i, j)
    ensures CoveredBy(text, body, i + 1, j + 1)
  {
    assert text[i + 1..j + 1] == text[1..][i..j];
    forall k | 0 < k < i + 1 ensures IsSentenceEnd(text[k]) {
      assert text[k] == text[1..][k - 1];
    }
    forall k | j + 1 <= k < |text| ensures !IsSentenceEnd(text[k]) {
      assert text[k] == text[1..][k - 1];
    }
  }

  lemma CoveredAfterMatch(text: string, m: nat, body: string, i: int, j: int)
    requires 0 < m <= |text| && CoveredBy(text[m..], body, i, j)
    requires m < |text| ==> !IsSentenceEnd(text[m])
    ensures CoveredBy(text, text[..m] + body, 0, m + j)
  {
    var rest := text[m..];
    if m < |text| {
      assert rest[0] == text[m];
    }
    assert i == 0;
    assert text[0..m + j] == text[..m] + rest[0..j];
    forall k | m + j <= k < |text| ensures !IsSentenceEnd(text[k]) {
      assert text[k] == rest[k - m];
    }
  }

  /** The matches, put together, are the text less a leading run of terminators and a trailing
      piece that has none: nothing in between is lost. */
  lemma {:induction false} MatchesCoverText(text: string)
    ensures exists i, j :: CoveredBy(text, Concat(SentenceMatches(text)), i, j)
    decreases |text|
  {
    var r := SentenceMatches(text);
    if text == [] {
      assert CoveredBy(text, Concat(r), 0, 0);
    } else if IsSentenceEnd(text[0]) {
      MatchesCoverText(text[1..]);
      var i, j :| CoveredBy(text[1..], Concat(r), i, j);
      CoveredBehindTerminator(text, Concat(r), i, j);
    } else {
      var n := RunEnd(text, 0, c => !IsSentenceEnd(c));
      if n == |text| {
        assert CoveredBy(text, Concat(r), 0, 0);
      } else {
        var m := RunEnd(text, n, IsSentenceEnd);
        var rest := text[m..];
        MatchesCoverText(rest);
        var i, j :| CoveredBy(rest, Concat(SentenceMatches(rest)), i, j);
        CoveredAfterMatch(text, m, Concat(SentenceMatches(rest)), i, j);
        assert r == [text[..m]] + SentenceMatches(rest);
        assert Concat(r) == text[..m] + Concat(SentenceMatches(rest));
      }
    }
  }

  /** Text with no terminator at all gives no sentence. */
  lemma {:induction false} NoTerminatorNoMatch(text: string)
    requires forall k :: 0 <= k < |text| ==> !IsSentenceEnd(text[k])
    ensures SentenceMatches(text) == []
  {
    if text != [] {
      var n := RunEnd(text, 0, c => !IsSentenceEnd(c));
      assert n == |text|;
    }
  }

  /** The punctuation removed from key terms, the class [,.;:?!"']. */
  predicate IsTermPunct(c: char) {
    c == ',' || c == '.' || c == ';' || c == ':' || c == '?' || c == '!' || c == '"' || c == '\''
  }

  /** words.filter(word => word.length > 5).map(word => word.replace(/[,.;:?!"']/g, '')) */
  function KeyTerms(words: seq<string>): (r: seq<string>)
    ensures |r| <= |words|
  {
    if words == [] then []
    else (if |words[0]| > 5 then [RemoveAll(words[0], IsTermPunct)] else []) + KeyTerms(words[1..])
  }

  /** There is a key term exactly when some word is longer than five characters. */
  lemma {:induction false} KeyTermsExist(words: seq<string>)
    ensures |KeyTerms(words)| > 0 <==> exists i :: 0 <= i < |words| && |words[i]| > 5
  {
    if words != [] && |words[0]| <= 5 {
      KeyTermsExist(words[1..]);
      assert KeyTerms(words) == KeyTerms(words[1..]);
      if exists i :: 0 <= i < |words| && |words[i]| > 5 {
        var i :| 0 <= i < |words| && |words[i]| > 5;
        assert words[1..][i - 1] == words[i];
      }
      if |KeyTerms(words[1..])| > 0 {
        var i :| 0 <= i < |words[1..]| && |words[1..][i]| > 5;
        assert words[1..][i] == words[i + 1];
      }
    }
  }

  /** Each key term is a word longer than five characters with the punctuation removed. */
  lemma {:induction false} KeyTermsFrom(words: seq<string>)
    ensures forall k :: 0 <= k < |KeyTerms(words)| ==>
              exists i :: 0 <= i < |words| && |words[i]| > 5 && KeyTerms(words)[k] == RemoveAll(words[i], IsTermPunct)
  {
    if words != [] {
      var r, rest := KeyTerms(words), KeyTerms(words[1..]);
      var head := if |words[0]| > 5 then 1 else 0;
      assert r == (if |words[0]| > 5 then [RemoveAll(words[0], IsTermPunct)] else []) + rest;
      KeyTermsFrom(words[1..]);
      forall k | 0 <= k < |r|
        ensures exists i :: 0 <= i < |words| && |words[i]| > 5 && r[k] == RemoveAll(words[i], IsTermPunct)
      {
        if k < head {
          assert r[k] == RemoveAll(words[0], IsTermPunct);
        } else {
          var i :| 0 <= i < |words[1..]| && |words[1..][i]| > 5 && rest[k - head] == RemoveAll(words[1..][i], IsTermPunct);
          assert r[k] == rest[k - head] && words[1..][i] == words[i + 1];
        }
      }
    } else {
      assert KeyTerms(words) == [];
    }
  }

  /** The five question templates, around a key term. */
  function Template(k: nat, term: string): (q: string)
    requires k < 5
    ensures Contains(q, term) && |q| > |term|
  {
    var (pre, post) :=
      if k == 0 then ("What does \"", "\" refer to in this context?")
      else if k == 1 then ("Explain the concept of ", ".")
      else if k == 2 then ("What is meant by \"", "\"?")
      else if k == 3 then ("Define ", ".")
      else ("Describe what ", " means.");
    ContainsInfix(pre, term, post);
    pre + term + post
  }

  /** The words of a trimmed sentence, as split(' ') cuts it. */
  function SpaceSplit(sentence: string): seq<string> {
    SplitOn(sentence, ' ')
  }

  /** A trimmed sentence becomes a card: at least five space-separated pieces, one of them
      longer than five characters. */
  predicate Qualifies(sentence: string) {
    var words := SpaceSplit(sentence);
    |words| >= 5 && exists i :: 0 <= i < |words| && |words[i]| > 5
  }

  /** The card made from one matched sentence, or None (the source's `null`) when it is
      skipped. */
  function CardFor(raw: string, keyRoll: nat, templateRoll: nat): (r: Option<Card>)
    ensures r.Some? <==> Qualifies(Trim(raw))
    ensures r.Some? ==> && r.value.answer == Trim(raw) && r.value.theme == None
                        && |r.value.answer| > 0 && |r.value.question| > 0
                        && exists k :: 0 <= k < |KeyTerms(SpaceSplit(Trim(raw)))| && Contains(r.value.question, KeyTerms(SpaceSplit(Trim(raw)))[k])
    ensures r.Some? ==> exists k, t :: 0 <= k < 5 && t in KeyTerms(SpaceSplit(Trim(raw))) && r.value.question == Template(k, t)
  {
    var sentence := Trim(raw);
    var words := SpaceSplit(sentence);
    if |words| < 5 then None
    else
      assert SplitOn([], ' ') == [[]];
      assert |sentence| > 0;
      var keyTerms := KeyTerms(words);
      KeyTermsExist(words);
      KeyTermsFrom(words);
      if |keyTerms| == 0 then None
      else
        var keyTerm := keyTerms[keyRoll % |keyTerms|];
        Some(Card(Template(templateRoll % 5, keyTerm), sentence, None))
  }

  /** The trimmed sentences that qualify, in order. */
  ghost function QualifyingSentences(sentences: seq<string>): seq<string> {
    if sentences == [] then []
    else (if Qualifies(Trim(sentences[0])) then [Trim(sentences[0])] else [])
         + QualifyingSentences(sentences[1..])
  }

  function Answers(cards: seq<Card>): seq<string> {
    if cards == [] then [] else [cards[0].answer] + Answers(cards[1..])
  }

  /** The map and filter over the selected sentences; `position` is the index of sentences[0]
      among them, which selects the rolls. */
  function CardsFrom(sentences: seq<string>, position: nat, keyRoll: nat -> nat, templateRoll: nat -> nat): (r: seq<Card>)
    ensures |r| <= |sentences|
  {
    if sentences == [] then []
    else
      var card := CardFor(sentences[0], keyRoll(position), templateRoll(position));
      (if card.Some? then [card.value] else []) + CardsFrom(sentences[1..], position + 1, keyRoll, templateRoll)
  }

  /** The answers of the cards are the qualifying trimmed sentences, in order, and every card
      has a question, an answer and no theme. */
  lemma {:induction false} CardsFromSpec(sentences: seq<string>, position: nat, keyRoll: nat -> nat, templateRoll: nat -> nat)
    ensures Answers(CardsFrom(sentences, position, keyRoll, templateRoll)) == QualifyingSentences(sentences)
    ensures forall k :: 0 <= k < |CardsFrom(sentences, position, keyRoll, templateRoll)| ==>
              CardsFrom(sentences, position, keyRoll, templateRoll)[k].theme == None
              && |CardsFrom(sentences, position, keyRoll, templateRoll)[k].question| > 0
              && |CardsFrom(sentences, position, keyRoll, templateRoll)[k].answer| > 0
  {
    if sentences != [] {
      var r := CardsFrom(sentences, position, keyRoll, templateRoll);
      var rest := CardsFrom(sentences[1..], position + 1, keyRoll, templateRoll);
      var card := CardFor(sentences[0], keyRoll(position), templateRoll(position));
      CardsFromSpec(sentences[1..], position + 1, keyRoll, templateRoll);
      if card.Some? {
        assert r == [card.value] + rest;
        assert Answers(r) == [card.value.answer] + Answers(rest);
      } else {
        assert r == rest;
      }
    }
  }

  /** The card's question is one of the five templates filled with a key term of its answer. */
  ghost predicate Templated(card: Card) {
    exists j, t :: 0 <= j < 5 && t in KeyTerms(SpaceSplit(card.answer)) && card.question == Template(j, t)
  }

  /** Every card of the map and filter asks one of the five templates about a key term of its
      answer. */
  lemma {:induction false} CardsFromTemplated(sentences: seq<string>, position: nat, keyRoll: nat -> nat, templateRoll: nat -> nat)
    ensures forall k :: 0 <= k < |CardsFrom(sentences, position, keyRoll, templateRoll)| ==>
              Templated(CardsFrom(sentences, position, keyRoll, templateRoll)[k])
  {
    if sentences != [] {
      var r := CardsFrom(sentences, position, keyRoll, templateRoll);
      var rest := CardsFrom(sentences[1..], position + 1, keyRoll, templateRoll);
      var card := CardFor(sentences[0], keyRoll(position), templateRoll(position));
      CardsFromTemplated(sentences[1..], position + 1, keyRoll, templateRoll);
      if card.Some? {
        assert Templated(card.value);
        assert r == [card.value] + rest;
        forall k | 0 <= k < |r| ensures Templated(r[k]) {
          if k > 0 {
            assert r[k] == rest[k - 1];
          }
        }
      } else {
        assert r == rest;
      }
    }
  }

  /** clientSideGenerateFlashcards: at most ten cards, one per qualifying sentence among the
      first ten matches, in sentence order. */
  function ClientSideGenerate(text: string, keyRoll: nat -> nat, templateRoll: nat -> nat): (r: seq<Card>)
    ensures |r| <= 10
    ensures Answers(r) == QualifyingSentences(Take(SentenceMatches(text), 10))
    ensures forall k :: 0 <= k < |r| ==> r[k].theme == None && |r[k].question| > 0 && |r[k].answer| > 0
    ensures forall k :: 0 <= k < |r| ==> Templated(r[k])
  {
    var sentences := SentenceMatches(text);
    if |sentences| == 0 then []
    else
      CardsFromSpec(Take(sentences, 10), 0, keyRoll, templateRoll);
      CardsFromTemplated(Take(sentences, 10), 0, keyRoll, templateRoll);
      CardsFrom(Take(sentences, 10), 0, keyRoll, templateRoll)
  }

  /** sentences.slice(0, Math.min(10, sentences.length)) */
  function Take<T>(s: seq<T>, n: nat): (r: seq<T>)
    ensures |r| <= n
  {
    if |s| <= n then s else s[..n]
  }

  /** Text without a terminator yields no card. */
  lemma NoTerminatorNoCards(text: string, keyRoll: nat -> nat, templateRoll: nat -> nat)
    requires forall k :: 0 <= k < |text| ==> !IsSentenceEnd(text[k])
    ensures ClientSideGenerate(text, keyRoll, templateRoll) == []
  {
    NoTerminatorNoMatch(text);
  }
}
