/** The server's extractive summariser (summarize_text): the text is split into sentences, every
    sentence is scored by how often its words occur in the whole text, and the best-scored
    sentences are kept in their original order. */
module Summarizer {
  import opened Wrappers
  import opened Strings
  import opened Seqs

  // ---------------------------------------------------------------------------------------------
  // Sentence splitting: Python's re.split on (?<=[.!?])\s+

  /** The split pattern matches at `p`: a whitespace character right after a sentence end. */
  predicate BreakAt(s: string, p: int) {
    1 <= p < |s| && IsSentenceEnd(s[p - 1]) && IsSpace(s[p])
  }

  /** No match of the split pattern starts inside `s`. */
  ghost predicate Unbroken(s: string) {
    forall p :: !BreakAt(s, p)
  }

  /** The leftmost match of the split pattern at or after `from`. */
  function FirstBreak(s: string, from: nat): (r: Option<nat>)
    ensures r.Some? ==> from <= r.value && BreakAt(s, r.value)
                        && forall p :: from <= p < r.value ==> !BreakAt(s, p)
    ensures r.None? ==> forall p :: from <= p ==> !BreakAt(s, p)
    decreases |s| - from
  {
    if from >= |s| then None
    else if BreakAt(s, from) then Some(from)
    else FirstBreak(s, from + 1)
  }

  /** The pieces and, between them, the separators: `pieces[k] + separators[k] + pieces[k + 1]`. */
  function Rejoin(pieces: seq<string>, separators: seq<string>): string
    requires |pieces| == |separators| + 1
    decreases |separators|
  {
    if separators == [] then pieces[0]
    else pieces[0] + separators[0] + Rejoin(pieces[1..], separators[1..])
  }

  /** Without a match of the pattern from index 1 on, the text is one unbroken piece. */
  lemma NoBreakUnbroken(s: string)
    requires forall p :: 1 <= p ==> !BreakAt(s, p)
    ensures Unbroken(s)
  {
    forall p ensures !BreakAt(s, p) {
      if 1 <= p {
      }
    }
  }

  /** The first match at p, with its whitespace run ending at q, cuts off an unbroken sentence
      ending in a terminator, and a separator of whitespace only. */
  lemma BreakCuts(s: string, p: nat, q: nat)
    requires 1 <= p && BreakAt(s, p) && forall i :: 1 <= i < p ==> !BreakAt(s, i)
    requires p <= q <= |s| && (forall k :: p <= k < q ==> IsSpace(s[k])) && (q < |s| ==> !IsSpace(s[q]))
    ensures q > p && s == s[..p] + s[p..q] + s[q..]
    ensures Unbroken(s[..p]) && s[..p] != [] && IsSentenceEnd(s[..p][p - 1])
    ensures forall i :: 0 <= i < |s[p..q]| ==> IsSpace(s[p..q][i])
    ensures s[q..] == [] || !IsSpace(s[q..][0])
  {
    assert s == s[..p] + s[p..q] + s[q..];
    forall i | 1 <= i < p
      ensures BreakAt(s[..p], i) == BreakAt(s, i)
    {
      assert s[..p][i] == s[i] && s[..p][i - 1] == s[i - 1];
    }
  }

  /** What re.split leaves: no piece holds a match, every piece before a separator ends with a
      terminator, every separator is a non-empty whitespace run, and no piece after a separator
      starts with whitespace (the run was taken whole). */
  ghost predicate WellSplit(pieces: seq<string>, separators: seq<string>) {
    && |pieces| == |separators| + 1
    && (forall k :: 0 <= k < |pieces| ==> Unbroken(pieces[k]))
    && (forall k :: 0 <= k < |separators| ==> pieces[k] != [] && IsSentenceEnd(pieces[k][|pieces[k]| - 1]))
    && (forall k :: 0 <= k < |separators| ==> separators[k] != [] && forall i :: 0 <= i < |separators[k]| ==> IsSpace(separators[k][i]))
    && (forall k :: 0 < k < |pieces| ==> pieces[k] == [] || !IsSpace(pieces[k][0]))
  }

  /** A well-split rest keeps being well split behind one more sentence and separator. */
  lemma WellSplitCons(piece: string, separator: string, pieces: seq<string>, separators: seq<string>)
    requires WellSplit(pieces, separators)
    requires Unbroken(piece) && piece != [] && IsSentenceEnd(piece[|piece| - 1])
    requires separator != [] && forall i :: 0 <= i < |separator| ==> IsSpace(separator[i])
    requires pieces[0] == [] || !IsSpace(pieces[0][0])
    ensures WellSplit([piece] + pieces, [separator] + separators)
  {
    var ps, ss := [piece] + pieces, [separator] + separators;
    forall k | 0 < k < |ps| ensures ps[k] == pieces[k - 1] {}
    forall k | 0 < k < |ss| ensures ss[k] == separators[k - 1] {}
  }

  /** re.split with the separators it consumed: each match takes the longest whitespace run. */
  function SplitParts(s: string): (r: (seq<string>, seq<string>))
    ensures |r.0| == |r.1| + 1
    ensures Rejoin(r.0, r.1) == s
    ensures WellSplit(r.0, r.1)
    decreases |s|
  {
    match FirstBreak(s, 1)
    case None =>
      NoBreakUnbroken(s);
      ([s], [])
    case Some(p) =>
      var q := RunEnd(s, p, IsSpace);
      BreakCuts(s, p, q);
      var rest := SplitParts(s[q..]);
      WellSplitCons(s[..p], s[p..q], rest.0, rest.1);
      ([s[..p]] + rest.0, [s[p..q]] + rest.1)
  }

  /** The sentences of summarize_text. */
  function SplitSentences(text: string): (r: seq<string>)
    ensures |r| >= 1
  {
    SplitParts(text).0
  }

  // ---------------------------------------------------------------------------------------------
  // Word frequencies and sentence scores

  /** The lower-cased whitespace tokens of one sentence. */
  function Tokens(sentence: string): seq<string> {
    Words(Lower(sentence))
  }

  /** All tokens of all sentences, sentence after sentence. */
  ghost function AllTokens(sentences: seq<string>): seq<string>
    decreases |sentences|
  {
    if sentences == [] then []
    else AllTokens(sentences[..|sentences| - 1]) + Tokens(sentences[|sentences| - 1])
  }

  /** How many times `w` occurs in `tokens`. */
  function Occurrences(tokens: seq<string>, w: string): nat
    decreases |tokens|
  {
    if tokens == [] then 0
    else Occurrences(tokens[..|tokens| - 1], w) + (if tokens[|tokens| - 1] == w then 1 else 0)
  }

  /** `freq` counts every token of `tokens` and holds no other key. */
  ghost predicate Tallies(freq: map<string, int>, tokens: seq<string>) {
    forall w :: (w in freq <==> Occurrences(tokens, w) > 0) && (w in freq ==> freq[w] == Occurrences(tokens, w))
  }

  /** Counting one more token keeps the tally exact. */
  lemma TalliesAdd(freq: map<string, int>, tokens: seq<string>, w: string)
    requires Tallies(freq, tokens)
    ensures Tallies(freq[w := if w in freq then freq[w] + 1 else 1], tokens + [w])
  {
    assert (tokens + [w])[..|tokens|] == tokens;
  }

  /** Counting token j of a sentence after the tokens `before` of the earlier ones. */
  lemma TalliesStep(freq: map<string, int>, before: seq<string>, words: seq<string>, j: nat)
    requires j < |words| && Tallies(freq, before + words[..j])
    ensures Tallies(freq[words[j] := if words[j] in freq then freq[words[j]] + 1 else 1], before + words[..j + 1])
  {
    TalliesAdd(freq, before + words[..j], words[j]);
    assert before + words[..j + 1] == before + words[..j] + [words[j]];
  }

  /** The tokens of the first i + 1 sentences are those of the first i, then those of sentence i. */
  lemma AllTokensStep(sentences: seq<string>, i: nat)
    requires i < |sentences|
    ensures AllTokens(sentences[..i + 1]) == AllTokens(sentences[..i]) + Tokens(sentences[i])
  {
    assert sentences[..i + 1][..i] == sentences[..i];
  }

  /** word_frequencies: how often each lower-cased token occurs in the whole text. */
  method WordFrequencies(sentences: seq<string>) returns (freq: map<string, int>)
    ensures Tallies(freq, AllTokens(sentences))
  {
    freq := map[];
    var i := 0;
    while i < |sentences|
      invariant 0 <= i <= |sentences|
      invariant Tallies(freq, AllTokens(sentences[..i]))
    {
      var words := Tokens(sentences[i]);
      ghost var before := AllTokens(sentences[..i]);
      var j := 0;
      assert before + words[..j] == before;
      while j < |words|
        invariant 0 <= j <= |words|
        invariant Tallies(freq, before + words[..j])
      {
        var word := words[j];
        TalliesStep(freq, before, words, j);
        if word !in freq {
          freq := freq[word := 1];
        } else {
          freq := freq[word := freq[word] + 1];
        }
        j := j + 1;
      }
      AllTokensStep(sentences, i);
      assert words[..j] == words;
      i := i + 1;
    }
    assert sentences[..i] == sentences;
  }

  /** The sum, over `tokens`, of each token's count in `freq` (tokens without a count add nothing). */
  function FrequencySum(tokens: seq<string>, freq: map<string, int>): int
    decreases |tokens|
  {
    if tokens == [] then 0
    else
      var w := tokens[|tokens| - 1];
      FrequencySum(tokens[..|tokens| - 1], freq) + (if w in freq then freq[w] else 0)
  }

  /** Every token counted at least once: the score is at least the number of tokens. */
  lemma {:induction false} FrequencySumAtLeastLength(tokens: seq<string>, freq: map<string, int>)
    requires forall w :: w in tokens ==> w in freq && freq[w] >= 1
    ensures FrequencySum(tokens, freq) >= |tokens|
    decreases |tokens|
  {
    if tokens != [] {
      FrequencySumAtLeastLength(tokens[..|tokens| - 1], freq);
    }
  }

  /** Some token of `tokens` has a count in `freq`. */
  ghost predicate AnyCounted(tokens: seq<string>, freq: map<string, int>) {
    exists k :: 0 <= k < |tokens| && tokens[k] in freq
  }

  /** `scores` holds, for every sentence with a counted token, the sum of its tokens'
      frequencies, and nothing for the others. */
  ghost predicate ScoresOf(scores: map<int, int>, sentences: seq<string>, freq: map<string, int>) {
    && (forall i :: i in scores <==> 0 <= i < |sentences| && AnyCounted(Tokens(sentences[i]), freq))
    && (forall i :: i in scores ==> scores[i] == FrequencySum(Tokens(sentences[i]), freq))
  }

  /** One more token: it is counted when it has a frequency, and adds that frequency. */
  lemma TokenStep(words: seq<string>, j: nat, freq: map<string, int>)
    requires j < |words|
    ensures AnyCounted(words[..j + 1], freq) <==> AnyCounted(words[..j], freq) || words[j] in freq
    ensures FrequencySum(words[..j + 1], freq)
         == FrequencySum(words[..j], freq) + (if words[j] in freq then freq[words[j]] else 0)
  {
    assert words[..j + 1][..j] == words[..j];
    if AnyCounted(words[..j + 1], freq) && words[j] !in freq {
      var k :| 0 <= k < j + 1 && words[..j + 1][k] in freq;
      assert words[..j][k] in freq;
    }
    if AnyCounted(words[..j], freq) {
      var k :| 0 <= k < j && words[..j][k] in freq;
      assert words[..j + 1][k] in freq;
    }
    if words[j] in freq {
      assert words[..j + 1][j] in freq;
    }
  }

  /** Midway through sentence i: the earlier sentences are scored, and sentence i's entry holds
      the sum over its tokens `done` so far, present once one of them is counted. */
  ghost predicate ScoringAt(scores: map<int, int>, sentences: seq<string>, freq: map<string, int>, i: nat, done: seq<string>)
    requires i < |sentences|
  {
    && (forall k :: k in scores && k != i ==> 0 <= k < i && AnyCounted(Tokens(sentences[k]), freq))
    && (forall k :: 0 <= k < i && AnyCounted(Tokens(sentences[k]), freq) ==> k in scores)
    && (forall k :: k in scores && k != i ==> scores[k] == FrequencySum(Tokens(sentences[k]), freq))
    && (i in scores <==> AnyCounted(done, freq))
    && (i in scores ==> scores[i] == FrequencySum(done, freq))
    && (i !in scores ==> FrequencySum(done, freq) == 0)
  }

  /** Starting sentence i from the scores of the first i sentences. */
  lemma ScoringStart(scores: map<int, int>, sentences: seq<string>, freq: map<string, int>, i: nat)
    requires i < |sentences| && ScoresOf(scores, sentences[..i], freq)
    ensures ScoringAt(scores, sentences, freq, i, [])
  {
    forall k | 0 <= k < i
      ensures sentences[..i][k] == sentences[k]
    {
    }
  }

  /** Adding token j of sentence i to its entry. */
  lemma ScoringStep(scores: map<int, int>, sentences: seq<string>, freq: map<string, int>, i: nat, words: seq<string>, j: nat)
    requires i < |sentences| && j < |words| && ScoringAt(scores, sentences, freq, i, words[..j])
    ensures ScoringAt(if words[j] !in freq then scores
                      else if i !in scores then scores[i := freq[words[j]]]
                      else scores[i := scores[i] + freq[words[j]]],
                      sentences, freq, i, words[..j + 1])
  {
    TokenStep(words, j, freq);
  }

  /** Sentence i scored: the scores of the first i sentences extend to the first i + 1. */
  lemma ScoresOfStep(scores: map<int, int>, sentences: seq<string>, freq: map<string, int>, i: nat)
    requires i < |sentences| && ScoringAt(scores, sentences, freq, i, Tokens(sentences[i]))
    ensures ScoresOf(scores, sentences[..i + 1], freq)
  {
    forall k | 0 <= k < i + 1
      ensures sentences[..i + 1][k] == sentences[k]
    {
    }
  }

  /** sentence_scores: each sentence's score accumulated token by token. */
  method SentenceScores(sentences: seq<string>, freq: map<string, int>) returns (scores: map<int, int>)
    ensures ScoresOf(scores, sentences, freq)
  {
    scores := map[];
    var i := 0;
    while i < |sentences|
      invariant 0 <= i <= |sentences|
      invariant ScoresOf(scores, sentences[..i], freq)
    {
      var words := Tokens(sentences[i]);
      ScoringStart(scores, sentences, freq, i);
      var j := 0;
      while j < |words|
        invariant 0 <= j <= |words|
        invariant ScoringAt(scores, sentences, freq, i, words[..j])
      {
        var word := words[j];
        ScoringStep(scores, sentences, freq, i, words, j);
        if word in freq {
          if i !in scores {
            scores := scores[i := freq[word]];
          } else {
            scores := scores[i := scores[i] + freq[word]];
          }
        }
        j := j + 1;
      }
      assert words[..j] == words;
      ScoresOfStep(scores, sentences, freq, i);
      i := i + 1;
    }
    assert sentences[..i] == sentences;
  }

  // ---------------------------------------------------------------------------------------------
  // Keeping the best sentences

  /** top_n: max(int(n * 0.3), 3); int() of the non-negative product is its floor. */
  function TopCount(n: nat): nat {
    if (3 * n) / 10 > 3 then (3 * n) / 10 else 3
  }

  function Min(a: nat, b: nat): nat {
    if a <= b then a else b
  }

  /** `a` comes before `b` in the descending sort by score: a higher score, or the same score and
      an earlier sentence (Python's sort is stable, and reverse=True keeps ties in order). */
  predicate Outranks(scores: map<int, int>, a: int, b: int)
    requires a in scores && b in scores
  {
    scores[a] > scores[b] || (scores[a] == scores[b] && a < b)
  }

  /** `chosen` is what slicing the first `count` entries off the sorted scores keeps: as many
      sentences as possible up to `count`, each ranked above every scored sentence left out. */
  ghost predicate IsTop(scores: map<int, int>, chosen: set<int>, count: nat) {
    && chosen <= scores.Keys
    && |chosen| == Min(count, |scores.Keys|)
    && forall a, b :: a in chosen && b in scores && b !in chosen ==> Outranks(scores, a, b)
  }

  /** A subset is no larger than its superset. */
  lemma SubsetNoLarger(small: set<int>, large: set<int>)
    requires small <= large
    ensures |small| <= |large|
  {
    assert large == small + (large - small);
  }

  /** The sort and the slice: the entries are scanned once per kept sentence, and the best
      sentence not kept yet is added. */
  method SelectTop(scores: map<int, int>, bound: nat, count: nat) returns (chosen: set<int>)
    requires forall i :: i in scores ==> 0 <= i < bound
    ensures IsTop(scores, chosen, count)
  {
    chosen := {};
    while |chosen| < count && |chosen| < |scores.Keys|
      invariant chosen <= scores.Keys
      invariant |chosen| <= Min(count, |scores.Keys|)
      invariant forall a, b :: a in chosen && b in scores && b !in chosen ==> Outranks(scores, a, b)
      decreases count - |chosen|
    {
      var best: Option<int> := None;
      var j := 0;
      while j < bound
        invariant 0 <= j <= bound
        invariant best.Some? ==> best.value in scores && best.value !in chosen && best.value < j
        invariant best.Some? ==> forall r :: 0 <= r < j && r in scores && r !in chosen && r != best.value ==>
                                   Outranks(scores, best.value, r)
        invariant best.None? ==> forall r :: 0 <= r < j ==> r !in scores || r in chosen
      {
        if j in scores && j !in chosen && (best.None? || scores[j] > scores[best.value]) {
          best := Some(j);
        }
        j := j + 1;
      }
      if best.None? {
        SubsetNoLarger(scores.Keys, chosen);
        assert false;
      }
      chosen := chosen + {best.value};
    }
  }

  /** The sentences whose indices are in `chosen`, in text order. */
  function Picked(sentences: seq<string>, chosen: set<int>): seq<string>
    decreases |sentences|
  {
    if sentences == [] then []
    else
      var n := |sentences| - 1;
      Picked(sentences[..n], chosen) + (if n in chosen then [sentences[n]] else [])
  }

  /** The members of `chosen` that index one of the first `n` sentences. */
  function ChosenBelow(chosen: set<int>, n: nat): set<int> {
    set i | i in chosen && 0 <= i < n
  }

  lemma {:induction false} PickedLength(sentences: seq<string>, chosen: set<int>)
    ensures |Picked(sentences, chosen)| == |ChosenBelow(chosen, |sentences|)|
    decreases |sentences|
  {
    if sentences != [] {
      var n := |sentences| - 1;
      PickedLength(sentences[..n], chosen);
      var below := ChosenBelow(chosen, n);
      var upto := ChosenBelow(chosen, |sentences|);
      if n in chosen {
        assert upto == below + {n};
      } else {
        assert upto == below;
      }
    }
  }

  lemma {:induction false} PickedSubseq(sentences: seq<string>, chosen: set<int>)
    ensures IsSubseq(Picked(sentences, chosen), sentences)
    decreases |sentences|
  {
    if sentences == [] {
    } else {
      var n := |sentences| - 1;
      PickedSubseq(sentences[..n], chosen);
      assert sentences == sentences[..n] + [sentences[n]];
      if n in chosen {
        SubseqKeep(Picked(sentences[..n], chosen), sentences[..n], sentences[n]);
      } else {
        assert Picked(sentences, chosen) == Picked(sentences[..n], chosen);
        SubseqSkip(Picked(sentences[..n], chosen), sentences[..n], sentences[n]);
      }
    }
  }

  /** When no more sentences are scored than may be kept, all of them are kept. */
  lemma AllKeptWhenFew(scores: map<int, int>, chosen: set<int>, count: nat)
    requires IsTop(scores, chosen, count) && |scores.Keys| <= count
    ensures chosen == scores.Keys
  {
    var left := scores.Keys - chosen;
    assert scores.Keys == chosen + left;
    assert left == {};
  }

  // ---------------------------------------------------------------------------------------------
  // The whole summariser, against a specification by comprehensions

  /** word_frequencies as a specification: every token of the text with its number of occurrences. */
  ghost function Frequencies(sentences: seq<string>): map<string, int> {
    map w | w in AllTokens(sentences) :: Occurrences(AllTokens(sentences), w)
  }

  /** sentence_scores as a specification: every sentence with a token, with the sum of its tokens'
      frequencies over the whole text. */
  ghost function ScoreTable(sentences: seq<string>): map<int, int> {
    map i | 0 <= i < |sentences| && Tokens(sentences[i]) != [] ::
      FrequencySum(Tokens(sentences[i]), Frequencies(sentences))
  }

  lemma {:induction false} OccursIffMember(tokens: seq<string>, w: string)
    ensures Occurrences(tokens, w) > 0 <==> w in tokens
    decreases |tokens|
  {
    if tokens != [] {
      var n := |tokens| - 1;
      OccursIffMember(tokens[..n], w);
      assert tokens == tokens[..n] + [tokens[n]];
    }
  }

  lemma {:induction false} TokensInAll(sentences: seq<string>, i: nat)
    requires i < |sentences|
    ensures forall w :: w in Tokens(sentences[i]) ==> w in AllTokens(sentences)
    decreases |sentences|
  {
    var n := |sentences| - 1;
    if i < n {
      TokensInAll(sentences[..n], i);
    }
  }

  /** The tally built by the loops is the specification's frequency table. */
  lemma TalliesAreFrequencies(freq: map<string, int>, sentences: seq<string>)
    requires Tallies(freq, AllTokens(sentences))
    ensures freq == Frequencies(sentences)
  {
    forall w {
      OccursIffMember(AllTokens(sentences), w);
    }
  }

  /** With the whole text tallied, every sentence with a token is scored. */
  lemma ScoresAreTable(scores: map<int, int>, sentences: seq<string>, freq: map<string, int>)
    requires Tallies(freq, AllTokens(sentences)) && ScoresOf(scores, sentences, freq)
    ensures scores == ScoreTable(sentences)
  {
    TalliesAreFrequencies(freq, sentences);
    forall i | 0 <= i < |sentences| && Tokens(sentences[i]) != []
      ensures AnyCounted(Tokens(sentences[i]), freq)
    {
      var w := Tokens(sentences[i])[0];
      TokensInAll(sentences, i);
      OccursIffMember(AllTokens(sentences), w);
    }
    var table := ScoreTable(sentences);
    assert scores.Keys == table.Keys;
    assert forall i :: i in scores ==> scores[i] == table[i];
  }

  /** `summary` is what summarize_text returns for `sentences`: as many sentences as the top
      count allows (never more than are scored), in text order, and the best-ranked ones. */
  ghost predicate IsSummary(sentences: seq<string>, summary: seq<string>) {
    && |summary| == Min(TopCount(|sentences|), |ScoreTable(sentences).Keys|)
    && IsSubseq(summary, sentences)
    && exists chosen :: IsTop(ScoreTable(sentences), chosen, TopCount(|sentences|))
                        && summary == Picked(sentences, chosen)
  }

  lemma PickedTopIsSummary(sentences: seq<string>, chosen: set<int>)
    requires IsTop(ScoreTable(sentences), chosen, TopCount(|sentences|))
    ensures IsSummary(sentences, Picked(sentences, chosen))
  {
    PickedLength(sentences, chosen);
    assert ChosenBelow(chosen, |sentences|) == chosen;
    PickedSubseq(sentences, chosen);
  }

  /** The final re-sort by index: the chosen sentences, in text order. */
  method InTextOrder(sentences: seq<string>, chosen: set<int>) returns (summary: seq<string>)
    ensures summary == Picked(sentences, chosen)
  {
    summary := [];
    var i := 0;
    while i < |sentences|
      invariant 0 <= i <= |sentences|
      invariant summary == Picked(sentences[..i], chosen)
    {
      assert sentences[..i + 1][..i] == sentences[..i];
      if i in chosen {
        summary := summary + [sentences[i]];
      }
      i := i + 1;
    }
    assert sentences[..i] == sentences;
  }

  /** summarize_text: the best max(int(0.3 n), 3) of the n sentences, in text order. */
  method SummarizeText(text: string) returns (summary: seq<string>)
    ensures IsSummary(SplitSentences(text), summary)
  {
    var sentences := SplitSentences(text);
    var freq := WordFrequencies(sentences);
    var scores := SentenceScores(sentences, freq);
    ScoresAreTable(scores, sentences, freq);
    var chosen := SelectTop(scores, |sentences|, TopCount(|sentences|));
    summary := InTextOrder(sentences, chosen);
    PickedTopIsSummary(sentences, chosen);
  }
}
