/** A counterexample to the single-keyword cause-effect branch of generate_flashcards: a sentence
    whose category is cause-effect and whose only keyword is "because", so that two of the five
    templates the branch draws from cannot be filled. */
module CauseEffectFinding {
  import opened Wrappers
  import opened Strings
  import opened Rules
  import opened QuestionGenerator

  /** A pattern holding a character the text lacks does not occur in it. */
  lemma AbsentBy(s: string, pat: string, c: char)
    requires c in pat && c !in s
    ensures !Contains(s, pat)
  {
    forall i | 0 <= i
      ensures !OccursAt(s, pat, i)
    {
      if i + |pat| <= |s| {
        var k :| 0 <= k < |pat| && pat[k] == c;
        assert s[i..i + |pat|][k] == s[i + k] != c;
      }
    }
  }

  /** A word followed by whitespace or the end is the first token. */
  lemma WordsOfWord(w: string, rest: string)
    requires IsWord(w) && (rest == [] || IsSpace(rest[0]))
    ensures Words(w + rest) == [w] + Words(rest)
  {
    var s := w + rest;
    var j := RunEnd(s, 0, c => !IsSpace(c));
    assert forall k :: 0 <= k < |w| ==> s[k] == w[k] && !IsSpace(s[k]);
    assert |w| < |s| ==> IsSpace(s[|w|]);
    assert j == |w|;
    assert s[..j] == w && s[j..] == rest;
  }

  /** A word and a space in front of the rest: the word, then the rest's tokens. */
  lemma WordsOfWordSpace(s: string, w: string, rest: string)
    requires IsWord(w) && s == w + " " + rest
    ensures Words(s) == [w] + Words(rest)
  {
    WordsOfWord(w, " " + rest);
    assert s == w + (" " + rest);
    assert (" " + rest)[1..] == rest;
    assert Words(" " + rest) == Words(rest);
  }

  lemma LowerOfLowercase(s: string)
    requires forall k :: 0 <= k < |s| ==> !('A' <= s[k] <= 'Z')
    ensures Lower(s) == s
  {
  }


  /** Words joined by single spaces split back into the same words. */
  lemma {:induction false} WordsOfJoin(ws: seq<string>)
    requires |ws| >= 1 && forall k :: 0 <= k < |ws| ==> IsWord(ws[k])
    ensures Words(Join(ws, ' ')) == ws
    decreases |ws|
  {
    if |ws| == 1 {
      WordsOfWord(ws[0], "");
      assert ws[0] + "" == ws[0];
    } else {
      WordsOfJoin(ws[1..]);
      assert Join(ws, ' ') == ws[0] + " " + Join(ws[1..], ' ');
      WordsOfWordSpace(Join(ws, ' '), ws[0], Join(ws[1..], ' '));
    }
  }

  const CrashWords: seq<string> := ["we", "go", "out", "because", "we", "can."]

  /** A cause-effect sentence whose only keyword is "because": "we go out because we can." */
  const CrashSentence: string := Join(CrashWords, ' ')

  lemma CrashSentenceWords()
    ensures Words(CrashSentence) == CrashWords
  {
    WordsOfJoin(CrashWords);
  }

  /** The sentence, spelled out. */
  lemma CrashSentenceText()
    ensures CrashSentence == "we go out" + " because " + "we can."
  {
    assert Join(CrashWords[4..], ' ') == "we can.";
    assert Join(CrashWords[3..], ' ') == "because" + " " + "we can.";
    assert Join(CrashWords[2..], ' ') == "out" + " " + "because we can.";
    assert Join(CrashWords[1..], ' ') == "go" + " " + "out because we can.";
  }

  /** The letters the sentence avoids, each found in some earlier pattern. */
  lemma CrashSentenceLacks(c: char)
    requires c == 'i' || c == 'r' || c == 'p' || c == 'h' || c == 'v'
    ensures c !in CrashSentence
  {
    JoinAll(CrashWords, ' ', x => x != c);
  }

  /** A property of the separator and of every character of every word holds of every
      character of the joined text. */
  lemma {:induction false} JoinAll(ws: seq<string>, sep: char, p: char -> bool)
    requires p(sep) && forall k, i :: 0 <= k < |ws| && 0 <= i < |ws[k]| ==> p(ws[k][i])
    ensures forall i :: 0 <= i < |Join(ws, sep)| ==> p(Join(ws, sep)[i])
    decreases |ws|
  {
    if |ws| > 1 {
      JoinAll(ws[1..], sep, p);
      var rest := Join(ws[1..], sep);
      assert Join(ws, sep) == ws[0] + [sep] + rest;
      forall i | 0 <= i < |Join(ws, sep)|
        ensures p(Join(ws, sep)[i])
      {
        if i > |ws[0]| {
          assert Join(ws, sep)[i] == rest[i - |ws[0]| - 1];
          assert ws[1..][0] == ws[1];
        }
      }
    }
  }

  lemma CrashSentenceLower()
    ensures Lower(CrashSentence) == CrashSentence
  {
    JoinAll(CrashWords, ' ', x => !('A' <= x <= 'Z'));
    LowerOfLowercase(CrashSentence);
  }

  /** No pattern occurs when each holds a character the text lacks: cs[k] for patterns[k]. */
  lemma NoneIn(patterns: seq<string>, text: string, cs: seq<char>)
    requires |cs| == |patterns|
    requires forall k :: 0 <= k < |patterns| ==> cs[k] in patterns[k] && cs[k] !in text
    ensures !AnyIn(patterns, text)
  {
    forall k | 0 <= k < |patterns|
      ensures !Contains(text, patterns[k])
    {
      AbsentBy(text, patterns[k], cs[k]);
    }
  }

  lemma NotDefinitionWithout(text: string)
    requires 'i' !in text && 'r' !in text
    ensures !AnyIn(CategoryRules[0].patterns, text)
  {
    NoneIn(CategoryRules[0].patterns, text, ['i', 'r', 'r']);
  }

  lemma NotProcessWithout(text: string)
    requires 'p' !in text && 'h' !in text
    ensures !AnyIn(CategoryRules[1].patterns, text)
  {
    NoneIn(CategoryRules[1].patterns, text, ['p', 'p', 'p', 'h']);
  }

  lemma NotComparisonWithout(text: string)
    requires 'h' !in text && 'v' !in text && 'p' !in text
    ensures !AnyIn(CategoryRules[2].patterns, text)
  {
    NoneIn(CategoryRules[2].patterns, text, ['h', 'v', 'p', 'h']);
  }

  lemma CauseEffectAround(before: string, after: string)
    ensures AnyIn(CategoryRules[3].patterns, before + " because " + after)
  {
    ContainsInfix(before, " because ", after);
    assert CategoryRules[3].patterns[0] == " because ";
  }

  /** A lower-case text with " because " in it, and none of the letters the earlier rules'
      patterns all need, is a cause-effect sentence. */
  lemma CauseEffectWithout(text: string, before: string, after: string)
    requires text == before + " because " + after && Lower(text) == text
    requires 'i' !in text && 'r' !in text && 'p' !in text && 'h' !in text && 'v' !in text
    ensures Category(text) == CauseEffect
  {
    NotDefinitionWithout(text);
    NotProcessWithout(text);
    NotComparisonWithout(text);
    CauseEffectAround(before, after);
    assert FirstMatchAt(CategoryRules, Lower(text), 3);
  }

  lemma CrashSentenceCategory()
    ensures Category(CrashSentence) == CauseEffect
  {
    CrashSentenceLower();
    CrashSentenceLacks('i');
    CrashSentenceLacks('r');
    CrashSentenceLacks('p');
    CrashSentenceLacks('h');
    CrashSentenceLacks('v');
    CrashSentenceText();
    CauseEffectWithout(CrashSentence, "we go out", "we can.");
  }

  lemma KeywordsOfBecause()
    ensures Keywords(["because"]) == ["because"]
  {
    StripNothing("because", IsStrippedPunct);
    LowerOfLowercase("because");
    assert ["because"][1..] == [];
  }

  lemma CrashSentenceKeywords()
    ensures Keywords(Words(CrashSentence)) == ["because"]
  {
    CrashSentenceWords();
    var before: seq<string> := ["we", "go", "out"];
    var after: seq<string> := ["we", "can."];
    assert CrashWords == before + (["because"] + after);
    assert Keywords(before) == [];
    assert Keywords(after) == [];
    KeywordsOfBecause();
    KeywordsAppend(["because"], after);
    KeywordsAppend(before, ["because"] + after);
  }

  /** app.py raises IndexError on this sentence whenever random.choice picks template 2 or 3 of
      the cause-effect list: they have two placeholders and the branch passes one keyword. The
      corrected question exists for the same choice. */
  lemma CauseEffectCrash()
    ensures Keywords(Words(CrashSentence)) == ["because"]
    ensures Category(CrashSentence) == CauseEffect
    ensures QuestionAsWritten(CrashSentence, ["because"], "because", 2) == None
    ensures QuestionAsWritten(CrashSentence, ["because"], "because", 3) == None
    ensures Question(CrashSentence, ["because"], "because", 2) == "What happens when because?"
  {
    CrashSentenceKeywords();
    CrashSentenceCategory();
    CorrectedOneCause();
  }

  lemma CorrectedOneCause()
    ensures Ask(CauseEffect, ["because"], "because", 2) == "What happens when because?"
  {
    FillableForOneCause();
    var plan := Plan(CauseEffect, ["because"], "because");
    assert plan == (CauseEffectTemplates, ["because"]);
    assert Ask(CauseEffect, ["because"], "because", 2) == Format(CauseEffectTemplates[4], ["because"]).value;
    assert Fill(["What happens when ", "?"], ["because"]) == "What happens when " + "because" + "?";
  }
}
