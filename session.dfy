/** The flashcard page's state and its event handlers, with the page rendering left out: the
    cards being studied and the cursor over them, the saved decks, and the study streak.
    Network outcomes, dialog answers, clocks and random rolls are parameters of the handlers. */
module Session {
  import opened Wrappers
  import opened Strings
  import opened Cards
  import opened DeckStore
  import opened Study
  import opened Themes
  import ClientGenerator

  /** The severity of the toast a handler leaves on screen (showNotification's type; a later
      toast replaces an earlier one). */
  datatype Notice = Success | Warning | Error

  class FlashcardApp {
    var currentFlashcards: seq<Card>
    var currentCardIndex: int
    var savedDecks: seq<Deck>
    var streakCount: int
    /** The last study day as the page read it from storage when it loaded; no handler assigns it. */
    var lastStudied: Option<int>
    /** What local storage holds under streakCount and lastStudied. */
    var storedStreak: int
    var storedLastStudied: Option<int>

    /** The cursor is never negative and points at a card whenever there are cards. */
    ghost predicate Valid()
      reads this
    {
      0 <= currentCardIndex && (|currentFlashcards| > 0 ==> currentCardIndex < |currentFlashcards|)
    }

    /** The page's start-up: the state read from local storage (a missing streak reads as 0),
        then renderSavedDecks with the fetch outcome `fetched` and updateStreakCount on `today`.
        This first update of a page load applies the streak rule to what storage held. */
    constructor (decks: seq<Deck>, streak: int, last: Option<int>, today: int, fetched: Option<seq<Deck>>)
      ensures Valid()
      ensures currentFlashcards == [] && currentCardIndex == 0
      ensures savedDecks == if fetched.Some? then MergeDecks(fetched.value, decks) else decks
      ensures lastStudied == last
      ensures streakCount == StudyOn(Streak(streak, last), today).count
      ensures Streak(storedStreak, storedLastStudied) == StudyOn(Streak(streak, last), today)
    {
      currentFlashcards := [];
      currentCardIndex := 0;
      savedDecks := decks;
      streakCount := streak;
      lastStudied := last;
      storedStreak := streak;
      storedLastStudied := last;
      new;
      RenderSavedDecks(fetched);
      UpdateStreakCount(today);
    }

    /** showNextCard: one card on, or the completion signal at the last card. */
    method ShowNextCard() returns (completed: bool)
      requires Valid()
      modifies this`currentCardIndex
      ensures Valid()
      ensures currentCardIndex == NextCursor(old(currentCardIndex), |currentFlashcards|)
      ensures completed == CompletesOnNext(old(currentCardIndex), |currentFlashcards|)
    {
      if currentCardIndex < |currentFlashcards| - 1 {
        currentCardIndex := currentCardIndex + 1;
        completed := false;
      } else {
        completed := true;
      }
    }

    /** showPreviousCard: one card back, nothing at the first card. */
    method ShowPreviousCard()
      requires Valid()
      modifies this`currentCardIndex
      ensures Valid()
      ensures currentCardIndex == PreviousCursor(old(currentCardIndex))
    {
      if currentCardIndex > 0 {
        currentCardIndex := currentCardIndex - 1;
      }
    }

    /** renderFlashcards: back to the first card, unless there is no card. */
    method RenderFlashcards()
      requires 0 <= currentCardIndex
      modifies this`currentCardIndex
      ensures Valid()
      ensures currentCardIndex == if |currentFlashcards| == 0 then old(currentCardIndex) else 0
    {
      if |currentFlashcards| == 0 {
        return;
      }
      currentCardIndex := 0;
    }

    /** The "Start Over" button of the completion message. */
    method RestartDeck()
      requires Valid()
      modifies this`currentCardIndex
      ensures Valid() && currentCardIndex == 0
    {
      currentCardIndex := 0;
    }

    /** resetToInputSection ("New Deck"): the cards are dropped; the saved decks stay. */
    method ResetToInputSection()
      requires Valid()
      modifies this`currentFlashcards
      ensures Valid() && currentFlashcards == []
    {
      currentFlashcards := [];
    }

    /** One run of updateStreakCount on `today`, from page count `count` and stored streak
        `stored`: the page count follows the streak rule measured against the page's lastStudied,
        and storage receives the result unless the page's lastStudied is already today. */
    ghost predicate StreakUpdated(count: int, stored: Streak, today: int)
      reads this`streakCount, this`lastStudied, this`storedStreak, this`storedLastStudied
    {
      var r := StudyOn(Streak(count, lastStudied), today);
      && streakCount == r.count
      && Streak(storedStreak, storedLastStudied) == (if lastStudied == Some(today) then stored else r)
    }

    /** updateStreakCount on day `today`, as written: the page's lastStudied stays what the page
        loaded, so later runs on the same day compare with that stale day (see
        Study.StaleStreakInflates). */
    method UpdateStreakCount(today: int)
      modifies this`streakCount, this`storedStreak, this`storedLastStudied
      ensures StreakUpdated(old(streakCount), old(Streak(storedStreak, storedLastStudied)), today)
    {
      if lastStudied.Some? {
        if lastStudied.value == today {
        } else if lastStudied.value == today - 1 {
          streakCount := streakCount + 1;
          storedStreak := streakCount;
          storedLastStudied := Some(today);
        } else {
          streakCount := 1;
          storedStreak := streakCount;
          storedLastStudied := Some(today);
        }
      } else {
        streakCount := 1;
        storedStreak := streakCount;
        storedLastStudied := Some(today);
      }
    }

    /** applyDynamicThemes: every card gets the theme its text calls for; questions, answers and
        the order of the cards stay. */
    method ApplyDynamicThemes()
      modifies this`currentFlashcards
      ensures |currentFlashcards| == |old(currentFlashcards)|
      ensures forall i :: 0 <= i < |currentFlashcards| ==>
                && currentFlashcards[i].question == old(currentFlashcards)[i].question
                && currentFlashcards[i].answer == old(currentFlashcards)[i].answer
                && currentFlashcards[i].theme.Some?
                && IsThemeFor(CombinedText(currentFlashcards[i]), currentFlashcards[i].theme.value)
    {
      var i := 0;
      while i < |currentFlashcards|
        invariant 0 <= i <= |currentFlashcards| == |old(currentFlashcards)|
        invariant forall j :: i <= j < |currentFlashcards| ==> currentFlashcards[j] == old(currentFlashcards)[j]
        invariant forall j :: 0 <= j < i ==>
                    && currentFlashcards[j].question == old(currentFlashcards)[j].question
                    && currentFlashcards[j].answer == old(currentFlashcards)[j].answer
                    && currentFlashcards[j].theme.Some?
                    && IsThemeFor(CombinedText(currentFlashcards[j]), currentFlashcards[j].theme.value)
      {
        var card := currentFlashcards[i];
        var theme := DetectTheme(CombinedText(card));
        currentFlashcards := currentFlashcards[i := card.(theme := Some(theme))];
        i := i + 1;
      }
    }

    /** The cards shown are `generated`, each with its question and answer kept and the theme
        its text calls for. */
    ghost predicate Shows(generated: seq<Card>)
      reads this
    {
      && |currentFlashcards| == |generated|
      && forall i :: 0 <= i < |generated| ==>
           && currentFlashcards[i].question == generated[i].question
           && currentFlashcards[i].answer == generated[i].answer
           && currentFlashcards[i].theme.Some?
           && IsThemeFor(CombinedText(currentFlashcards[i]), currentFlashcards[i].theme.value)
    }

    /** The tail both branches of generateFlashcards share: take the cards, theme them, show the
        first. */
    method ShowGenerated(generated: seq<Card>)
      requires Valid()
      modifies this`currentFlashcards, this`currentCardIndex
      ensures Valid() && Shows(generated)
      ensures currentCardIndex == if generated == [] then old(currentCardIndex) else 0
    {
      currentFlashcards := generated;
      ApplyDynamicThemes();
      RenderFlashcards();
    }

    /** The cards a request for the trimmed text yields: the server's answer, or the page's own
        cards when the request fails (`response` is None). */
    static function Generated(trimmed: string, response: Option<seq<Card>>,
                              keyRoll: nat -> nat, templateRoll: nat -> nat): seq<Card>
    {
      if response.Some? then response.value else ClientGenerator.ClientSideGenerate(trimmed, keyRoll, templateRoll)
    }

    /** generateFlashcards past its blank-text check, for the trimmed text: counts a study day
        and shows the cards. The notice is the toast left on screen: none on success; on a failed
        request the fallback warning, which clientSideGenerateFlashcards replaces with its error
        when the text has no sentence to match. */
    method GenerateFrom(trimmed: string, today: int, response: Option<seq<Card>>,
                        keyRoll: nat -> nat, templateRoll: nat -> nat)
      returns (notice: Option<Notice>)
      requires Valid()
      modifies this`currentFlashcards, this`currentCardIndex, this`streakCount,
               this`storedStreak, this`storedLastStudied
      ensures Valid()
      ensures StreakUpdated(old(streakCount), old(Streak(storedStreak, storedLastStudied)), today)
      ensures Shows(Generated(trimmed, response, keyRoll, templateRoll))
      ensures currentCardIndex == if Generated(trimmed, response, keyRoll, templateRoll) == []
                                  then old(currentCardIndex) else 0
      ensures notice == if response.Some? then None
                        else if ClientGenerator.SentenceMatches(trimmed) == [] then Some(Error)
                        else Some(Warning)
    {
      UpdateStreakCount(today);
      notice := None;
      if response.None? {
        notice := Some(Warning);
      }
      ShowGenerated(Generated(trimmed, response, keyRoll, templateRoll));
      if response.None? && ClientGenerator.SentenceMatches(trimmed) == [] {
        notice := Some(Error);
      }
    }

    /** generateFlashcards: refuses blank text; otherwise counts a study day, takes the server's
        cards (or, when the request fails, those of the page's own generator), themes them and
        shows the first. `response` is the server's answer, None when the request fails. */
    method GenerateFlashcards(text: string, today: int, response: Option<seq<Card>>,
                              keyRoll: nat -> nat, templateRoll: nat -> nat)
      returns (notice: Option<Notice>)
      requires Valid()
      modifies this`currentFlashcards, this`currentCardIndex, this`streakCount,
               this`storedStreak, this`storedLastStudied
      ensures Valid()
      ensures Trim(text) == [] ==> notice == Some(Error) && unchanged(this)
      ensures Trim(text) != [] ==>
                && StreakUpdated(old(streakCount), old(Streak(storedStreak, storedLastStudied)), today)
                && Shows(Generated(Trim(text), response, keyRoll, templateRoll))
                && currentCardIndex == (if Generated(Trim(text), response, keyRoll, templateRoll) == []
                                        then old(currentCardIndex) else 0)
                && notice == (if response.Some? then None
                              else if ClientGenerator.SentenceMatches(Trim(text)) == [] then Some(Error)
                              else Some(Warning))
      ensures savedDecks == old(savedDecks)
    {
      var trimmed := Trim(text);
      if trimmed == [] {
        return Some(Error);
      }
      notice := GenerateFrom(trimmed, today, response, keyRoll, templateRoll);
    }

    /** saveCurrentDeck: refused without cards; a cancelled or empty name saves nothing;
        otherwise exactly one deck is appended, carrying the server's id when the server stored
        it (`serverId`) and `now` (Date.now()) when it did not. `created` and `studied` are the
        two separate clock reads for its creation and last-study times. */
    method SaveCurrentDeck(deckName: Option<string>, serverId: Option<int>, now: int,
                           created: Timestamp, studied: Timestamp)
      returns (notice: Option<Notice>)
      modifies this`savedDecks
      ensures |currentFlashcards| == 0 ==> notice == Some(Error) && savedDecks == old(savedDecks)
      ensures |currentFlashcards| > 0 && (deckName == None || deckName == Some([])) ==>
                notice == None && savedDecks == old(savedDecks)
      ensures |currentFlashcards| > 0 && deckName.Some? && deckName.value != [] ==>
                && savedDecks == old(savedDecks) + [Deck(if serverId.Some? then serverId.value else now,
                                                        deckName.value, currentFlashcards, created, studied)]
                && notice == Some(if serverId.Some? then Success else Warning)
    {
      if |currentFlashcards| == 0 {
        return Some(Error);
      }
      if deckName == None || deckName == Some([]) {
        return None;
      }
      var newDeck := Deck(now, deckName.value, currentFlashcards, created, studied);
      if serverId.Some? {
        newDeck := newDeck.(id := serverId.value);
        savedDecks := savedDecks + [newDeck];
        notice := Some(Success);
      } else {
        savedDecks := savedDecks + [newDeck];
        notice := Some(Warning);
      }
    }

    /** renderSavedDecks: on a successful fetch the list becomes the merge of the server's decks
        and the local-only ones; on a failed fetch it stays as it is. */
    method RenderSavedDecks(fetched: Option<seq<Deck>>)
      modifies this`savedDecks
      ensures savedDecks == if fetched.Some? then MergeDecks(fetched.value, old(savedDecks)) else old(savedDecks)
    {
      if fetched.Some? {
        var serverDeckIds := Ids(fetched.value);
        var localOnlyDecks := Exclude(savedDecks, serverDeckIds);
        savedDecks := fetched.value + localOnlyDecks;
      }
    }

    /** updateDeckStudyTime's local part: the first deck with the id gets `now` as its
        lastStudied (the server update is fire-and-forget). */
    method UpdateDeckStudyTime(deckId: int, now: Timestamp)
      modifies this`savedDecks
      ensures savedDecks == TouchDeck(old(savedDecks), deckId, now)
    {
      var deckIndex := FindDeck(savedDecks, deckId);
      if deckIndex.Some? {
        savedDecks := savedDecks[deckIndex.value := savedDecks[deckIndex.value].(lastStudied := now)];
      }
    }

    /** loadDeck: studies the first deck with the id, touching its study time and the streak;
        an unknown id changes nothing. */
    method LoadDeck(deckId: int, now: Timestamp, today: int) returns (notice: Notice)
      requires Valid()
      modifies this
      ensures Valid()
      ensures FindDeck(old(savedDecks), deckId).None? ==> notice == Error && unchanged(this)
      ensures lastStudied == old(lastStudied)
      ensures FindDeck(old(savedDecks), deckId).Some? ==>
                && notice == Success
                && currentFlashcards == old(savedDecks)[FindDeck(old(savedDecks), deckId).value].cards
                && currentCardIndex == (if currentFlashcards == [] then old(currentCardIndex) else 0)
                && savedDecks == TouchDeck(old(savedDecks), deckId, now)
                && StreakUpdated(old(streakCount), old(Streak(storedStreak, storedLastStudied)), today)
    {
      var found := FindDeck(savedDecks, deckId);
      if found.None? {
        return Error;
      }
      currentFlashcards := savedDecks[found.value].cards;
      RenderFlashcards();
      UpdateDeckStudyTime(deckId, now);
      UpdateStreakCount(today);
      notice := Success;
    }

    /** deleteDeck: after confirmation, every deck with the id is removed whether the server
        deletes it (`serverOk`) or not; only the toast differs. */
    method DeleteDeck(deckId: int, confirmed: bool, serverOk: bool) returns (notice: Option<Notice>)
      modifies this`savedDecks
      ensures !confirmed ==> notice == None && savedDecks == old(savedDecks)
      ensures confirmed ==> savedDecks == RemoveDeck(old(savedDecks), deckId)
                            && notice == Some(if serverOk then Success else Warning)
    {
      if !confirmed {
        return None;
      }
      if serverOk {
        savedDecks := Exclude(savedDecks, {deckId});
        notice := Some(Success);
      } else {
        savedDecks := Exclude(savedDecks, {deckId});
        notice := Some(Warning);
      }
    }
  }
}
