# Study and media widgets: a verified model

This project models the logic of four small browser apps:

- **Flashcard maker** (`flashcards-maker/script.js`, `flashcards-maker/app.py`). A page turns pasted text into question/answer cards.
  - The server summarises the text (`summarize_text`) and writes exam-style questions about the summary (`generate_flashcards`).
  - When the server cannot be reached, the page generates cards itself (`clientSideGenerateFlashcards`).
  - The page also has:
    - a card cursor with next/previous and a completion signal;
    - a daily study streak;
    - subject themes for cards;
    - a five-step progress tracker;
    - a list of saved decks, kept locally and merged with the server's list.
- **Music player** (`spotify-proj/script.js`). Next and previous buttons move a song index over a fixed table of five songs.
- **Attendance tracker** (`attendance-tracker/script.js`). The mark-present and mark-absent buttons record the ticked attendees in a pending batch. Saving turns the batch into records placed above the earlier history.

Module layout:

| Module | What it holds |
|---|---|
| `Wrappers`, `Strings`, `Seqs`, `Rules` | Shared helpers: Option, ASCII whitespace and lower-casing, substring search, JS `trim`, Python `split()`, subsequences, first-match keyword rules. |
| `Cards` | The card and deck values. |
| `Study` | Cursor and streak rules, as functions. |
| `DeckStore` | Deck-list merge, filter, find and touch. |
| `Themes` | Subject detection. |
| `Progress` | The step thresholds. |
| `ClientGenerator` | The page's fallback generator. |
| `Session` | The page's state as a class whose methods are the event handlers. |
| `Summarizer` | `summarize_text`. |
| `QuestionGenerator` | `generate_flashcards`. |
| `CauseEffectFinding` | A sentence on which `generate_flashcards` fails as written. |
| `Playlist` | The player's index state machine. |
| `Attendance` | The tracker's state and handlers. |

Imperative code is modelled imperatively:

- **Loops.** The Python loops that build dictionaries and lists, the theme loop and the attendance loops are `while`/`for` loops. Each is proved against a specification function or predicate.
- **Handlers.** Handlers that reassign page-level variables are methods of a class with those variables as fields.
- **Pure code.** The pure parts are functions with lemmas: the merge expression, the client-side generator and the step thresholds.

Treatment of side inputs:

- **Inputs that become parameters:**
  - fetch outcomes, as an `Option` (None when the request fails);
  - dialog answers (`prompt`, `confirm`);
  - clock readings (calendar days are consecutive integers, so "yesterday" is `today - 1`);
  - the date picker's value and the ticked checkboxes.
- **Random choices.** `Math.random` becomes roll functions. Python's `random.choice` becomes a nondeterministic `:|` choice.

## Model

| member | source | states |
|---|---|---|
| Study.NavigationStaysInDeck | flashcards-maker/script.js:353-369 | From any card of a non-empty deck, any run of next/previous presses keeps the cursor on a card. |
| Study.NextWalksDeck | flashcards-maker/script.js:361-365 | Below the last card, each press of next moves the cursor one card on and never signals completion. |
| Study.NextAtLastCard | flashcards-maker/script.js:366-369 | At the last card, next leaves the cursor where it is and signals completion on every press. |
| Study.CompletionOnLastPress | flashcards-maker/script.js:361-369 | From the first card of an n-card deck, n-1 presses reach the last card without completing it; the n-th press completes it exactly once. |
| Study.PressNextSplit | flashcards-maker/script.js:361-369 | Pressing next a+b times is pressing it a times and then b times, with the completions added up. |
| Study.StudyOn | flashcards-maker/script.js:91-117 | The streak's day becomes today. Studying again today leaves the streak unchanged. Studying the day after extends it by one. Any other case (first use, or a gap) restarts it at 1. |
| Study.StudySameDayTwice | flashcards-maker/script.js:99-100 | Under the corrected rule, where the last-studied day that the next update compares with is the day just stored, updating the streak twice on one day is the same as once. |
| Study.SameDayStudiesOnce | flashcards-maker/script.js:91-117 | Under the corrected rule, any number (at least one) of updates on one day give the streak of a single update. |
| Study.StaleStreakInflates | flashcards-maker/script.js:91-117 | As written, a page loaded the day after the last study day keeps that day as its lastStudied (read once, at line 23), so each of n updates in the visit adds one and the count reaches count + n. For n of at least 2 this differs from the corrected rule. |
| Study.ConsecutiveDaysStreak | flashcards-maker/script.js:91-117 | After a break, one update on each of n consecutive days gives a streak of exactly n, last studied on the n-th day. This is the rule as corrected, and also what storage holds when each day's first update is the one at page load. |
| Study.StreakContinues | flashcards-maker/script.js:101-105 | A streak last extended yesterday grows by one for each further consecutive day with one update, under the same reading as ConsecutiveDaysStreak. |
| DeckStore.Exclude | flashcards-maker/script.js:529 | The filter keeps exactly the decks whose id is not excluded, in their original order. It never lengthens the list, and keeps the length exactly when no deck has an excluded id. |
| DeckStore.ExcludeCount | flashcards-maker/script.js:529 | The filter keeps every copy of each deck whose id is not excluded, and no copy of any other. |
| DeckStore.ExcludeAppend | flashcards-maker/script.js:529 | Filtering distributes over concatenation. |
| DeckStore.ExcludeKeepsAll | flashcards-maker/script.js:529 | Filtering out ids a list does not use changes nothing. |
| DeckStore.ExcludeDropsAll | flashcards-maker/script.js:529 | Filtering out every id a list uses leaves nothing. |
| DeckStore.ExcludeUnique | flashcards-maker/script.js:529 | Filtering keeps ids distinct. |
| DeckStore.MergeDecks | flashcards-maker/script.js:528-532 | The merged list is the server's decks, in order, followed by exactly the local decks whose id the server lacks, in their local order. Its length is the sum of both lengths exactly when no local deck has an id the server has. |
| DeckStore.MergeCount | flashcards-maker/script.js:528-532 | Each deck occurs in the merge as often as in the server list, plus as often as in the local list when the server lacks its id. |
| DeckStore.MergeIdempotent | flashcards-maker/script.js:528-535 | Merging the same server list into an already merged list changes nothing. |
| DeckStore.MergeUnique | flashcards-maker/script.js:528-532 | If the server list and the local list each have distinct ids, so does the merge. |
| DeckStore.RemoveDeck | flashcards-maker/script.js:666 | Deleting removes every deck with the id and keeps every other deck, in order. The length is unchanged exactly when no deck has the id. |
| DeckStore.RemoveCount | flashcards-maker/script.js:666 | Deleting keeps every copy of every deck with another id, and none with the id. |
| DeckStore.FindDeck | flashcards-maker/script.js:627 | The result is the first index whose deck has the id. It is None exactly when no deck has the id. |
| DeckStore.TouchDeck | flashcards-maker/script.js:627-631 | Only the first deck with the id changes, and only its lastStudied, which becomes the new timestamp. The length and every other deck stay the same. |
| Themes.DetectTheme | flashcards-maker/script.js:225-233 | The theme is the first subject in table order with a keyword in the lower-cased text, or "default" when there is none. |
| Themes.ThemeDetermined | flashcards-maker/script.js:213-235 | A card's text determines its theme: two themes that both fit the text are equal. |
| Progress.CompletedSteps | flashcards-maker/script.js:273-288 | There are five steps. Completed steps form a prefix. The first step is completed exactly when the percentage is at least 0, and the last exactly when it reaches 100. |
| Progress.StepsMonotone | flashcards-maker/script.js:279-284 | A higher percentage never un-completes a step. |
| ClientGenerator.SentenceMatches | flashcards-maker/script.js:695 | Every match of /[^.!?]+[.!?]+/g is a run of non-terminators followed by a run of terminators. |
| ClientGenerator.MatchesCoverText | flashcards-maker/script.js:695 | Concatenated, the matches are the text minus a leading run of terminators and a trailing piece with no terminator. |
| ClientGenerator.NoTerminatorNoMatch | flashcards-maker/script.js:695-700 | Text with no terminator has no match. |
| ClientGenerator.KeyTermsExist | flashcards-maker/script.js:716-717 | There is a key term exactly when some word is longer than five characters. |
| ClientGenerator.KeyTermsFrom | flashcards-maker/script.js:716-717 | Each key term is a word longer than five characters with the punctuation class removed. |
| ClientGenerator.Template | flashcards-maker/script.js:728-736 | Each of the five question templates contains the key term. |
| ClientGenerator.CardFor | flashcards-maker/script.js:706-741 | A sentence gives a card exactly when, once trimmed, it has at least five space-separated pieces and one piece longer than five characters. The card's answer is the trimmed sentence, and its question contains one of the sentence's key terms: one of the five templates filled with one of them. |
| ClientGenerator.CardsFromSpec | flashcards-maker/script.js:703-742 | The answers of the cards are exactly the qualifying trimmed sentences, in order. Every card has a non-empty question and answer and no theme. |
| ClientGenerator.CardsFromTemplated | flashcards-maker/script.js:703-742 | Every card's question is one of the five templates filled with a key term of its answer. |
| ClientGenerator.ClientSideGenerate | flashcards-maker/script.js:693-743 | At most ten cards. Their answers are exactly the qualifying sentences among the first ten matches, in order. Every card has a non-empty question and answer and no theme, and its question is one of the five templates filled with a key term of its answer. |
| ClientGenerator.NoTerminatorNoCards | flashcards-maker/script.js:695-700 | Text with no sentence terminator gives no card. |
| Session.FlashcardApp.constructor | flashcards-maker/script.js:17-27 | The page opens with no cards and the cursor at 0. The saved decks are the stored ones, merged with the server's when the fetch succeeds. The page keeps the stored last-studied day. The first streak update applies the streak rule to the stored streak, and storage and the page count hold the result. |
| Session.FlashcardApp.ShowNextCard | flashcards-maker/script.js:361-369 | The cursor moves by the next-card rule. The completion signal is returned exactly when the cursor was at the last card. The cursor stays valid. |
| Session.FlashcardApp.ShowPreviousCard | flashcards-maker/script.js:353-358 | The cursor moves one card back, or stays at 0. It stays valid. |
| Session.FlashcardApp.RenderFlashcards | flashcards-maker/script.js:291-299 | The cursor goes back to 0 unless there are no cards, in which case it is left as it was. |
| Session.FlashcardApp.RestartDeck | flashcards-maker/script.js:398-402 | "Start Over" puts the cursor on the first card. |
| Session.FlashcardApp.ResetToInputSection | flashcards-maker/script.js:685-690 | "New Deck" empties the current cards. |
| Session.FlashcardApp.UpdateStreakCount | flashcards-maker/script.js:91-117 | The page count becomes the streak rule applied to the old count and the page's last-studied day. Storage receives the new count and today, except when that day is already today, when storage is left alone. The page's last-studied day never changes. |
| Session.FlashcardApp.ApplyDynamicThemes | flashcards-maker/script.js:213-235 | Every card gets the theme its text calls for. Questions, answers and card order are unchanged. |
| Session.FlashcardApp.ShowGenerated | flashcards-maker/script.js:180-183 | The cards shown are the given ones, each with its question and answer kept and the theme its text calls for. The cursor is reset unless there are no cards. |
| Session.FlashcardApp.GenerateFrom | flashcards-maker/script.js:163-201 | For non-blank text: the streak is updated as UpdateStreakCount states, and the server's cards (or the client-side cards) are shown, each with the theme its text calls for. The toast left on screen is none on success. On a failed request it is the warning, or the client-side generator's error when the text has no sentence match. |
| Session.FlashcardApp.GenerateFlashcards | flashcards-maker/script.js:149-210 | Blank text gives an error and changes nothing. Otherwise the streak is updated as UpdateStreakCount states. The cards become the server's cards (or, when the request fails, the client-side cards of the trimmed text), each with the theme its text calls for. The cursor is reset. The toast left on screen is none on success; on a failed request it is the warning, or the error when the trimmed text has no sentence match. |
| Session.FlashcardApp.SaveCurrentDeck | flashcards-maker/script.js:457-514 | No cards gives an error. A cancelled or empty name saves nothing. Otherwise exactly one deck is appended: the server's id with success, or Date.now() with a warning. The deck's created and last-studied times are the two clock reads, taken separately. |
| Session.FlashcardApp.RenderSavedDecks | flashcards-maker/script.js:517-545 | A successful fetch replaces the decks with the merge. A failed fetch leaves them as they are. |
| Session.FlashcardApp.UpdateDeckStudyTime | flashcards-maker/script.js:623-631 | The deck list becomes the touched list. |
| Session.FlashcardApp.LoadDeck | flashcards-maker/script.js:598-620 | An unknown id gives an error and changes nothing. A known id: the first deck with that id is studied, the cursor is reset, the deck's study time is touched, and the streak is updated as UpdateStreakCount states. The page's last-studied day is unchanged either way. |
| Session.FlashcardApp.DeleteDeck | flashcards-maker/script.js:649-682 | Not confirmed: nothing changes. Confirmed: the deck is removed whether or not the server succeeded. Only the notice severity differs. |
| Summarizer.FirstBreak | flashcards-maker/app.py:29 | The first position from which the split pattern matches (whitespace right after . ! or ?), or None when there is none. |
| Summarizer.SplitParts | flashcards-maker/app.py:29 | The pieces and the separators rejoin to the text. No piece contains a break. Every non-last piece ends with a terminator. Every separator is a non-empty run of whitespace, taken whole: no later piece starts with whitespace. |
| Summarizer.SplitSentences | flashcards-maker/app.py:29 | Splitting always yields at least one sentence, even for empty text. |
| Summarizer.TalliesAdd | flashcards-maker/app.py:35-38 | Adding a word to the tally (insert at 1 or increment) keeps the tally exact for the extended word list. |
| Summarizer.WordFrequencies | flashcards-maker/app.py:32-38 | Each word of the lower-cased text is a key exactly when it occurs, and its value is its number of occurrences. |
| Summarizer.TalliesAreFrequencies | flashcards-maker/app.py:32-38 | An exact tally is the frequency table of the sentences. |
| Summarizer.FrequencySumAtLeastLength | flashcards-maker/app.py:41-48 | When every word of a sentence is counted, its score is at least its number of words. |
| Summarizer.SentenceScores | flashcards-maker/app.py:41-48 | A sentence has a score exactly when one of its words is in the frequency table. The score is the sum of its words' frequencies. |
| Summarizer.ScoresAreTable | flashcards-maker/app.py:41-48 | Over the exact frequency table, the scores are the specification's score table. |
| Summarizer.SelectTop | flashcards-maker/app.py:51-52 | Exactly min(top_n, number of scored sentences) are chosen. Every chosen sentence outranks every unchosen one: a higher score, or an equal score and an earlier position, as Python's stable descending sort orders them. |
| Summarizer.AllKeptWhenFew | flashcards-maker/app.py:51-52 | When at most top_n sentences are scored, all of them are kept. |
| Summarizer.PickedLength | flashcards-maker/app.py:53 | Reordering by index keeps exactly one sentence per chosen index. |
| Summarizer.PickedSubseq | flashcards-maker/app.py:53 | The summary lists its sentences in text order. |
| Summarizer.InTextOrder | flashcards-maker/app.py:53 | The loop yields the chosen sentences in index order. |
| Summarizer.PickedTopIsSummary | flashcards-maker/app.py:50-53 | A top selection, put in text order, is a summary. |
| Summarizer.SummarizeText | flashcards-maker/app.py:27-55 | The result has min(max(int(0.3 n), 3), scored) sentences, lists them in text order, and holds the best-ranked ones. |
| QuestionGenerator.CandidateIsKeyword | flashcards-maker/app.py:111-112 | A candidate word (longer than 4, not a stopword, alphabetic) lower-cases to a keyword. The strip removes nothing from it. |
| QuestionGenerator.KeywordsSound | flashcards-maker/app.py:111-112 | Every keyword is the lower-cased, stripped form of a candidate word of the sentence. |
| QuestionGenerator.KeywordsComplete | flashcards-maker/app.py:111-112 | Every candidate word of the sentence appears, lower-cased, among the keywords. |
| QuestionGenerator.KeywordsAppend | flashcards-maker/app.py:111-112 | Keyword extraction distributes over concatenated word lists. |
| QuestionGenerator.Category | flashcards-maker/app.py:123-159 | The question kind is that of the first pattern group found in the lower-cased sentence. With none: application for more than 15 words, otherwise definition. |
| QuestionGenerator.CategoryPriority | flashcards-maker/app.py:123-159 | An earlier pattern group takes priority over every later group. Application only when no group matches. |
| QuestionGenerator.Format | flashcards-maker/app.py:126 | str.format fails exactly when the template has more placeholders than arguments. Otherwise the result contains the first argument. |
| QuestionGenerator.Plan | flashcards-maker/app.py:123-159 | Each kind uses five templates with one or two placeholders. Comparison and cause-effect with at least two keywords get exactly keywords[0] and keywords[1]; every other case gets exactly the chosen keyword. Only the single-keyword cause-effect case can underfill a template. |
| QuestionGenerator.AskAsWritten | flashcards-maker/app.py:143-149 | As written, formatting fails exactly for a cause-effect sentence with one keyword when the two-placeholder templates 2 or 3 are picked. |
| QuestionGenerator.QuestionAsWritten | flashcards-maker/app.py:123-159 | The same failure condition, decided from the sentence's category. |
| QuestionGenerator.Fillable | flashcards-maker/app.py:143-149 | Lists only indices of templates the arguments can fill, starting with the first index when that template can be filled. |
| QuestionGenerator.FillableOrdered | flashcards-maker/app.py:143-149 | The listed indices are strictly increasing. |
| QuestionGenerator.FillableComplete | flashcards-maker/app.py:143-149 | Every index whose template the arguments can fill is listed. |
| QuestionGenerator.FillableAll | flashcards-maker/app.py:123-159 | When every template can be filled, every index is listed. |
| QuestionGenerator.FillableForOneCause | flashcards-maker/app.py:86-92 | With one argument, only cause-effect templates 0, 1 and 4 can be filled. |
| QuestionGenerator.Ask | flashcards-maker/app.py:143-149 | The corrected question always exists and names one of the sentence's keywords. |
| QuestionGenerator.Question | flashcards-maker/app.py:123-159 | The corrected question for a sentence names one of its keywords. |
| QuestionGenerator.AskAsWrittenWhenFilled | flashcards-maker/app.py:123-146 | Outside the single-keyword cause-effect case, the corrected question equals the as-written one. |
| QuestionGenerator.AskOneCause | flashcards-maker/app.py:147-149 | In the single-keyword cause-effect case, every question the as-written code can produce is a corrected question, and each corrected question is one the as-written code produces. |
| QuestionGenerator.AskKeepsOutcomes | flashcards-maker/app.py:123-159 | For every kind, the corrected questions are exactly the questions the as-written code produces without failing. |
| CauseEffectFinding.CauseEffectWithout | flashcards-maker/app.py:124-143 | A lower-case sentence containing " because " and none of the letters i, r, p, h, v matches no definition, process or comparison pattern, so it is a cause-effect sentence. |
| CauseEffectFinding.CrashSentenceCategory | flashcards-maker/app.py:143 | "we go out because we can." is a cause-effect sentence. |
| CauseEffectFinding.CrashSentenceKeywords | flashcards-maker/app.py:111-112 | Its only keyword is "because". |
| CauseEffectFinding.CauseEffectCrash | flashcards-maker/app.py:147-149 | For that sentence, as written, picking template 2 or 3 fails. The corrected question for pick 2 is "What happens when because?". |
| CauseEffectFinding.CorrectedOneCause | flashcards-maker/app.py:147-149 | The corrected single-keyword cause-effect question for pick 2 uses the one-placeholder template 4. |
| QuestionGenerator.EligibleSubseq | flashcards-maker/app.py:102-115 | The sentences that get a card are a subsequence of the summary, each with at least five tokens and a keyword. |
| QuestionGenerator.EligiblePrefix | flashcards-maker/app.py:102-115 | The eligible sentences of a prefix of the summary are a prefix of its eligible sentences. |
| QuestionGenerator.MadeCardIsCardOf | flashcards-maker/app.py:118-165 | A card from an in-range keyword pick and template pick is a card of the sentence. |
| QuestionGenerator.MakeCard | flashcards-maker/app.py:117-165 | The card answers with the sentence and asks the question for a randomly chosen keyword (the only one when there is one) and a random template. |
| QuestionGenerator.GenerateFlashcards | flashcards-maker/app.py:102-171 | One card per eligible summary sentence, in order, stopping at twelve. |
| Playlist.PressStaysInTable | spotify-proj/script.js:76-108 | From a valid index, any run of next/previous presses keeps songIndex inside the five-song table. |
| Playlist.NextWalksTable | spotify-proj/script.js:76-82 | n presses of next from index i reach (i + n) mod 5: the songs in table order, wrapping from the last to the first. |
| Playlist.PreviousStopsAtFirst | spotify-proj/script.js:93-99 | n presses of previous from i reach i - n, or 0 once that would go below 0. There is no wraparound. |
| Playlist.Player.constructor | spotify-proj/script.js:4 | The player starts on the first song. |
| Playlist.Player.Next | spotify-proj/script.js:76-91 | From index 4 or more, the index becomes 0; otherwise it goes up by one. The song loaded is the table's entry at the new index. |
| Playlist.Player.Previous | spotify-proj/script.js:93-108 | At 0 or below, the index becomes 0; otherwise it goes down by one. The song loaded is the table's entry at the new index. |
| Playlist.Player.PlayItem | spotify-proj/script.js:59-74 | A song item's play button makes its id the index and loads that song. |
| Attendance.AttendeeIdsAreOneToFive | attendance-tracker/script.js:11-17 | The attendee ids are 1 to 5 and distinct. |
| Attendance.MarkListEffect | attendance-tracker/script.js:63-68 | After marking, an id has an entry exactly when it had one or is a ticked attendee. Ticked attendees hold the button's value; every other entry is unchanged. |
| Attendance.RecordsOfCount | attendance-tracker/script.js:53-57 | A save creates one record per batch entry. |
| Attendance.RecordsOfSound | attendance-tracker/script.js:53-57 | Each record has an attendee's name, the selected date, and status "Present" exactly when that attendee's entry is true. |
| Attendance.RecordsOfComplete | attendance-tracker/script.js:53-57 | Every batch entry gets its record. |
| Attendance.RecordsOfNothing | attendance-tracker/script.js:42-48 | An empty batch adds no line to the summary. |
| Attendance.RecordNamesAttendee | attendance-tracker/script.js:54 | Every record's name is one of Arun, Beran, Zeus, Hope and Eren. |
| Attendance.Status | attendance-tracker/script.js:55 | The status is "Present" or "Absent". |
| Attendance.AttendanceTracker.constructor | attendance-tracker/script.js:31-33 | The tracker starts with an empty batch and history, dated today. |
| Attendance.AttendanceTracker.SetDate | attendance-tracker/script.js:84-87 | The selected date becomes the picker's value. |
| Attendance.AttendanceTracker.Mark | attendance-tracker/script.js:63-68 | The batch becomes the marked batch. Only attendee ids are ever keys. |
| Attendance.AttendanceTracker.SaveAttendance | attendance-tracker/script.js:51-60 | The new records come first and the earlier history follows unchanged. The history grows by exactly the batch size, and the batch is emptied. |
| Attendance.AttendanceTracker.OnMarkPresent | attendance-tracker/script.js:62-71 | The records of the marked batch (ticked attendees present) go above the history, and the summary shows exactly the history. |
| Attendance.AttendanceTracker.OnMarkAbsent | attendance-tracker/script.js:73-82 | The same, with the ticked attendees absent. |

## Findings

| source | as written | input that shows it | evidently intended | confidence | as-written member | corrected member |
|---|---|---|---|---|---|---|
| flashcards-maker/script.js:91-117 | `updateStreakCount` writes the new streak and today to storage but never assigns the page's `lastStudied` (read once at line 23). Later updates in the same visit compare with the stale day. | Last studied yesterday with streak 3: the page load, a generate and a loadDeck on one day take the streak to 6 | Each day counts once: the streak goes to 4 | high; not executed | Study.StaleStreakInflates | Study.SameDayStudiesOnce |
| flashcards-maker/app.py:143-149 | A cause-effect sentence with one keyword draws from all five cause-effect templates. Templates 2 and 3 have two `{}` placeholders but get one argument, so `str.format` raises IndexError. The route answers HTTP 500 and the page falls back to its own generator. | The summary sentence "we go out because we can.", with template 2 or 3 picked | Only the one-placeholder cause-effect templates (0, 1, 4) are used when there is one keyword | high; not executed | CauseEffectFinding.CauseEffectCrash | QuestionGenerator.AskKeepsOutcomes |

In the Dafny:

- **Streak, as written.** `Study.VisitCount` and `Session.FlashcardApp.UpdateStreakCount` model the update against the page's stale `lastStudied`.
- **Streak, corrected.** `Study.StudyOn` is the corrected rule, with the next update comparing against the day just stored. `Study.StudySameDayTwice`, `Study.ConsecutiveDaysStreak` and `Study.StreakContinues` are stated about it.
- **Questions, as written.** The code as written is `QuestionGenerator.AskAsWritten` and `QuestionGenerator.QuestionAsWritten`, which return None where Python raises.
- **Questions, corrected.** The corrected definitions are `QuestionGenerator.Ask` and `QuestionGenerator.Question`. The card loop uses the corrected question. It picks one of the templates the arguments can fill (which one is the `pick` parameter), via `Fillable`.

## Left out

- **Page effects.** Page rendering and effects are not modelled: `innerHTML`, the text and animation of notifications (only the severity of the toast left on screen is a result), confetti, the loading animation, card flipping and dots, keyboard dispatch (beyond being a caller of next/previous), and the summary lines' text formatting.
- **Network.** `fetch` and the Flask routes and sqlite storage are not modelled. Only the success or failure of a request, and the data it returns, enter as parameters.
  - The server pipeline that feeds `summarize_text` into `generate_flashcards` is a route and is left out.
- **Storage and dialogs.** `localStorage` serialisation and the `prompt`/`confirm` dialogs are inputs. The default deck name offered by `prompt` is not modelled.
- **Clocks.** Clocks are parameters: a calendar day is an integer, and a timestamp is an opaque integer.
- **Randomness.** Only which choice was made is modelled, not its distribution.
- **Asynchrony.** Callbacks are modelled as running to completion in program order. The page-load `renderSavedDecks` runs inside the constructor before `updateStreakCount`; the two touch different state, so their order does not matter. The call to `renderSavedDecks` after a save or delete is a separate method call, `RenderSavedDecks`.
- **Float arithmetic:**
  - the progress percentage computed when a card is shown (`flashcards-maker/script.js:312`);
  - the player's progress bar and seek (`spotify-proj/script.js:40-50`);
  - the audio element's playback state.
- **Character handling:**
  - Whitespace is the ASCII set (space, tab, newline, carriage return, vertical tab, form feed) for JS `trim`, Python `split()` and `\s`.
  - Python's `split()` and `\s` also treat the separators \x1c-\x1f as whitespace. JavaScript does not. The model counts them as ordinary characters on both sides, so a Python split at one of them is not modelled.
  - Lower-casing and `isalpha` are ASCII only.
  - Unicode whitespace and letters are not modelled.
- Summarizer.TopCount: `int(len(sentences) * 0.3)` is computed as the integer `3n / 10`. Floating-point rounding of `n * 0.3` is not modelled.
- QuestionGenerator.GenerateFlashcards: builds each question with the corrected `Question`. As written, the call raises IndexError on a single-keyword cause-effect sentence when template 2 or 3 is picked (see Findings), and the whole request fails.
- QuestionGenerator.Format: only bare `{}` placeholders are modelled (the only kind the templates use). Format specs and escaped braces are not.
- **Corrupted decks.** `loadDeck`'s check for a deck without a `cards` array is not modelled: a `Deck` value always has its cards.
- **Object sharing.** Card objects are shared between `currentFlashcards` and a saved deck in the source, and `applyDynamicThemes` mutates them in place. The model treats cards as values, so a saved deck's cards are not re-themed by a later theme pass.
- Playlist.Player.PlayItem: requires the item's id to be a table position (0 to 4). The page's markup that supplies those ids is not part of this model, and a non-numeric or out-of-range id is not modelled.
- Attendance.AttendanceTracker.SaveAttendance: walks the attendee list in id order instead of the batch's keys. The two orders agree because the batch's keys are always attendee ids, which JS `for..in` visits in ascending numeric order.
- `weather-webapp/script.js` is not part of this model. It is a network client with display code only.
