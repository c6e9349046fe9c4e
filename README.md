# Kanji quiz (console version) in Dafny

This project models the console quiz in `KanjiQuizApp.java`. The program
holds a fixed table of seven kanji. Each kanji maps to a meaning and a
historical origin. `main` plays five rounds. In each round it draws a kanji
at random, reads one line from the player, trims and lower-cases it, and
counts it correct when the lower-cased meaning *contains* it. It then shows
the origin, and at the end it prints the score.

Modules:

- `Matching` (matching.dfy): the answer check. `Trim` works like Java's
  `String.trim`: it drops every character up to U+0020 at both ends and
  computes the same `st`/`len` bounds (`TrimStart`, `TrimEnd`). `Lower`
  lower-cases, `Contains` is the left-to-right search of `String.contains`,
  and `Correct(meaning, guess)` is the test at line 57. `OccursAt` is an
  independent definition of "occurs at position k", and both directions
  connect it to `Contains`.
- `KanjiData` (kanji_data.dfy): the table. `InitKanjiData` fills an empty
  map with one `put` per kanji, as the static initializer does. `KanjiTable`
  is the resulting value. The table is a value, so nothing can change it
  after it is built.
- `Quiz` (quiz.dfy): the loop of `main`. `PlayQuiz` takes the table, the key
  order, the drawn indices and the typed lines. It returns every round
  played and the final score. `Transcript` specifies the rounds and `Score`
  counts the correct ones. `RunKanjiQuiz` builds the table and then plays.
- `QuizExample` (quiz_example.dfy): one end-to-end run. The draws are 日, 月,
  山, 川, 火 and the answers are "sun", "moon", "mountain", "river" and
  "wrong". The run scores 4 of 5.

Parameters stand in for the console and the random generator. `keys` is the
array that `kanjiData.keySet().toArray()` returns. Its order is unspecified,
so the model accepts any order that lists every key once (`IsKeyOrder`).
`picks` holds the five values of `random.nextInt(kanjiList.length)`, each in
`[0, |keys|)`. `guesses` holds the lines that `scanner.nextLine()` returns.
If fewer than five lines are available, `nextLine` throws and the program
stops without printing a score. The model represents that case as
`InputExhausted` with the rounds played before the input ran out.

An empty or all-blank line scores a point. Trimming turns it into the empty
string, and `contains("")` is true for every meaning (line 57).
`BlankGuessAccepted` proves this.

## Model

| member | source | states |
|---|---|---|
| `Matching.IsBlank` | KanjiQuizApp.java:55 | a character that `trim` drops (code point at most U+0020) is never changed by lower-casing, so trimming and lower-casing do not interfere |
| `Matching.LowerChar` | KanjiQuizApp.java:55 | no upper-case ASCII letter remains; upper-case letters become their lower-case counterparts; every other character is kept |
| `Matching.Lower` | KanjiQuizApp.java:55 | `toLowerCase` keeps the length and leaves no upper-case ASCII letter |
| `Matching.LowerSlice` | KanjiQuizApp.java:57 | lower-casing a piece of the meaning gives the same piece of the lower-cased meaning |
| `Matching.LowerIdempotent` | KanjiQuizApp.java:55 | lower-casing an already lower-cased guess changes nothing |
| `Matching.TrimStart` | KanjiQuizApp.java:55 | the start index of `trim`: everything before it is blank, and the character at it is not |
| `Matching.TrimEnd` | KanjiQuizApp.java:55 | the end index of `trim`: everything after it is blank, and the last kept character is not |
| `Matching.Trim` | KanjiQuizApp.java:55 | the trimmed line is no longer than the input and is empty or starts and ends with a non-blank character |
| `Matching.TrimOfPadded` | KanjiQuizApp.java:55 | trimming blank padding around a core that is empty or has non-blank ends returns exactly that core |
| `Matching.TrimEmptyIffBlank` | KanjiQuizApp.java:55 | a line trims to the empty string if and only if it is blank throughout |
| `Matching.TrimIdempotent` | KanjiQuizApp.java:55 | trimming twice is the same as trimming once |
| `Matching.Contains` | KanjiQuizApp.java:57 | `String.contains` as a left-to-right search; a string that is contained is never longer than the string containing it |
| `Matching.ContainsWitness` | KanjiQuizApp.java:57 | when `contains` succeeds, the guess occurs at some position of the meaning |
| `Matching.OccursContains` | KanjiQuizApp.java:57 | `contains` finds every occurrence at any position |
| `Matching.ContainsIffOccurs` | KanjiQuizApp.java:57 | `contains` holds if and only if the guess occurs somewhere in the meaning |
| `Matching.ContainsSlice` | KanjiQuizApp.java:57 | every slice of a string is contained in it |
| `Matching.ContainedCharOccurs` | KanjiQuizApp.java:57 | every character of a contained string occurs in the string containing it |
| `Matching.Normalize` | KanjiQuizApp.java:55 | the compared guess (trim, then lower-case) is no longer than the line, and it is empty if and only if the line is blank |
| `Matching.NormalizeUnpadded` | KanjiQuizApp.java:55 | a line without padding is only lower-cased |
| `Matching.Correct` | KanjiQuizApp.java:55-57 | the verdict of line 57: correct if and only if the trimmed, lower-cased guess occurs at some position of the lower-cased meaning |
| `Matching.SubstringAccepted` | KanjiQuizApp.java:57 | every contiguous piece of the meaning is judged correct |
| `Matching.TrimWithin` | KanjiQuizApp.java:55 | trimming blank padding around some text leaves a slice of that text |
| `Matching.WholeMeaningAccepted` | KanjiQuizApp.java:55-57 | typing the meaning exactly is judged correct |
| `Matching.ExactMeaningAccepted` | KanjiQuizApp.java:55-57 | typing the meaning in any letter case, with any blank padding, is judged correct |
| `Matching.BlankGuessAccepted` | KanjiQuizApp.java:55-57 | an empty or all-blank line normalizes to the empty string and is judged correct for every meaning |
| `Matching.EmptyMeaningAcceptsOnlyBlank` | KanjiQuizApp.java:57 | against an empty meaning, a guess is correct if and only if it is blank |
| `Matching.LongGuessRejected` | KanjiQuizApp.java:55-57 | a guess whose trimmed length exceeds the meaning's length is judged wrong |
| `Matching.SunDayHalvesAccepted` | KanjiQuizApp.java:11 | "sun" and "day" are both correct for the meaning "sun/day" |
| `Matching.SunDayPiecesAccepted` | KanjiQuizApp.java:11 | "un/da" and "s" are correct for "sun/day" |
| `Matching.SunDayCaseInsensitive` | KanjiQuizApp.java:55-57 | "SUN" is correct for "sun/day" |
| `Matching.MoonNotInSunDay` | KanjiQuizApp.java:57 | "sun/day" does not contain "moon" |
| `Matching.MoonRejected` | KanjiQuizApp.java:11 | "moon" is judged wrong for the meaning "sun/day" |
| `KanjiData.KanjiTable` | KanjiQuizApp.java:9-34 | the table as the static initializer leaves it; every meaning and every origin in it is non-empty |
| `KanjiData.InitKanjiData` | KanjiQuizApp.java:9-34 | the static initializer yields exactly the seven-entry table, and every meaning and origin in it is non-empty |
| `KanjiData.KanjiTableShape` | KanjiQuizApp.java:7-34 | the table has exactly seven distinct keys: 日 月 山 川 木 火 人 |
| `Quiz.IsKeyOrder` | KanjiQuizApp.java:45 | `keySet().toArray()`: an order lists each key once (its definition), so the set of listed keys is exactly the table's key set |
| `Quiz.PlayRound` | KanjiQuizApp.java:48-57 | one pass of the loop body: the round asks the kanji at the drawn index and shows exactly that kanji's table entry; its definition takes the verdict from `Correct` on the guess |
| `Quiz.Transcript` | KanjiQuizApp.java:47-66 | the first n rounds are n records |
| `Quiz.TranscriptAt` | KanjiQuizApp.java:48-57 | round i shows the kanji of the i-th draw with its meaning and origin, and its verdict is `Correct` on the i-th line |
| `Quiz.Score` | KanjiQuizApp.java:39-62 | the score never exceeds the number of rounds |
| `Quiz.ScoreStep` | KanjiQuizApp.java:57-62 | one round adds exactly 1 when it is correct and 0 otherwise |
| `Quiz.ScoreCountsCorrectRounds` | KanjiQuizApp.java:57-62 | the score is the number of indices of correct rounds |
| `Quiz.ScoreExtremes` | KanjiQuizApp.java:57-62 | full marks if and only if every round is correct; zero if and only if no round is |
| `Quiz.PlayQuiz` | KanjiQuizApp.java:45-68 | min(5, lines available) rounds are played, each one being the drawn kanji's entry and its verdict; the run completes if and only if five lines were available; the final score is the number of correct rounds, at most 5 |
| `Quiz.RunKanjiQuiz` | KanjiQuizApp.java:7-68 | the whole program: every round asks a kanji of the table and shows a non-empty meaning and origin, plus everything `PlayQuiz` states |
| `Quiz.KanjiKeyOrderLength` | KanjiQuizApp.java:45-49 | any key order of the table has seven entries, and each one is found by the lookup at line 49 |
| `QuizExample.ExampleRunVerdict` | KanjiQuizApp.java:11-29 | in the example run, the first four answers are correct and "wrong" is not |
| `QuizExample.FourThenWrongScoresFour` | KanjiQuizApp.java:57-62 | four correct rounds followed by a wrong one score 4 |
| `QuizExample.ExampleRunScore` | KanjiQuizApp.java:55-62 | the example run's five verdicts add up to a score of 4 |
| `QuizExample.ExampleDraws` | KanjiQuizApp.java:48 | five drawn indices, in range, that land on 日, 月, 山, 川 and 火 in that order |
| `QuizExample.ExampleRun` | KanjiQuizApp.java:36-68 | for every key order: the draws land on 日 月 山 川 火, the lines are "sun", "moon", "mountain", "river", "wrong", every one of the five rounds is the one played with that draw and that line, and the run completes with score 4 |

## Left out

- Console output (the banner, prompts, verdict lines, the origin text and the final score line) is not modelled as text. Each `Round` records what is shown: the kanji, the meaning, the origin and the verdict.
- `Scanner` is replaced by the sequence of lines typed. Line terminators and `scanner.close()` are not modelled.
- `java.util.Random` is replaced by the drawn indices, which the caller supplies. The distribution is not modelled. `nextInt(0)` cannot happen, because the table has seven entries.
- The iteration order of `HashMap.keySet()` is not fixed. The model accepts any order that lists each key once.
- Lower: follows ASCII case mapping only. Java's `toLowerCase` uses full, locale-dependent Unicode case mapping, which can also change the length of a string. The meanings in the table are plain lower-case ASCII.
- Quiz.PlayRound: its contract states the kanji and the entry shown, but not the verdict. The verdict is `Correct(meaning, guess)` by definition. Adding that clause to the contract makes the end-to-end example too expensive to prove.
- Only the origin strings' presence and non-emptiness matter to the quiz. They are kept as literal text, but nothing is proved about their content.
- The desktop GUI variant (shuffled order, card animation, restart) is not part of this model.
