/**
 The end-to-end example of a console run: a fixed sequence of draws and
 answers, and the score it yields.
 */
module QuizExample {
  import opened KanjiData
  import opened Quiz

  /** The run of the end-to-end example: the drawn kanji are 日, 月, 山, 川, 火
      and the player types "sun", "moon", "mountain", "river", "wrong". */
  predicate IsExampleRun(data: map<string, Entry>, keys: seq<string>, picks: seq<int>,
                         guesses: seq<string>, rounds: seq<Round>)
  {
    && data == KanjiTable()
    && |picks| == TotalQuestions
    && (forall i :: 0 <= i < |picks| ==> 0 <= picks[i] < |keys|)
    && keys[picks[0]] == "日" && keys[picks[1]] == "月" && keys[picks[2]] == "山"
    && keys[picks[3]] == "川" && keys[picks[4]] == "火"
    && guesses == ["sun", "moon", "mountain", "river", "wrong"]
    && |rounds| == TotalQuestions
    && (forall i :: 0 <= i < |rounds| ==> rounds[i] == PlayRound(data, keys, picks[i], guesses[i]))
  }

  /** In the example run the first four answers occur in their meanings and
      "wrong" does not occur in "fire". Each round is checked on its own. */
  lemma ExampleRunVerdict(data: map<string, Entry>, keys: seq<string>, picks: seq<int>,
                          guesses: seq<string>, rounds: seq<Round>, i: nat)
    requires IsExampleRun(data, keys, picks, guesses, rounds) && i < 5
    ensures rounds[i].correct == (i < 4)
  {
    // One round per branch: with all five literal checks in one context the
    // proof exceeds the resource limit.
    if i == 0 {
    } else if i == 1 {
    } else if i == 2 {
    } else if i == 3 {
    } else {
    }
  }

  /** Four correct rounds followed by a wrong one score four. */
  lemma FourThenWrongScoresFour(rounds: seq<Round>)
    requires |rounds| == 5
    requires forall i :: 0 <= i < 5 ==> rounds[i].correct == (i < 4)
    ensures Score(rounds) == 4
  {
    ScoreExtremes(rounds[..4]);
    ScoreStep(rounds[..4], rounds[4]);
    assert rounds[..4] + [rounds[4]] == rounds;
  }

  /** The example run scores four. */
  lemma ExampleRunScore(data: map<string, Entry>, keys: seq<string>, picks: seq<int>,
                        guesses: seq<string>, rounds: seq<Round>)
    requires IsExampleRun(data, keys, picks, guesses, rounds)
    ensures Score(rounds) == 4
  {
    forall i | 0 <= i < TotalQuestions ensures rounds[i].correct == (i < 4) {
      ExampleRunVerdict(data, keys, picks, guesses, rounds, i);
    }
    FourThenWrongScoresFour(rounds);
  }

  /** Every key order of the table lists the kanji the example draws. */
  lemma ExampleKanjiListed(keys: seq<string>)
    requires IsKeyOrder(KanjiTable(), keys)
    ensures "日" in keys && "月" in keys && "山" in keys && "川" in keys && "火" in keys
  {
  }

  /** A position at which kanji occurs in the key order. */
  method PositionOf(keys: seq<string>, kanji: string) returns (p: int)
    requires kanji in keys
    ensures 0 <= p < |keys| && keys[p] == kanji
  {
    p :| 0 <= p < |keys| && keys[p] == kanji;
  }

  /** Draws that land on 日, 月, 山, 川 and 火, in that order. */
  method ExampleDraws(keys: seq<string>) returns (picks: seq<int>)
    requires "日" in keys && "月" in keys && "山" in keys && "川" in keys && "火" in keys
    ensures |picks| == TotalQuestions
    ensures forall i :: 0 <= i < |picks| ==> 0 <= picks[i] < |keys|
    ensures keys[picks[0]] == "日" && keys[picks[1]] == "月" && keys[picks[2]] == "山"
    ensures keys[picks[3]] == "川" && keys[picks[4]] == "火"
  {
    var sun := PositionOf(keys, "日");
    var moon := PositionOf(keys, "月");
    var mountain := PositionOf(keys, "山");
    var river := PositionOf(keys, "川");
    var fire := PositionOf(keys, "火");
    picks := [sun, moon, mountain, river, fire];
  }

  /** The end-to-end example: whatever the key order, the draws that land on
      日, 月, 山, 川 and 火, answered "sun", "moon", "mountain", "river" and
      "wrong", complete the run with a score of 4 of 5. */
  method ExampleRun(keys: seq<string>)
    returns (picks: seq<int>, guesses: seq<string>, outcome: QuizOutcome)
    requires IsKeyOrder(KanjiTable(), keys)
    ensures IsExampleRun(KanjiTable(), keys, picks, guesses, outcome.rounds)
    ensures outcome.Completed? && outcome.score == 4
  {
    ExampleKanjiListed(keys);
    picks := ExampleDraws(keys);
    guesses := ["sun", "moon", "mountain", "river", "wrong"];
    outcome := RunKanjiQuiz(keys, picks, guesses);
    ExampleRunScore(KanjiTable(), keys, picks, guesses, outcome.rounds);
  }
}
