/**
 The console quiz loop. The kanji are listed once, in the order the table's
 key set yields them; each of the five rounds picks one at random, reads one
 line from the player, checks it against the meaning and shows the origin.
 The random choices and the lines typed are parameters.
 */
module Quiz {
  import opened Matching
  import opened KanjiData

  /** The number of rounds played. */
  const TotalQuestions: nat := 5

  /** keys lists every key of data exactly once, in some order (the array
      that `keySet().toArray()` returns; its order is not fixed). */
  predicate IsKeyOrder(data: map<string, Entry>, keys: seq<string>)
    ensures IsKeyOrder(data, keys) ==> (set k | k in keys) == data.Keys
  {
    && |keys| == |data|
    && (forall i :: 0 <= i < |keys| ==> keys[i] in data)
    && (forall k :: k in data ==> k in keys)
    && (forall i, j :: 0 <= i < j < |keys| ==> keys[i] != keys[j])
  }

  /** One round as the player sees it: the kanji asked, its meaning and origin
      (both shown whatever the verdict) and whether the answer scored. */
  datatype Round = Round(kanji: string, meaning: string, origin: string, correct: bool)

  /** How a run ends: all rounds answered and the score reported, or the
      input ran out, so that reading the next line failed and the run stopped
      before any score was reported. */
  datatype QuizOutcome =
    | Completed(rounds: seq<Round>, score: nat)
    | InputExhausted(rounds: seq<Round>)

  /** The round played when index pick is drawn and guess is typed. */
  function PlayRound(data: map<string, Entry>, keys: seq<string>, pick: int, guess: string): (r: Round)
    requires 0 <= pick < |keys| && keys[pick] in data
    ensures r.kanji == keys[pick] && data[r.kanji] == Entry(r.meaning, r.origin)
  {
    var e := data[keys[pick]];
    Round(keys[pick], e.meaning, e.origin, Correct(e.meaning, guess))
  }

  /** Every drawn index names a key of data. */
  predicate ValidPicks(data: map<string, Entry>, keys: seq<string>, picks: seq<int>) {
    forall i :: 0 <= i < |picks| ==> 0 <= picks[i] < |keys| && keys[picks[i]] in data
  }

  /** The first n rounds of a run, one per drawn index and typed line. */
  function Transcript(data: map<string, Entry>, keys: seq<string>, picks: seq<int>,
                      guesses: seq<string>, n: nat): (rounds: seq<Round>)
    requires ValidPicks(data, keys, picks) && n <= |picks| && n <= |guesses|
    ensures |rounds| == n
  {
    if n == 0 then []
    else Transcript(data, keys, picks, guesses, n - 1) + [PlayRound(data, keys, picks[n - 1], guesses[n - 1])]
  }

  /** Round i of a transcript is the round played with the i-th draw and the
      i-th line, whatever the length of the transcript. */
  lemma {:induction false} TranscriptAt(data: map<string, Entry>, keys: seq<string>, picks: seq<int>,
                                        guesses: seq<string>, n: nat, i: nat)
    requires ValidPicks(data, keys, picks) && n <= |picks| && n <= |guesses| && i < n
    ensures Transcript(data, keys, picks, guesses, n)[i] == PlayRound(data, keys, picks[i], guesses[i])
  {
    if i < n - 1 {
      TranscriptAt(data, keys, picks, guesses, n - 1, i);
    }
  }

  /** The number of rounds that scored. */
  function Score(rounds: seq<Round>): (n: nat)
    ensures n <= |rounds|
  {
    if rounds == [] then 0
    else Score(rounds[..|rounds| - 1]) + (if rounds[|rounds| - 1].correct then 1 else 0)
  }

  /** Indices of the rounds that scored: a reference count for Score. */
  function CorrectRounds(rounds: seq<Round>): set<nat> {
    set i: nat | i < |rounds| && rounds[i].correct
  }

  /** A round adds exactly one point when it is correct and none otherwise. */
  lemma ScoreStep(rounds: seq<Round>, r: Round)
    ensures Score(rounds + [r]) == Score(rounds) + (if r.correct then 1 else 0)
  {
    assert (rounds + [r])[..|rounds|] == rounds;
  }

  /** The score is the number of correct rounds. */
  lemma {:induction false} ScoreCountsCorrectRounds(rounds: seq<Round>)
    ensures Score(rounds) == |CorrectRounds(rounds)|
  {
    if rounds != [] {
      var n := |rounds| - 1;
      var init := rounds[..n];
      ScoreCountsCorrectRounds(init);
      if rounds[n].correct {
        assert CorrectRounds(rounds) == CorrectRounds(init) + {n};
      } else {
        assert CorrectRounds(rounds) == CorrectRounds(init);
      }
    }
  }

  /** Full marks exactly when every round scored, and zero exactly when none did. */
  lemma {:induction false} ScoreExtremes(rounds: seq<Round>)
    ensures Score(rounds) == |rounds| <==> forall i :: 0 <= i < |rounds| ==> rounds[i].correct
    ensures Score(rounds) == 0 <==> forall i :: 0 <= i < |rounds| ==> !rounds[i].correct
  {
    if rounds != [] {
      var n := |rounds| - 1;
      ScoreExtremes(rounds[..n]);
      assert forall i :: 0 <= i < n ==> rounds[..n][i] == rounds[i];
    }
  }

  /** main's loop: five rounds over the given key order, with the drawn
      indices in picks and the player's lines in guesses. */
  method PlayQuiz(data: map<string, Entry>, keys: seq<string>, picks: seq<int>, guesses: seq<string>)
    returns (outcome: QuizOutcome)
    requires IsKeyOrder(data, keys)
    requires |picks| == TotalQuestions
    requires forall i :: 0 <= i < |picks| ==> 0 <= picks[i] < |keys|
    ensures outcome.Completed? <==> |guesses| >= TotalQuestions
    ensures |outcome.rounds| == if |guesses| < TotalQuestions then |guesses| else TotalQuestions
    ensures forall i :: 0 <= i < |outcome.rounds| ==>
              outcome.rounds[i] == PlayRound(data, keys, picks[i], guesses[i])
    ensures outcome.Completed? ==> outcome.score == Score(outcome.rounds) <= TotalQuestions
  {
    assert ValidPicks(data, keys, picks);
    var score: nat := 0;
    var rounds: seq<Round> := [];
    for i := 0 to TotalQuestions
      invariant i <= |guesses|
      invariant rounds == Transcript(data, keys, picks, guesses, i)
      invariant score == Score(rounds)
    {
      if i == |guesses| {
        outcome := InputExhausted(rounds);
        break;
      }
      var randomKanji := keys[picks[i]];
      var entry := data[randomKanji];
      var correct := Correct(entry.meaning, guesses[i]);
      if correct {
        score := score + 1;
      }
      var r := Round(randomKanji, entry.meaning, entry.origin, correct);
      ScoreStep(rounds, r);
      rounds := rounds + [r];
    }
    if |guesses| >= TotalQuestions {
      outcome := Completed(rounds, score);
    }
    forall i | 0 <= i < |outcome.rounds|
      ensures outcome.rounds[i] == PlayRound(data, keys, picks[i], guesses[i])
    {
      TranscriptAt(data, keys, picks, guesses, |outcome.rounds|, i);
    }
  }

  /** The whole program: the table is built, then the quiz runs over it.
      Every round shows a kanji of the table with a non-empty meaning and
      origin. */
  method RunKanjiQuiz(keys: seq<string>, picks: seq<int>, guesses: seq<string>)
    returns (outcome: QuizOutcome)
    requires IsKeyOrder(KanjiTable(), keys)
    requires |picks| == TotalQuestions
    requires forall i :: 0 <= i < |picks| ==> 0 <= picks[i] < |keys|
    ensures outcome.Completed? <==> |guesses| >= TotalQuestions
    ensures |outcome.rounds| == if |guesses| < TotalQuestions then |guesses| else TotalQuestions
    ensures forall i :: 0 <= i < |outcome.rounds| ==>
              outcome.rounds[i] == PlayRound(KanjiTable(), keys, picks[i], guesses[i])
    ensures forall i :: 0 <= i < |outcome.rounds| ==>
              outcome.rounds[i].kanji in KanjiTable()
              && outcome.rounds[i].meaning != [] && outcome.rounds[i].origin != []
    ensures outcome.Completed? ==> outcome.score == Score(outcome.rounds) <= TotalQuestions
  {
    var kanjiData := InitKanjiData();
    outcome := PlayQuiz(kanjiData, keys, picks, guesses);
  }

  /** Any key order of the table lists its seven kanji. */
  lemma KanjiKeyOrderLength(keys: seq<string>)
    requires IsKeyOrder(KanjiTable(), keys)
    ensures |keys| == 7
    ensures forall i :: 0 <= i < 7 ==> keys[i] in KanjiTable()
  {
    KanjiTableShape();
  }
}
