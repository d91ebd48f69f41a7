/** The game's constants and the final-score rule. */
module Scoring {

  const IncorrectTimePenalty: nat := 10
  const TimePerQuestion: nat := 10
  const PointsPerCorrectAnswer: nat := 5
  const PointsPerSecondRemaining: nat := 1

  /** Seconds left on the clock as they count for the score: a negative timer counts as none. */
  function SecondsLeft(timer: int): (r: nat)
    ensures r >= timer && (timer >= 0 ==> r == timer) && (timer <= 0 ==> r == 0)
  {
    if timer > 0 then timer else 0
  }

  /**
   * The final score: nothing at all without a correct answer, otherwise points
   * per correct answer plus a bonus per second left on the clock.
   */
  function Score(correctAnswers: nat, timer: int): (r: nat)
  {
    if correctAnswers == 0 then 0
    else PointsPerCorrectAnswer * correctAnswers + PointsPerSecondRemaining * SecondsLeft(timer)
  }

  /**
   * A score is zero exactly when no answer was right; otherwise it is the answer
   * points plus at most the remaining seconds, and never less than the answer points.
   */
  lemma ScoreBounds(correctAnswers: nat, timer: int)
    ensures Score(correctAnswers, timer) == 0 <==> correctAnswers == 0
    ensures Score(correctAnswers, timer) >= PointsPerCorrectAnswer * correctAnswers
    ensures correctAnswers > 0 ==>
              Score(correctAnswers, timer) - PointsPerCorrectAnswer * correctAnswers == SecondsLeft(timer)
    ensures timer <= 0 ==> Score(correctAnswers, timer) == PointsPerCorrectAnswer * correctAnswers
  {
  }

  /** More correct answers or more time left never lowers the score. */
  lemma ScoreMonotone(c1: nat, t1: int, c2: nat, t2: int)
    requires c1 <= c2 && t1 <= t2
    ensures Score(c1, t1) <= Score(c2, t2)
  {
  }

  /**
   * For the same number of correct answers, the time a wrong answer takes away
   * lowers the score by at most the penalty and never raises it.
   */
  lemma PenaltyCost(correctAnswers: nat, timer: int)
    ensures Score(correctAnswers, timer) - Score(correctAnswers, timer - IncorrectTimePenalty)
              <= IncorrectTimePenalty * PointsPerSecondRemaining
    ensures Score(correctAnswers, timer - IncorrectTimePenalty) <= Score(correctAnswers, timer)
  {
  }

  /** The worked values: no points without a correct answer, 22 for 3 right with 7 s, 10 for 2 right at -5 s. */
  lemma ScoreExamples(t: int)
    ensures Score(0, t) == 0
    ensures Score(3, 7) == 22
    ensures Score(2, -5) == 10
  {
  }
}
