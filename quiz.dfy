/**
 * The quiz session: the script's game state (timer, the queue of unpicked
 * question indices, the count of correct answers, the final score, the answer
 * order of the question on screen and the stored high-score list) and the
 * handlers that drive it.
 *
 * Random draws are inputs: `questionDraws` and `answerDraws` stand for the
 * Fisher-Yates draws (see module Shuffle) and `position` for
 * `Math.floor(Math.random() * 4)`. The repeating one-second timer is the flag
 * `running`: set when the interval is started, cleared when it is stopped.
 */
module Quiz {
  import opened Wrappers
  import opened Shuffle
  import opened QuestionBank
  import opened Scoring
  import opened HighScores

  /** The value an answer slot holds when it shows the correct answer. */
  const CorrectMarker: int := -1

  /** The number of answer slots on screen. */
  const Slots: nat := 4

  function Min(a: nat, b: nat): (r: nat)
    ensures r <= a && r <= b && (r == a || r == b)
  {
    if a <= b then a else b
  }

  /** `draws` can drive the distractor shuffle of any question in `bank`. */
  predicate DrawsCover(bank: seq<Question>, draws: seq<nat>) {
    ValidDraws(draws) && forall k :: 0 <= k < |bank| ==> |bank[k].distractors| <= |draws|
  }

  /**
   * `order` is the answer order for a question with `count` distractors: the
   * distractor indices, shuffled and cut to the first three, with the marker
   * of the correct answer spliced in at `position` (at the end if the cut list
   * is shorter than that).
   */
  ghost predicate IsAnswerOrder(order: seq<int>, count: nat, draws: seq<nat>, position: nat)
    requires ValidDraws(draws) && count <= |draws|
  {
    var kept := Min(count, Slots - 1);
    var at := Min(position, kept);
    |order| == kept + 1 && order[at] == CorrectMarker &&
    order[..at] + order[at + 1..] == Shuffled<nat>(Range(count), draws)[..kept]
  }

  /**
   * The indices 0..count-1 of a list, put in an array and shuffled in place:
   * every index exactly once, in the order the draws give.
   */
  method ShuffledKeys(count: nat, draws: seq<nat>) returns (keys: seq<nat>)
    requires ValidDraws(draws) && count <= |draws|
    ensures keys == Shuffled<nat>(Range(count), draws)
    ensures |keys| == count && Distinct(keys)
    ensures forall k :: 0 <= k < count ==> keys[k] < count
    ensures multiset(keys) == multiset(Range(count))
  {
    var a := new nat[count](i => i);
    RangeAt(count);
    assert a[..] == Range(count);
    ShuffleArray(a, draws);
    keys := a[..];
    ShuffledRangeDealsEachOnce(count, draws);
    PermutationOfRange(keys, count);
  }

  /** Builds the answer order of a question with `count` distractors. */
  method BuildAnswerOrder(count: nat, draws: seq<nat>, position: nat) returns (order: seq<int>)
    requires ValidDraws(draws) && count <= |draws| && position < Slots
    ensures IsAnswerOrder(order, count, draws, position)
  {
    var keys := ShuffledKeys(count, draws);
    var kept := Min(count, Slots - 1);
    order := keys[..kept];
    var at := Min(position, kept);
    order := order[..at] + [CorrectMarker] + order[at..];
    assert order[..at] + order[at + 1..] == keys[..kept];
  }

  /**
   * For a question with at least three distractors the order fills all four
   * slots with the marker at `position`; in every case the marker occurs once
   * and the other slots hold distinct valid distractor indices.
   */
  lemma AnswerOrderShape(order: seq<int>, count: nat, draws: seq<nat>, position: nat)
    requires ValidDraws(draws) && count <= |draws| && position < Slots
    requires IsAnswerOrder(order, count, draws, position)
    ensures count >= MinDistractors ==> |order| == Slots && order[position] == CorrectMarker
    ensures |order| == Min(count, Slots - 1) + 1
    ensures forall i :: 0 <= i < |order| && i != Min(position, Min(count, Slots - 1)) ==>
              0 <= order[i] < count
    ensures Distinct(order)
  {
    var kept := Min(count, Slots - 1);
    var at := Min(position, kept);
    var dealt := Shuffled<nat>(Range(count), draws);
    ShuffledRangeDealsEachOnce(count, draws);
    PermutationOfRange(dealt, count);
    forall i | 0 <= i < |order| && i != at ensures 0 <= order[i] < count {
      OrderAt(order, count, draws, position, i);
    }
    forall i, j | 0 <= i < j < |order| ensures order[i] != order[j] {
      if i == at {
        OrderAt(order, count, draws, position, j);
      } else if j == at {
        OrderAt(order, count, draws, position, i);
      } else {
        OrderAt(order, count, draws, position, i);
        OrderAt(order, count, draws, position, j);
        var di := if i < at then i else i - 1;
        var dj := if j < at then j else j - 1;
        assert di < dj;
      }
    }
  }

  /** Slot i of an answer order shows the shuffled distractor index it was dealt. */
  lemma OrderAt(order: seq<int>, count: nat, draws: seq<nat>, position: nat, i: nat)
    requires ValidDraws(draws) && count <= |draws|
    requires IsAnswerOrder(order, count, draws, position)
    requires i < |order| && i != Min(position, Min(count, Slots - 1))
    ensures var d := if i < Min(position, Min(count, Slots - 1)) then i else i - 1;
            d < count && order[i] == Shuffled<nat>(Range(count), draws)[d]
  {
    var kept := Min(count, Slots - 1);
    var at := Min(position, kept);
    var rest := order[..at] + order[at + 1..];
    if i < at {
      assert order[i] == rest[i];
    } else {
      assert order[i] == rest[i - 1];
    }
  }

  class Game {
    /** The question bank, fixed when the script loads. */
    const questions: seq<Question>
    /** Seconds left; negative after a late penalty. */
    var timer: int
    /** Whether the one-second interval is scheduled. */
    var running: bool
    /** The indices of the questions not yet shown, in the order they will be. */
    var unpicked: seq<nat>
    var correctAnswers: nat
    /** The final score, set when a game ends. */
    var score: nat
    /** For each slot on screen: the index of the distractor it shows, or the marker. */
    var answerOrder: seq<int>
    /** The high-score list under the storage key, if the key is set. */
    var stored: Option<seq<Entry>>
    /** The indices of the questions shown in this game, in order. */
    ghost var shown: seq<nat>

    /** The questions shown and still to come are distinct questions of the bank. */
    ghost predicate Valid()
      reads this
    {
      Distinct(shown + unpicked) &&
      (forall k :: 0 <= k < |shown + unpicked| ==> (shown + unpicked)[k] < |questions|) &&
      (forall k :: 0 <= k < |unpicked| ==> unpicked[k] < |questions|)
    }

    /** The state when the page loads: no game yet, and whatever list is stored. */
    constructor (questions: seq<Question>, stored: Option<seq<Entry>>)
      ensures Valid()
      ensures this.questions == questions && this.stored == stored
      ensures timer == 0 && !running && correctAnswers == 0 && score == 0
      ensures unpicked == [] && shown == [] && answerOrder == []
    {
      this.questions := questions;
      this.stored := stored;
      timer := 0;
      running := false;
      correctAnswers := 0;
      score := 0;
      unpicked := [];
      shown := [];
      answerOrder := [];
    }

    /** Whether the answer in `slot` is the correct one. A slot past the end of the order holds no index and is wrong. */
    predicate SlotIsCorrect(slot: nat)
      reads this
    {
      slot < |answerOrder| && answerOrder[slot] == CorrectMarker
    }

    /** Starts a game: full time, no correct answers, every question queued once in shuffled order, then the first question. */
    method PlayQuiz(questionDraws: seq<nat>, answerDraws: seq<nat>, position: nat)
      requires ValidDraws(questionDraws) && |questions| <= |questionDraws|
      requires DrawsCover(questions, answerDraws) && position < Slots
      modifies this`timer, this`running, this`correctAnswers, this`unpicked, this`shown,
               this`answerOrder, this`score
      ensures Valid()
      ensures correctAnswers == 0 && timer == TimePerQuestion * |questions|
      ensures shown + unpicked == Shuffled<nat>(Range(|questions|), questionDraws)
      ensures multiset(shown + unpicked) == multiset(Range(|questions|))
      ensures questions == [] ==> shown == [] && !running && score == 0 && answerOrder == old(answerOrder)
      ensures questions != [] ==> score == old(score)
      ensures questions != [] ==>
                running && |shown| == 1 && shown[0] < |questions| &&
                IsAnswerOrder(answerOrder, |questions[shown[0]].distractors|, answerDraws, position)
    {
      ResetRound(questionDraws);
      DisplayQuestion(answerDraws, position);
    }

    /**
     * The set-up part of starting a game: full time, the interval running, no
     * correct answers, and every question queued once in shuffled order.
     */
    method ResetRound(questionDraws: seq<nat>)
      requires ValidDraws(questionDraws) && |questions| <= |questionDraws|
      modifies this`timer, this`running, this`correctAnswers, this`unpicked, this`shown
      ensures running && shown == []
      ensures correctAnswers == 0
      ensures timer == TimePerQuestion * |questions|
      ensures unpicked == Shuffled<nat>(Range(|questions|), questionDraws)
      ensures multiset(unpicked) == multiset(Range(|questions|))
      ensures Valid()
    {
      timer := TimePerQuestion * |questions|;
      running := true;
      correctAnswers := 0;
      var keys := ShuffledKeys(|questions|, questionDraws);
      unpicked := keys;
      shown := [];
      assert shown + unpicked == keys;
    }

    /**
     * Takes the next question from the front of the queue and builds its answer
     * order; with the queue empty, ends the game instead.
     */
    method DisplayQuestion(answerDraws: seq<nat>, position: nat)
      requires Valid() && DrawsCover(questions, answerDraws) && position < Slots
      modifies this`unpicked, this`shown, this`answerOrder, this`running, this`score
      ensures Valid()
      ensures shown + unpicked == old(shown + unpicked)
      ensures old(unpicked) == [] ==>
                unpicked == [] && shown == old(shown) && answerOrder == old(answerOrder) &&
                !running && score == Score(correctAnswers, timer)
      ensures old(unpicked) != [] ==>
                unpicked == old(unpicked)[1..] && shown == old(shown) + [old(unpicked)[0]] &&
                IsAnswerOrder(answerOrder, |questions[old(unpicked)[0]].distractors|, answerDraws, position) &&
                running == old(running) && score == old(score)
    {
      if unpicked == [] {
        EndGame();
      } else {
        var next := unpicked[0];
        assert shown + unpicked == (shown + [next]) + unpicked[1..];
        unpicked := unpicked[1..];
        shown := shown + [next];
        answerOrder := BuildAnswerOrder(|questions[next].distractors|, answerDraws, position);
      }
    }

    /** One second passes: the timer drops by one, and the game ends exactly when it reaches zero or below. */
    method TimerTick()
      modifies this`timer, this`running, this`score
      ensures timer == old(timer) - 1
      ensures timer <= 0 ==> !running && score == Score(correctAnswers, timer)
      ensures timer > 0 ==> running == old(running) && score == old(score)
    {
      timer := timer - 1;
      if timer <= 0 {
        EndGame();
      }
    }

    /** Stops the interval and fixes the final score. */
    method EndGame()
      modifies this`running, this`score
      ensures !running && score == Score(correctAnswers, timer)
    {
      running := false;
      score := Score(correctAnswers, timer);
    }

    /**
     * Handles a click on answer `slot`: a right answer counts, a wrong one costs
     * the time penalty (the timer may go below zero without ending the game
     * here); then the next question is drawn.
     */
    method CheckAnswer(slot: nat, answerDraws: seq<nat>, position: nat)
      requires Valid() && slot < Slots && DrawsCover(questions, answerDraws) && position < Slots
      modifies this`correctAnswers, this`timer, this`unpicked, this`shown, this`answerOrder,
               this`running, this`score
      ensures Valid()
      ensures old(SlotIsCorrect(slot)) ==>
                correctAnswers == old(correctAnswers) + 1 && timer == old(timer)
      ensures !old(SlotIsCorrect(slot)) ==>
                correctAnswers == old(correctAnswers) && timer == old(timer) - IncorrectTimePenalty
      ensures shown + unpicked == old(shown + unpicked)
      ensures old(unpicked) == [] ==>
                unpicked == [] && shown == old(shown) && answerOrder == old(answerOrder) &&
                !running && score == Score(correctAnswers, timer)
      ensures old(unpicked) != [] ==>
                unpicked == old(unpicked)[1..] && shown == old(shown) + [old(unpicked)[0]] &&
                IsAnswerOrder(answerOrder, |questions[old(unpicked)[0]].distractors|, answerDraws, position) &&
                running == old(running) && score == old(score)
    {
      if SlotIsCorrect(slot) {
        correctAnswers := correctAnswers + 1;
      } else {
        timer := timer - IncorrectTimePenalty;
      }
      DisplayQuestion(answerDraws, position);
    }

    /**
     * Registers the final score under the typed initials. Initials that trim to
     * nothing are refused and the stored list stays as it is; otherwise the
     * stored list gains the entry, keeps every earlier entry and is ordered from
     * the highest score down.
     */
    method RegisterScore(typed: string) returns (accepted: bool)
      modifies this`stored
      ensures accepted <==> Trim(typed) != []
      ensures !accepted ==> stored == old(stored)
      ensures accepted ==>
                stored.Some? && SortedDesc(stored.value) &&
                multiset(stored.value) == multiset(old(stored).GetOr([]) + [Entry(score, Trim(typed))])
    {
      var initials := Trim(typed);
      if initials == [] {
        accepted := false;
        return;
      }
      var list := AddEntry(stored, Entry(score, initials));
      stored := Some(list);
      accepted := true;
    }

    /** Removes the stored list. */
    method ClearScores()
      modifies this`stored
      ensures stored == None
    {
      stored := None;
    }
  }

  /** During a game no question is shown twice. */
  lemma ShownAtMostOnce(g: Game)
    requires g.Valid()
    ensures Distinct(g.shown)
    ensures forall k :: 0 <= k < |g.shown| ==> g.shown[k] !in g.unpicked
  {
    var all := g.shown + g.unpicked;
    forall i, j | 0 <= i < j < |g.shown| ensures g.shown[i] != g.shown[j] {
      assert all[i] == g.shown[i] && all[j] == g.shown[j];
    }
    forall k, m | 0 <= k < |g.shown| && 0 <= m < |g.unpicked| ensures g.shown[k] != g.unpicked[m] {
      assert all[k] == g.shown[k] && all[|g.shown| + m] == g.unpicked[m];
    }
  }

  /**
   * A one-question game answered wrongly: the penalty takes the timer from 10
   * to 0, the empty queue ends the game at once, and the score is 0.
   */
  method OneWrongAnswer() returns (timer: int, running: bool, score: nat)
    ensures timer == 0 && !running && score == 0
  {
    var q := Question("q", "a", ["d0", "d1", "d2"]);
    var g := new Game([q], None);
    g.PlayQuiz([0], [0, 0, 0], 0);
    assert g.shown == [0];
    AnswerOrderShape(g.answerOrder, 3, [0, 0, 0], 0);
    assert !g.SlotIsCorrect(1);
    g.CheckAnswer(1, [0, 0, 0], 0);
    timer, running, score := g.timer, g.running, g.score;
  }
}
