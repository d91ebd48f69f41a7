/**
 * The question bank: a fixed list of questions, each with one correct answer
 * and a list of distractors (wrong answers). The texts may carry inline markup;
 * the model treats them as opaque strings.
 */
module QuestionBank {

  datatype Question = Question(text: string, answer: string, distractors: seq<string>)

  /** Every question needs this many distractors to fill the three wrong slots. */
  const MinDistractors: nat := 3

  /** The distractor counts of the seven questions the script ships with, in order. */
  const ShippedDistractorCounts: seq<nat> := [3, 5, 3, 3, 4, 4, 3]

  /** The integrity condition the startup check asserts for every question. */
  predicate WellFormed(bank: seq<Question>) {
    forall k :: 0 <= k < |bank| ==> |bank[k].distractors| >= MinDistractors
  }

  /**
   * The startup check: it visits the questions in order and reports each one
   * that has fewer than three distractors. The result lists the indices whose
   * assertion message would be logged; the check does not stop the script.
   */
  method CheckDistractors(bank: seq<Question>) returns (failed: seq<nat>)
    ensures forall i :: 0 <= i < |failed| ==>
              failed[i] < |bank| && |bank[failed[i]].distractors| < MinDistractors
    ensures forall k :: 0 <= k < |bank| && |bank[k].distractors| < MinDistractors ==> k in failed
    ensures forall i, j :: 0 <= i < j < |failed| ==> failed[i] < failed[j]
    ensures failed == [] <==> WellFormed(bank)
  {
    failed := [];
    var index := 0;
    while index < |bank|
      invariant 0 <= index <= |bank|
      invariant forall i :: 0 <= i < |failed| ==>
                  failed[i] < index && |bank[failed[i]].distractors| < MinDistractors
      invariant forall k :: 0 <= k < index && |bank[k].distractors| < MinDistractors ==> k in failed
      invariant forall i, j :: 0 <= i < j < |failed| ==> failed[i] < failed[j]
    {
      if |bank[index].distractors| < MinDistractors {
        failed := failed + [index];
      }
      index := index + 1;
    }
    if failed != [] {
      assert |bank[failed[0]].distractors| < MinDistractors;
    }
  }

  /**
   * The shipped bank passes the check: a bank whose questions have the shipped
   * distractor counts is well formed, so the startup check reports nothing.
   */
  lemma ShippedBankPasses(bank: seq<Question>)
    requires |bank| == |ShippedDistractorCounts|
    requires forall k :: 0 <= k < |bank| ==> |bank[k].distractors| == ShippedDistractorCounts[k]
    ensures WellFormed(bank)
  {
    forall k | 0 <= k < |bank| ensures |bank[k].distractors| >= MinDistractors {
      assert ShippedDistractorCounts[k] in ShippedDistractorCounts;
    }
  }
}
