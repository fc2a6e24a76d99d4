/**
 * The quiz page: the topic from the address is normalised, the fetched
 * questions are filtered to that topic, each choice of an option records an
 * answer, and submitting counts the answers that match.
 */
module QuizPage {
  import opened Wrappers
  import opened Text
  import opened ClientQuestion

  // ------------------------------------------------------------------ topic

  // The topic is normalised by `Text.TrimLower`, as is each question's language.

  /** `q.language.trim().toLowerCase() === normalizedTopic`. */
  predicate OnTopic(q: Mcq, topic: string) {
    TrimLower(q.language) == topic
  }

  /** The fetched questions on the topic, in the order they came. */
  function FilterByTopic(questions: seq<Mcq>, topic: string): (r: seq<Mcq>)
    ensures |r| <= |questions|
    ensures forall k :: 0 <= k < |r| ==> OnTopic(r[k], topic)
  {
    if questions == [] then []
    else (if OnTopic(questions[0], topic) then [questions[0]] else []) + FilterByTopic(questions[1..], topic)
  }

  /** A question is kept exactly when it was fetched and is on the topic. */
  lemma {:induction false} FilterByTopicMembers(questions: seq<Mcq>, topic: string, q: Mcq)
    ensures q in FilterByTopic(questions, topic) <==> q in questions && OnTopic(q, topic)
  {
    if questions != [] {
      FilterByTopicMembers(questions[1..], topic, q);
      assert questions == [questions[0]] + questions[1..];
    }
  }

  /** The filter keeps order: filtering a concatenation concatenates the filtered parts. */
  lemma {:induction false} FilterByTopicAppend(a: seq<Mcq>, b: seq<Mcq>, topic: string)
    ensures FilterByTopic(a + b, topic) == FilterByTopic(a, topic) + FilterByTopic(b, topic)
  {
    if a == [] {
      assert a + b == b;
    } else {
      assert (a + b)[0] == a[0] && (a + b)[1..] == a[1..] + b;
      FilterByTopicAppend(a[1..], b, topic);
      var head := if OnTopic(a[0], topic) then [a[0]] else [];
      assert head + (FilterByTopic(a[1..], topic) + FilterByTopic(b, topic))
          == head + FilterByTopic(a[1..], topic) + FilterByTopic(b, topic);
    }
  }

  /** When every fetched question is on the topic, all of them are kept. */
  lemma {:induction false} FilterByTopicKeepsAll(questions: seq<Mcq>, topic: string)
    requires forall k :: 0 <= k < |questions| ==> OnTopic(questions[k], topic)
    ensures FilterByTopic(questions, topic) == questions
  {
    if questions != [] {
      FilterByTopicKeepsAll(questions[1..], topic);
      assert [questions[0]] + questions[1..] == questions;
    }
  }

  // ---------------------------------------------------------------- answers

  /** `setAnswers({ ...answers, [i]: idx })`: question `i` now has answer `idx`, the others keep theirs. */
  function SelectAnswer(answers: map<int, int>, i: int, idx: int): (r: map<int, int>)
    ensures r.Keys == answers.Keys + {i}
    ensures r[i] == idx
    ensures forall j :: j in answers && j != i ==> r[j] == answers[j]
  {
    answers[i := idx]
  }

  /** `answers[i] === q.correctAnswer`: an unanswered question is `undefined` and never matches. */
  predicate Hit(questions: seq<Mcq>, answers: map<int, int>, i: int)
    requires 0 <= i < |questions|
  {
    i in answers && answers[i] == questions[i].correctAnswer
  }

  /** The number of matching answers among the questions. */
  function Score(questions: seq<Mcq>, answers: map<int, int>): (s: nat)
    ensures s <= |questions|
  {
    if questions == [] then 0
    else
      var n := |questions| - 1;
      Score(questions[..n], answers) + (if Hit(questions, answers, n) then 1 else 0)
  }

  /** The positions whose answer matches. */
  ghost function Hits(questions: seq<Mcq>, answers: map<int, int>): set<int> {
    set i | 0 <= i < |questions| && Hit(questions, answers, i)
  }

  /** The score counts exactly the positions whose answer matches. */
  lemma {:induction false} ScoreCountsHits(questions: seq<Mcq>, answers: map<int, int>)
    ensures Score(questions, answers) == |Hits(questions, answers)|
  {
    if questions != [] {
      var n := |questions| - 1;
      var init := questions[..n];
      ScoreCountsHits(init, answers);
      assert forall i :: 0 <= i < n ==> (Hit(init, answers, i) <==> Hit(questions, answers, i));
      if Hit(questions, answers, n) {
        assert Hits(questions, answers) == Hits(init, answers) + {n};
      } else {
        assert Hits(questions, answers) == Hits(init, answers);
      }
    }
  }

  /** Before any choice the score is zero. */
  lemma {:induction false} NoAnswersNoScore(questions: seq<Mcq>)
    ensures Score(questions, map[]) == 0
  {
    if questions != [] {
      NoAnswersNoScore(questions[..|questions| - 1]);
    }
  }

  /** Answering every question correctly scores the number of questions. */
  lemma {:induction false} AllCorrectFullScore(questions: seq<Mcq>, answers: map<int, int>)
    requires forall i :: 0 <= i < |questions| ==> i in answers && answers[i] == questions[i].correctAnswer
    ensures Score(questions, answers) == |questions|
  {
    if questions != [] {
      var n := |questions| - 1;
      AllCorrectFullScore(questions[..n], answers);
    }
  }

  /** Choosing an option for question `i` changes the score by what position `i` alone gains or loses. */
  lemma {:induction false} ScoreAfterSelect(questions: seq<Mcq>, answers: map<int, int>, i: int, idx: int)
    requires 0 <= i < |questions|
    ensures Score(questions, SelectAnswer(answers, i, idx))
            == Score(questions, answers)
               - (if Hit(questions, answers, i) then 1 else 0)
               + (if idx == questions[i].correctAnswer then 1 else 0)
  {
    var n := |questions| - 1;
    var init := questions[..n];
    var after := SelectAnswer(answers, i, idx);
    if i < n {
      ScoreAfterSelect(init, answers, i, idx);
      assert init[i] == questions[i];
      assert Hit(questions, after, n) <==> Hit(questions, answers, n);
    } else {
      ScoreIgnoresLaterAnswers(init, answers, i, idx);
    }
  }

  /** The score of the first questions does not depend on the answer to a later one. */
  lemma {:induction false} ScoreIgnoresLaterAnswers(questions: seq<Mcq>, answers: map<int, int>, i: int, idx: int)
    requires i >= |questions|
    ensures Score(questions, SelectAnswer(answers, i, idx)) == Score(questions, answers)
  {
    if questions != [] {
      ScoreIgnoresLaterAnswers(questions[..|questions| - 1], answers, i, idx);
    }
  }

  // ---------------------------------------------------------------- submit

  /** What `submitQuiz` passes to the result page. */
  datatype Submission = Submission(score: nat, total: nat, topic: string)

  /**
   * `submitQuiz`: nothing happens without questions; otherwise the loop counts
   * the matching answers and the result carries the score, the number of
   * questions and the topic.
   */
  method SubmitQuiz(questions: seq<Mcq>, answers: map<int, int>, topic: string) returns (result: Option<Submission>)
    ensures result.None? <==> questions == []
    ensures result.Some? ==> result.value == Submission(Score(questions, answers), |questions|, topic)
    ensures result.Some? ==> result.value.score <= result.value.total
  {
    if |questions| == 0 {
      return None;
    }
    var score := 0;
    for i := 0 to |questions|
      invariant score == Score(questions[..i], answers)
    {
      assert questions[..i + 1][..i] == questions[..i];
      if i in answers && answers[i] == questions[i].correctAnswer {
        score := score + 1;
      }
    }
    assert questions[..|questions|] == questions;
    result := Some(Submission(score, |questions|, topic));
  }
}
