/** What a passed backup check stands for, over whole runs. */
module QuizTraces {
  import opened Wrappers
  import opened Quizzes
  import opened SessionSpec
  import opened Consents
  import opened Traces

  ghost predicate QuizPress(d: Device, t: Trace, j: nat)
    requires Lawful(d, t) && j < |t.steps|
  {
    t.steps[j].op.OpQuiz? && t.consents[j].check.Some?
  }

  /** Press `j` chose the true word of the live question. */
  ghost predicate RightAt(d: Device, t: Trace, j: nat)
    requires Lawful(d, t) && j < |t.steps|
  {
    QuizPress(d, t, j) && AnswersTruth(t.consents[j].check.value.quiz, t.steps[j].op.key)
  }

  /** Press `j` passed the quiz. */
  ghost predicate PassesAt(d: Device, t: Trace, j: nat)
    requires Lawful(d, t) && j < |t.steps|
  {
    QuizPress(d, t, j) && Press(t.consents[j].check.value.quiz, t.steps[j].op.key, t.steps[j].op.redraw).1.Passed?
  }

  /** How many presses after step `c` and before step `i` were right. */
  ghost function RightAnswers(d: Device, t: Trace, c: nat, i: nat): nat
    requires Lawful(d, t) && i <= |t.steps|
  {
    if i <= c + 1 then 0 else RightAnswers(d, t, c, i - 1) + if RightAt(d, t, i - 1) then 1 else 0
  }

  /** One press: the words and the order stand, a right answer counts one, and the eighth passes. */
  lemma PressStep(q: Quiz, key: char, redraw: Option<seq<string>>)
    ensures var (q', step) := Press(q, key, redraw);
      && q'.words == q.words && q'.order == q.order
      && q'.asked == q.asked + (if AnswersTruth(q, key) then 1 else 0)
      && (step.Passed? <==> AnswersTruth(q, key) && q.asked + 1 >= QUIZ_POSITIONS)
  {
  }

  /** A live check asks the words and the order its consent drew, and is as far as the right answers since. */
  lemma {:induction false} CheckIsCounted(d: Device, t: Trace, c: nat, i: nat)
    requires Lawful(d, t) && i <= |t.steps| && LiveSince(d, t, ToCheck, c, i)
    ensures t.consents[i].check.Some?
    ensures var check := t.consents[i].check.value; var phase := t.steps[c].op.prompt.backup;
      && check.ref == phase.ref && check.index == phase.index
      && check.quiz.words == d.decrypt[phase].value
      && check.quiz.order == t.steps[c].op.choice.draw.order
      && check.quiz.asked == RightAnswers(d, t, c, i) < QUIZ_POSITIONS
    decreases i
  {
    assert StepIsLawful(d, t, i - 1);
    if c < i - 1 {
      LiveSinceNext(d, t, ToCheck, c, i - 1);
      CheckIsCounted(d, t, c, i - 1);
      if QuizPress(d, t, i - 1) {
        PressStep(t.consents[i - 1].check.value.quiz, t.steps[i - 1].op.key, t.steps[i - 1].op.redraw);
      }
      CheckStep(d, t.consents[i - 1], t.steps[i - 1], t.commits[i - 1]);
    }
  }

  /** A check that survives a step is untouched but by a press. */
  lemma CheckStep(d: Device, g: Consent, step: Traces.Step, commits: bool)
    requires g.check.Some? && step.Called? && !Begins(d, ToCheck, step) && !Ends(ToCheck, g, step.op, commits)
    ensures After(d, g, step, commits).check == Some(
      if step.op.OpQuiz? then g.check.value.(quiz := Press(g.check.value.quiz, step.op.key, step.op.redraw).0)
      else g.check.value)
  {
  }

  /** A right answer was the word at the position the consent's order put next. */
  lemma RightAnswerIsTheWord(d: Device, t: Trace, c: nat, j: nat)
    requires Lawful(d, t) && j < |t.steps| && LiveSince(d, t, ToCheck, c, j) && RightAt(d, t, j)
    ensures var words := d.decrypt[t.steps[c].op.prompt.backup].value;
      var order := t.steps[c].op.choice.draw.order;
      var n := RightAnswers(d, t, c, j);
      && n < |order| && order[n] < |words|
      && Chosen(t.consents[j].check.value.quiz, t.steps[j].op.key) == Some(words[order[n]])
  {
    CheckIsCounted(d, t, c, j);
  }

  /** The check consented to at step `c` is passed by press `i`. */
  ghost predicate EighthRightAnswer(d: Device, t: Trace, c: nat, i: nat, grant: Grant)
    requires Lawful(d, t) && i < |t.steps|
  {
    && RightAt(d, t, i) && Issued(d, t, ToCheck, c, i, grant)
    && RightAnswers(d, t, c, i) == QUIZ_POSITIONS - 1
  }

  /** Press `j`, no later than `i`, answered the `n`th question of the check consented to at `c` with its true word. */
  ghost predicate AnsweredAt(d: Device, t: Trace, c: nat, i: nat, n: nat, j: nat)
    requires Lawful(d, t) && i < |t.steps|
  {
    && c < j <= i && LiveSince(d, t, ToCheck, c, j) && RightAt(d, t, j) && RightAnswers(d, t, c, j) == n
    && (var words := d.decrypt[t.steps[c].op.prompt.backup].value; var order := t.steps[c].op.choice.draw.order;
        n < |order| && order[n] < |words|
        && Chosen(t.consents[j].check.value.quiz, t.steps[j].op.key) == Some(words[order[n]]))
  }

  ghost predicate AnsweredBy(d: Device, t: Trace, c: nat, i: nat, n: nat)
    requires Lawful(d, t) && i < |t.steps|
  {
    exists j: nat :: AnsweredAt(d, t, c, i, n, j)
  }

  /** Each of the eight questions drawn at consent `c` was answered. */
  ghost predicate EightAnswered(d: Device, t: Trace, c: nat, i: nat)
    requires Lawful(d, t) && c < i < |t.steps| && t.steps[c].op.OpConfirm?
  {
    forall n: nat :: n < QUIZ_POSITIONS ==> AnsweredBy(d, t, c, i, n)
  }

  /** A right answer where so many had been given. */
  ghost predicate CountedAt(d: Device, t: Trace, c: nat, n: nat, j: nat)
    requires Lawful(d, t) && j < |t.steps|
  {
    LiveSince(d, t, ToCheck, c, j) && RightAt(d, t, j) && RightAnswers(d, t, c, j) == n
  }

  /** So many right answers have been given one after another, each where the count stood at its number. */
  lemma {:induction false} EachCountWasReached(d: Device, t: Trace, c: nat, i: nat, n: nat)
    requires Lawful(d, t) && i <= |t.steps| && LiveSince(d, t, ToCheck, c, i) && n < RightAnswers(d, t, c, i)
    ensures exists j: nat :: c < j < i && CountedAt(d, t, c, n, j)
    decreases i
  {
    var last := i - 1;
    LiveSinceNext(d, t, ToCheck, c, last);
    if n < RightAnswers(d, t, c, last) {
      EachCountWasReached(d, t, c, last, n);
    } else {
      assert CountedAt(d, t, c, n, last);
    }
  }

  /** A passed check was answered with the true word at each of the eight positions its consent drew. */
  lemma PassAnswersEach(d: Device, t: Trace, c: nat, i: nat, grant: Grant)
    requires Lawful(d, t) && i < |t.steps| && EighthRightAnswer(d, t, c, i, grant)
    ensures EightAnswered(d, t, c, i)
  {
    forall n: nat | n < QUIZ_POSITIONS
      ensures AnsweredBy(d, t, c, i, n)
    {
      if n == QUIZ_POSITIONS - 1 {
        RightAnswerIsTheWord(d, t, c, i);
        assert AnsweredAt(d, t, c, i, n, i);
      } else {
        EachCountWasReached(d, t, c, i, n);
        var j: nat :| c < j < i && CountedAt(d, t, c, n, j);
        RightAnswerIsTheWord(d, t, c, j);
        assert AnsweredAt(d, t, c, i, n, j);
      }
    }
  }

  /** A quiz is passed exactly by the eighth right answer since its own consent. */
  lemma PassIsTheEighthRightAnswer(d: Device, t: Trace, i: nat, grant: Grant)
    requires Lawful(d, t) && i < |t.steps|
    ensures PassesAt(d, t, i) && Live(ToCheck, t.consents[i]) == Some(grant)
       <==> exists c: nat :: EighthRightAnswer(d, t, c, i, grant)
  {
    GrantsAreConsents(d, t, ToCheck, i, grant);
    if QuizPress(d, t, i) {
      PressStep(t.consents[i].check.value.quiz, t.steps[i].op.key, t.steps[i].op.redraw);
    }
    if Live(ToCheck, t.consents[i]) == Some(grant) {
      var c: nat :| Issued(d, t, ToCheck, c, i, grant);
      CheckIsCounted(d, t, c, i);
      if PassesAt(d, t, i) {
        assert EighthRightAnswer(d, t, c, i, grant);
      } else if c': nat :| EighthRightAnswer(d, t, c', i, grant) {
        OneConsent(d, t, ToCheck, c, c', i);
      }
    }
  }

  /** Two passes go back to two consents, the later one given after the earlier pass. */
  lemma EachPassItsOwnConsent(d: Device, t: Trace, i: nat, c': nat, i': nat)
    requires Lawful(d, t) && i < i' < |t.steps|
    requires PassesAt(d, t, i) && LiveSince(d, t, ToCheck, c', i')
    ensures i < c'
  {
    assert Over(d, t, ToCheck, i) && !Begins(d, ToCheck, t.steps[i]);
  }
}
