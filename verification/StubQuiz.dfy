/** The scripted human's quiz: read each question off the glass, answer it from paper, until it passes. */
module StubQuiz {
  import opened Wrappers
  import opened Wire
  import opened QuizGlass
  import opened BackupPages
  import opened Quizzes
  import opened RandomDraws
  import opened Outboxes
  import opened Sessions
  import opened Stub
  import S = SessionSpec

  datatype QuizDeath =
    | NoQuiz | Unread(why: Misread) | AnsweredTooMuch | QuizAborted | NothingScored | NotTaken | MiscountedPass

  /** The paper has every word of the quiz under its number. */
  predicate OnPaper(words: seq<string>, paper: map<nat, string>) {
    forall n: nat :: n < |words| ==> n + 1 in paper && paper[n + 1] == words[n]
  }

  /** Where a quiz answered without a mistake stands. */
  ghost predicate Sitting(session: Session, ref: AccessRef, index: ShareIndex, paper: map<nat, string>, answers: nat)
    reads session
  {
    && session.check.Some?
    && var check := session.check.value;
       && check.ref == ref && check.index == index && check.quiz.asked == answers
       && Asking(check.quiz, session.device.list) && OnPaper(check.quiz.words, paper)
  }

  /** A right answer passes the quiz or asks the next question, whatever the random words. */
  lemma RightAnswerAdvances(q: Quiz, key: char, list: seq<string>, rng: Entropy)
    requires Asking(q, list) && AnswersTruth(q, key)
    ensures var (q', step) := Press(q, key, Redrawn(q, key, list, rng));
      if q.asked + 1 == QUIZ_POSITIONS then step.Passed?
      else step.Redraw? && Asking(q', list) && q'.asked == q.asked + 1 && q'.words == q.words
  {
    PressKeepsAsking(q, key, list, rng);
  }

  /** What the session makes of a right answer: the next question, or the one frame that reports the pass. */
  lemma RightAnswerScores(w: S.World, s: S.State, key: char, rng: Entropy)
    requires s.check.Some? && Asking(s.check.value.quiz, w.device.list) && AnswersTruth(s.check.value.quiz, key)
    requires w.encode[BackupChecked(s.check.value.ref, s.check.value.index)].Success?
    ensures var check := s.check.value; var q := check.quiz;
      var redraw := S.RedrawFor(w.device, s, key, rng); var o := S.QuizKey(w, s, key, redraw);
      var q' := Press(q, key, redraw).0;
      if q.asked + 1 == QUIZ_POSITIONS then
        && o.result == Success(S.CheckedEnded(Some(QUIZ_POSITIONS))) && o.post == s.(check := None)
        && SentIn(o.fx) == [BackupChecked(check.ref, check.index)]
      else
        && o.result == Success(S.CheckedRedraw) && o.post == s.(check := Some(check.(quiz := q'))) && o.fx == []
        && Asking(q', w.device.list) && q'.asked == q.asked + 1 && q'.words == q.words
  {
    RightAnswerAdvances(s.check.value.quiz, key, w.device.list, rng);
    StepScores(w, s, key, S.RedrawFor(w.device, s, key, rng));
  }

  lemma StepScores(w: S.World, s: S.State, key: char, redraw: Option<seq<string>>)
    requires s.check.Some? && w.encode[BackupChecked(s.check.value.ref, s.check.value.index)].Success?
    ensures var check := s.check.value; var o := S.QuizKey(w, s, key, redraw);
      var (q', step) := Press(check.quiz, key, redraw);
      && (step.Passed? ==> o.result == Success(S.CheckedEnded(Some(QUIZ_POSITIONS))) && o.post == s.(check := None)
                           && SentIn(o.fx) == [BackupChecked(check.ref, check.index)])
      && (step.Redraw? ==> o.result == Success(S.CheckedRedraw) && o.fx == []
                           && o.post == s.(check := Some(check.(quiz := q'))))
  {
    var body := BackupChecked(s.check.value.ref, s.check.value.index);
    WholeFrame(w.encode, body);
    SentInFrames([body]);
  }

  /** A question that will be answered right, and whose pass would fit its frame. */
  ghost predicate Ready(session: Session, out: Outbox, ref: AccessRef, index: ShareIndex, paper: map<nat, string>,
                        answers: nat)
    reads session, out
  {
    && answers < QUIZ_POSITIONS && Sitting(session, ref, index, paper, answers)
    && out.encode[BackupChecked(ref, index)].Success?
  }

  /** One question: read, answered, scored. `None` while the quiz goes on. */
  method OneQuestion(session: Session, out: Outbox, paper: map<nat, string>, noise: OptionNoise, rng: Entropy,
                     ghost ref: AccessRef, ghost index: ShareIndex, ghost answers: nat)
    returns (r: Result<Option<nat>, QuizDeath>)
    requires session.Valid() && out.Valid()
    modifies session, out
    ensures out.Valid()
    ensures old(Ready(session, out, ref, index, paper, answers)) ==>
      if answers + 1 == QUIZ_POSITIONS
      then r == Success(Some(QUIZ_POSITIONS)) && out.sent == old(out.sent) + [BackupChecked(ref, index)]
        && session.check.None?
      else r == Success(None) && out.sent == old(out.sent) && Sitting(session, ref, index, paper, answers + 1)
    ensures old(Ready(session, out, ref, index, paper, answers)) ==>
      session.revealing == old(session.revealing) && session.recordPending == old(session.recordPending)
  {
    ghost var ready := Ready(session, out, ref, index, paper, answers);
    if ready {
      ReadKeyAnswersTruth(session.check.value.quiz, session.device.list, noise, paper);
    }
    if session.check.None? || !Askable(session.check.value.quiz) {
      return Failure(NoQuiz);
    }
    var q := session.check.value.quiz;
    var key := QuizAnswer(QuestionPage(q, noise), paper);
    if key.Failure? {
      return Failure(Unread(key.error));
    }
    if ready {
      RightAnswerScores(session.With(out), session.Now(), key.value, rng);
      NothingHappens(session.journal, out.sent);
    }
    var scored := session.QuizKey(key.value, rng, out);
    if scored.Failure? {
      return Failure(NotTaken);
    }
    match scored.value {
      case CheckedUnchanged => r := Failure(NothingScored);
      case CheckedRedraw => r := Success(None);
      case CheckedEnded(None) => r := Failure(QuizAborted);
      case CheckedEnded(Some(n)) => r := Success(Some(n));
    }
  }

  /**
   `check_quiz`: from a fresh quiz over the words on paper, whatever the random words, all eight questions are
   answered right off the glass, the quiz passes on the eighth, and the coordinator hears it once.
   */
  method CheckQuiz(session: Session, out: Outbox, paper: map<nat, string>, noise: seq<OptionNoise>,
                   rngs: seq<Entropy>, ghost ref: AccessRef, ghost index: ShareIndex)
    returns (r: Result<nat, QuizDeath>)
    requires session.Valid() && out.Valid() && |noise| > QUIZ_POSITIONS && |rngs| > QUIZ_POSITIONS
    modifies session, out
    ensures out.Valid()
    ensures old(Ready(session, out, ref, index, paper, 0)) ==>
      && r == Success(QUIZ_POSITIONS) && out.sent == old(out.sent) + [BackupChecked(ref, index)] && session.check.None?
      && session.revealing == old(session.revealing) && session.recordPending == old(session.recordPending)
  {
    ghost var ready := Ready(session, out, ref, index, paper, 0);
    var answers := 0;
    while true
      invariant out.Valid() && answers <= QUIZ_POSITIONS
      invariant ready ==> answers < QUIZ_POSITIONS && out.sent == old(out.sent)
      invariant ready ==> Ready(session, out, ref, index, paper, answers)
      invariant ready ==>
        session.revealing == old(session.revealing) && session.recordPending == old(session.recordPending)
      decreases QUIZ_POSITIONS - answers
    {
      if answers == QUIZ_POSITIONS {
        return Failure(AnsweredTooMuch);
      }
      var scored := OneQuestion(session, out, paper, noise[answers], rngs[answers], ref, index, answers);
      if scored.Failure? {
        return Failure(scored.error);
      }
      answers := answers + 1;
      if scored.value.Some? {
        if scored.value.value != QUIZ_POSITIONS || answers != QUIZ_POSITIONS {
          return Failure(MiscountedPass);
        }
        return Success(answers);
      }
    }
  }

  /** What the reveal's walk wrote down is paper enough for a quiz over the same share. */
  lemma RevealedSheetIsPaper(sheet: Sheet, index: nat, words: seq<string>)
    requires |words| == BACKUP_WORDS
    ensures OnPaper(words, SheetBefore(sheet, index, words, PAGE_COUNT).words)
  {
    WholeSheet(sheet, index, words);
    forall n: nat | n < |words|
      ensures n + 1 in SheetBefore(sheet, index, words, PAGE_COUNT).words
           && SheetBefore(sheet, index, words, PAGE_COUNT).words[n + 1] == words[n]
    {
      assert Numbers(n + 1, BACKUP_WORDS);
    }
  }
}
