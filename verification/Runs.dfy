/**
 Whole runs of a device: any calls in any order, with the power cut after any effect of any of them.
 A cut throws away everything but the flash and opens a new session on it.
 */
module Runs {
  import opened Wrappers
  import opened Wire
  import opened Outboxes
  import opened BackupPages
  import Entries
  import opened WordLists
  import opened RandomDraws
  import opened Quizzes
  import opened SessionSpec
  import opened Consents
  import opened Traces
  import opened Replies
  import opened RevealTraces
  import opened QuizTraces
  import opened Writes

  /** What a step did to the world outside the session's memory. */
  function Fx(w: World, s: State, step: Traces.Step): seq<Effect> {
    var fx := Exec(w, s, step.op, step.io).fx;
    if step.CutOff? && step.k <= |fx| then fx[..step.k] else fx
  }

  /** The boot after the power came back. */
  function Reopened(s: State, fx: seq<Effect>): State {
    Open(SharesAfter(s.shares, fx), NamesAfter(s.names, fx))
  }

  function Next(w: World, s: State, step: Traces.Step): State {
    if step.Called? then Exec(w, s, step.op, step.io).post else Reopened(s, Fx(w, s, step))
  }

  /** A run starts with a boot, on flash in any state at all. */
  ghost predicate Booted(s: State) {
    exists shares, names :: s == Open(shares, names)
  }

  /** The states before each step, and after the last. */
  ghost predicate Ran(w: World, run: seq<Traces.Step>, states: seq<State>) {
    && |states| == |run| + 1
    && Booted(states[0])
    && forall i: nat {:trigger StepOf(w, run, states, i)} :: i < |run| ==> StepOf(w, run, states, i)
  }

  ghost predicate StepOf(w: World, run: seq<Traces.Step>, states: seq<State>, i: nat)
    requires |states| == |run| + 1 && i < |run|
  {
    states[i + 1] == Next(w, states[i], run[i]) && Drawn(w.device, states[i], run[i].op)
  }

  /** What a call's random draws and its entry machine yielded is what they can yield. */
  ghost predicate Drawn(d: Device, s: State, op: Op) {
    match op
    case OpConfirm(prompt, _, choice) => exists rng: Entropy :: choice.draw == DrawFor(d, prompt, rng)
    case OpEntry(step) => exists key :: step == Typing(d, s, key)
    case OpQuiz(key, redraw) => exists rng: Entropy :: redraw == RedrawFor(d, s, key, rng)
    case _ => true
  }

  // ---- a run's consents

  lemma NextConsent(w: World, s: State, step: Traces.Step, t: State)
    requires t == Next(w, s, step)
    ensures ConsentOf(t) == Traces.After(w.device, ConsentOf(s), step, FinalizesAt(s, step.op, step.io))
  {
    ExecMoves(w, s, step.op, step.io);
  }

  ghost function CommitsIn(run: seq<Traces.Step>, states: seq<State>): seq<bool>
    requires |states| == |run| + 1
  {
    seq(|run|, i requires 0 <= i < |run| => FinalizesAt(states[i], run[i].op, run[i].io))
  }

  ghost function TraceOf(run: seq<Traces.Step>, states: seq<State>): Trace
    requires |states| == |run| + 1
  {
    Trace(run, seq(|states|, i requires 0 <= i < |states| => ConsentOf(states[i])), CommitsIn(run, states))
  }

  lemma TraceStep(w: World, run: seq<Traces.Step>, states: seq<State>, i: nat)
    requires Ran(w, run, states) && i < |run|
    ensures StepIsLawful(w.device, TraceOf(run, states), i)
  {
    assert StepOf(w, run, states, i);
    NextConsent(w, states[i], run[i], states[i + 1]);
  }

  lemma BootHasNoConsent(s: State)
    requires Booted(s)
    ensures ConsentOf(s) == NO_CONSENT
  {
  }

  /** Every run of the session is a run of the consent machine. */
  lemma RunsAreLawful(w: World, run: seq<Traces.Step>, states: seq<State>)
    requires Ran(w, run, states)
    ensures Lawful(w.device, TraceOf(run, states))
  {
    BootHasNoConsent(states[0]);
    var t := TraceOf(run, states);
    forall i: nat | i < |t.steps|
      ensures StepIsLawful(w.device, t, i)
    {
      TraceStep(w, run, states, i);
    }
  }

  // ---- the frames of a run

  /** What step `i` of a run did. */
  function FxOf(w: World, run: seq<Traces.Step>, states: seq<State>, i: nat): seq<Effect>
    requires i < |run| && |states| == |run| + 1
  {
    Fx(w, states[i], run[i])
  }

  /** At least one effect of a step happened. */
  predicate Reaches(step: Traces.Step) {
    step.CutOff? ==> step.k >= 1
  }

  lemma OneEffect(w: World, s: State, step: Traces.Step, e: Effect)
    requires Exec(w, s, step.op, step.io).fx == [e]
    ensures Fx(w, s, step) == if Reaches(step) then [e] else []
  {
  }

  /** A page is drawn by the call that asks for it under a reveal, and by nothing else. */
  lemma DrawnBy(w: World, s: State, step: Traces.Step, phase: BackupPhase, page: nat)
    requires Sound(w.device, ConsentOf(s))
    ensures Drew(phase, page) in Fx(w, s, step)
       <==> step.op == OpShow(page) && Draws(page) && Reaches(step) && s.revealing == Some(phase)
  {
    if Drew(phase, page) in Fx(w, s, step) {
      EveryEffectIsSourced(w, s, step.op, step.io, Drew(phase, page));
    }
    if step.op == OpShow(page) && Draws(page) && s.revealing == Some(phase) {
      OneEffect(w, s, step, Drew(phase, page));
    }
  }

  /** A page is drawn exactly when it is asked for under a live consent to reveal that backup. */
  lemma DrawnIffConsented(w: World, run: seq<Traces.Step>, states: seq<State>, i: nat, phase: BackupPhase, page: nat)
    requires Ran(w, run, states) && i < |run|
    ensures Lawful(w.device, TraceOf(run, states))
    ensures Drew(phase, page) in FxOf(w, run, states, i) <==>
      && run[i].op == OpShow(page) && Draws(page) && Reaches(run[i])
      && exists c: nat :: Issued(w.device, TraceOf(run, states), ToReveal, c, i, OfReveal(phase))
  {
    RunsAreLawful(w, run, states);
    var t := TraceOf(run, states);
    assert t.consents[i] == ConsentOf(states[i]);
    GrantsAreConsents(w.device, t, ToReveal, i, OfReveal(phase));
    SoundAt(w.device, t, i);
    DrawnBy(w, states[i], run[i], phase, page);
  }

  /** The answer to the question is one frame, once, and only the answer sends it. */
  lemma RecordedBy(w: World, s: State, step: Traces.Step)
    ensures Sent(BackupRecorded) in Fx(w, s, step)
       <==> step.op.OpRecorded? && s.recordPending && Reaches(step) && w.encode[BackupRecorded].Success?
    ensures Sent(BackupRecorded) in Fx(w, s, step) ==> Fx(w, s, step) == [Sent(BackupRecorded)]
  {
    if Sent(BackupRecorded) in Fx(w, s, step) {
      EveryEffectIsSourced(w, s, step.op, step.io, Sent(BackupRecorded));
    }
    if step.op.OpRecorded? && s.recordPending {
      WholeFrame(w.encode, BackupRecorded);
      if w.encode[BackupRecorded].Success? {
        assert SentEach([BackupRecorded]) == [Sent(BackupRecorded)];
        OneEffect(w, s, step, Sent(BackupRecorded));
      }
    }
  }

  /**
   The coordinator hears that a backup was recorded exactly when the human said so of a reveal it was
   consented to and shown whole, with nothing in between that withdraws it; and it hears it once.
   */
  lemma RecordedIffEarned(w: World, run: seq<Traces.Step>, states: seq<State>, i: nat)
    requires Ran(w, run, states) && i < |run|
    ensures Lawful(w.device, TraceOf(run, states))
    ensures Sent(BackupRecorded) in FxOf(w, run, states, i) <==>
      && run[i].op.OpRecorded? && Reaches(run[i]) && w.encode[BackupRecorded].Success?
      && exists c: nat, e: nat :: Asked(w.device, TraceOf(run, states), c, e, i)
    ensures Sent(BackupRecorded) in FxOf(w, run, states, i) ==> FxOf(w, run, states, i) == [Sent(BackupRecorded)]
  {
    RunsAreLawful(w, run, states);
    var t := TraceOf(run, states);
    assert t.consents[i] == ConsentOf(states[i]);
    QuestionIsEarned(w.device, t, i);
    RecordedBy(w, states[i], run[i]);
  }

  /** Every recorded frame of a run has a consent of its own. */
  lemma RecordedFramesHaveTheirOwnConsents(w: World, run: seq<Traces.Step>, states: seq<State>, i: nat, i': nat)
    requires Ran(w, run, states) && i < i' < |run|
    requires Sent(BackupRecorded) in FxOf(w, run, states, i) && Sent(BackupRecorded) in FxOf(w, run, states, i')
    ensures Lawful(w.device, TraceOf(run, states))
    ensures exists c: nat, e: nat, c': nat, e': nat ::
      && Asked(w.device, TraceOf(run, states), c, e, i) && Asked(w.device, TraceOf(run, states), c', e', i')
      && c < i < c'
  {
    var t := TraceOf(run, states);
    RecordedIffEarned(w, run, states, i);
    RecordedIffEarned(w, run, states, i');
    var c: nat, e: nat :| Asked(w.device, t, c, e, i);
    var c': nat, e': nat :| Asked(w.device, t, c', e', i');
    EachAnswerItsOwnConsent(w.device, t, c, e, i, c', e', i');
  }

  /** The quiz's press passes, and what it then tells the coordinator. */
  predicate PassesWith(s: State, op: Op, ref: AccessRef, index: ShareIndex) {
    op.OpQuiz? && s.check.Some? && s.check.value.ref == ref && s.check.value.index == index
    && Quizzes.Press(s.check.value.quiz, op.key, op.redraw).1.Passed?
  }

  /** Any press of the quiz but the one that passes does nothing to the world. */
  lemma QuizFrames(w: World, s: State, key: char, redraw: Option<seq<string>>)
    ensures var fx := QuizKey(w, s, key, redraw).fx;
      if s.check.Some? && PassesWith(s, OpQuiz(key, redraw), s.check.value.ref, s.check.value.index)
      then var body := BackupChecked(s.check.value.ref, s.check.value.index);
        fx == if w.encode[body].Success? then [Sent(body)] else []
      else fx == []
  {
    if s.check.Some? {
      var body := BackupChecked(s.check.value.ref, s.check.value.index);
      WholeFrame(w.encode, body);
      assert Frames(body) == [body] && SentEach([body]) == [Sent(body)];
    }
  }

  lemma CheckedBy(w: World, s: State, step: Traces.Step, ref: AccessRef, index: ShareIndex)
    ensures Sent(BackupChecked(ref, index)) in Fx(w, s, step)
       <==> PassesWith(s, step.op, ref, index) && Reaches(step) && w.encode[BackupChecked(ref, index)].Success?
  {
    var body := BackupChecked(ref, index);
    if Sent(body) in Fx(w, s, step) {
      EveryEffectIsSourced(w, s, step.op, step.io, Sent(body));
    }
    if PassesWith(s, step.op, ref, index) {
      QuizFrames(w, s, step.op.key, step.op.redraw);
      if w.encode[body].Success? {
        OneEffect(w, s, step, Sent(body));
      }
    }
  }

  /** A press of a live quiz that does not pass it does nothing to the world. */
  lemma OtherPressesAreSilent(w: World, s: State, step: Traces.Step)
    requires step.op.OpQuiz? && s.check.Some?
    requires !PassesWith(s, step.op, s.check.value.ref, s.check.value.index)
    ensures Fx(w, s, step) == []
  {
    QuizFrames(w, s, step.op.key, step.op.redraw);
  }

  /**
   The coordinator hears that a backup was checked exactly when the eighth right answer since the
   human's own consent is given, and it hears that consent's access structure and share index. No other
   press of a live quiz does anything to the world.
   */
  lemma CheckedIffPassed(w: World, run: seq<Traces.Step>, states: seq<State>, i: nat, ref: AccessRef, index: ShareIndex)
    requires Ran(w, run, states) && i < |run|
    ensures Lawful(w.device, TraceOf(run, states))
    ensures Sent(BackupChecked(ref, index)) in FxOf(w, run, states, i) <==>
      && Reaches(run[i]) && w.encode[BackupChecked(ref, index)].Success?
      && exists c: nat :: EighthRightAnswer(w.device, TraceOf(run, states), c, i, OfCheck(ref, index))
    ensures QuizPress(w.device, TraceOf(run, states), i) && !PassesAt(w.device, TraceOf(run, states), i)
      ==> FxOf(w, run, states, i) == []
  {
    RunsAreLawful(w, run, states);
    var t := TraceOf(run, states);
    assert t.consents[i] == ConsentOf(states[i]);
    CheckedBy(w, states[i], run[i], ref, index);
    if QuizPress(w.device, t, i) && !PassesAt(w.device, t, i) {
      OtherPressesAreSilent(w, states[i], run[i]);
    }
    PassIsTheEighthRightAnswer(w.device, t, i, OfCheck(ref, index));
  }

  /** A checked frame was answered for with the true word at eight different positions, the last one among them. */
  lemma CheckedAnswersEightPositions(w: World, run: seq<Traces.Step>, states: seq<State>, i: nat, ref: AccessRef,
                                     index: ShareIndex)
    requires Ran(w, run, states) && i < |run| && Sent(BackupChecked(ref, index)) in FxOf(w, run, states, i)
    ensures Lawful(w.device, TraceOf(run, states))
    ensures exists c: nat ::
      && EighthRightAnswer(w.device, TraceOf(run, states), c, i, OfCheck(ref, index))
      && AsksFairly(run[c].op.choice.draw.order)
      && EightAnswered(w.device, TraceOf(run, states), c, i)
  {
    var t := TraceOf(run, states);
    CheckedIffPassed(w, run, states, i, ref, index);
    var c: nat :| EighthRightAnswer(w.device, t, c, i, OfCheck(ref, index));
    PassAnswersEach(w.device, t, c, i, OfCheck(ref, index));
    OrderIsFair(w, run, states, c);
  }

  /** The order a consented check asks is of eight different positions, the last one among them. */
  lemma OrderIsFair(w: World, run: seq<Traces.Step>, states: seq<State>, c: nat)
    requires Ran(w, run, states) && c < |run| && Begins(w.device, ToCheck, run[c])
    ensures AsksFairly(run[c].op.choice.draw.order)
  {
    assert StepOf(w, run, states, c);
    var op := run[c].op;
    var rng: Entropy :| op.choice.draw == DrawFor(w.device, op.prompt, rng);
    OrderIs(BACKUP_WORDS, QUIZ_POSITIONS, rng);
  }

  /** A device whose list is a word list, and whose backups have all their words. */
  ghost predicate Whole(d: Device) {
    WordList(d.list) && forall phase :: d.decrypt[phase].Some? ==> |d.decrypt[phase].value| == BACKUP_WORDS
  }

  /** In every reachable state a live check has a question to ask, with three candidates that can be told apart. */
  lemma {:induction false} CheckIsAsking(w: World, run: seq<Traces.Step>, states: seq<State>, i: nat)
    requires Ran(w, run, states) && i <= |run| && Whole(w.device)
    ensures states[i].check.Some? ==> Asking(states[i].check.value.quiz, w.device.list)
  {
    if i == 0 {
      BootHasNoConsent(states[0]);
    } else {
      var last := i - 1;
      var s, step, t := states[last], run[last], states[i];
      CheckIsAsking(w, run, states, last);
      assert StepOf(w, run, states, last);
      NextConsent(w, s, step, t);
      AskingStep(w.device, s, step, FinalizesAt(s, step.op, step.io), ConsentOf(t));
    }
  }

  lemma AskingStep(d: Device, s: State, step: Traces.Step, commits: bool, h: Consent)
    requires Whole(d) && Drawn(d, s, step.op) && h == Traces.After(d, ConsentOf(s), step, commits)
    requires s.check.Some? ==> Asking(s.check.value.quiz, d.list)
    ensures h.check.Some? ==> Asking(h.check.value.quiz, d.list)
  {
    var g, op := ConsentOf(s), step.op;
    if step.Called? && op.OpQuiz? && s.check.Some? {
      var rng: Entropy :| op.redraw == RedrawFor(d, s, op.key, rng);
      PressKeepsAsking(s.check.value.quiz, op.key, d.list, rng);
      AfterPress(d, g, op.key, op.redraw, commits);
    } else if step.Called? && op.OpConfirm? {
      var rng: Entropy :| op.choice.draw == DrawFor(d, op.prompt, rng);
      ConsentedIsAsking(d, g, op.prompt, op.page, op.choice, commits, rng);
    } else if step.Called? {
      AfterOther(d, g, op, commits);
    }
  }

  lemma AfterPress(d: Device, g: Consent, key: char, redraw: Option<seq<string>>, commits: bool)
    requires g.check.Some?
    ensures var h := Moved(d, g, OpQuiz(key, redraw), commits);
      var (quiz, step) := Press(g.check.value.quiz, key, redraw);
      h.check == if step.Unchanged? || step.Redraw? then Some(g.check.value.(quiz := quiz)) else None
  {
  }

  lemma AfterOther(d: Device, g: Consent, op: Op, commits: bool)
    requires !op.OpConfirm? && !(op.OpQuiz? && g.check.Some?)
    ensures Moved(d, g, op, commits).check == g.check || Moved(d, g, op, commits).check.None?
  {
  }

  lemma ConsentedIsAsking(d: Device, g: Consent, prompt: Prompt, page: nat, choice: Choice, commits: bool, rng: Entropy)
    requires Whole(d) && choice.draw == DrawFor(d, prompt, rng)
    requires g.check.Some? ==> Asking(g.check.value.quiz, d.list)
    ensures var h := Moved(d, g, OpConfirm(prompt, page, choice), commits);
      h.check.Some? ==> Asking(h.check.value.quiz, d.list)
  {
    if prompt.AskCheck? {
      CheckConsentAsks(d, g, prompt, choice.draw, rng);
    } else {
      assert Consented(d, g, prompt, choice.draw).check == g.check;
    }
  }

  lemma CheckConsentAsks(d: Device, g: Consent, prompt: Prompt, draw: Draw, rng: Entropy)
    requires Whole(d) && prompt.AskCheck? && draw == DrawFor(d, prompt, rng)
    ensures var h := Consented(d, g, prompt, draw);
      h.check == g.check || (h.check.Some? && Asking(h.check.value.quiz, d.list))
  {
    if d.decrypt[prompt.backup].Some? {
      NewQuizIff(d.decrypt[prompt.backup].value, d.list, rng);
    }
  }

  /** So no key but the cancel key ever makes a check give up. */
  lemma OnlyCancelGivesUp(w: World, run: seq<Traces.Step>, states: seq<State>, i: nat)
    requires Ran(w, run, states) && i < |run| && Whole(w.device)
    requires run[i].op.OpQuiz? && states[i].check.Some?
    ensures var op := run[i].op;
      Press(states[i].check.value.quiz, op.key, op.redraw).1.Abort? <==> op.key == KEY_CANCEL
  {
    CheckIsAsking(w, run, states, i);
    assert StepOf(w, run, states, i);
    var s, op := states[i], run[i].op;
    var rng: Entropy :| op.redraw == RedrawFor(w.device, s, op.key, rng);
    PressKeepsAsking(s.check.value.quiz, op.key, w.device.list, rng);
  }

  /** In every reachable state what has been typed of a share begins one: the entry machine is in a sound state. */
  lemma {:induction false} EntryIsSound(w: World, run: seq<Traces.Step>, states: seq<State>, i: nat)
    requires Ran(w, run, states) && i <= |run| && WordList(w.device.list)
    ensures states[i].entry.Some? ==> Entries.Sound(w.device.list, states[i].entry.value.typing)
  {
    if i == 0 {
      BootHasNoConsent(states[0]);
    } else {
      var last := i - 1;
      var s, step, t := states[last], run[last], states[i];
      EntryIsSound(w, run, states, last);
      assert StepOf(w, run, states, last);
      NextConsent(w, s, step, t);
      TypingStep(w.device, s, step, FinalizesAt(s, step.op, step.io), ConsentOf(t));
    }
  }

  lemma TypingStep(d: Device, s: State, step: Traces.Step, commits: bool, h: Consent)
    requires WordList(d.list) && Drawn(d, s, step.op) && h == Traces.After(d, ConsentOf(s), step, commits)
    requires s.entry.Some? ==> Entries.Sound(d.list, s.entry.value.typing)
    ensures h.entry.Some? ==> Entries.Sound(d.list, h.entry.value.typing)
  {
    var op := step.op;
    if step.Called? && op.OpEntry? && s.entry.Some? {
      var key :| op.step == Typing(d, s, key);
      Entries.KeysKeepSound(d.list, d.checks, s.entry.value.typing, key);
      assert h.entry.Some? ==> h.entry.value.typing == Entries.Keyed(d.list, d.checks, s.entry.value.typing, key).0;
    } else if step.Called? {
      TypingBegins(d, ConsentOf(s), op, commits);
      Entries.FreshIsSound(d.list);
    }
  }

  lemma TypingBegins(d: Device, g: Consent, op: Op, commits: bool)
    requires !(op.OpEntry? && g.entry.Some?)
    ensures var h := Moved(d, g, op, commits);
      h.entry == g.entry || h.entry.None? || h.entry.value.typing == Entries.Fresh(d.list)
  {
  }

  /** Every checked frame of a run has a consent of its own. */
  lemma CheckedFramesHaveTheirOwnConsents(w: World, run: seq<Traces.Step>, states: seq<State>, i: nat, i': nat,
                                          ref: AccessRef, index: ShareIndex, ref': AccessRef, index': ShareIndex)
    requires Ran(w, run, states) && i < i' < |run|
    requires Sent(BackupChecked(ref, index)) in FxOf(w, run, states, i)
    requires Sent(BackupChecked(ref', index')) in FxOf(w, run, states, i')
    ensures Lawful(w.device, TraceOf(run, states))
    ensures exists c: nat, c': nat ::
      && EighthRightAnswer(w.device, TraceOf(run, states), c, i, OfCheck(ref, index))
      && EighthRightAnswer(w.device, TraceOf(run, states), c', i', OfCheck(ref', index'))
      && c < i < c'
  {
    var t := TraceOf(run, states);
    CheckedIffPassed(w, run, states, i, ref, index);
    CheckedIffPassed(w, run, states, i', ref', index');
    var c: nat :| EighthRightAnswer(w.device, t, c, i, OfCheck(ref, index));
    var c': nat :| EighthRightAnswer(w.device, t, c', i', OfCheck(ref', index'));
    PassIsTheEighthRightAnswer(w.device, t, i, OfCheck(ref, index));
    EachPassItsOwnConsent(w.device, t, i, c', i');
  }

  /**
   In every state of a run a reveal, a transcription, a check or a pending name is live exactly when its
   own consent was given and nothing has ended it since; and a live reveal leaves no question open.
   */
  lemma RunGrantsAreConsents(w: World, run: seq<Traces.Step>, states: seq<State>, kind: Kind, i: nat, grant: Grant)
    requires Ran(w, run, states) && i <= |run|
    ensures Lawful(w.device, TraceOf(run, states))
    ensures Live(kind, ConsentOf(states[i])) == Some(grant)
       <==> exists c: nat :: Issued(w.device, TraceOf(run, states), kind, c, i, grant)
    ensures states[i].revealing.Some? ==> !states[i].recordPending
  {
    RunsAreLawful(w, run, states);
    var t := TraceOf(run, states);
    assert t.consents[i] == ConsentOf(states[i]);
    GrantsAreConsents(w.device, t, kind, i, grant);
    SoundAt(w.device, t, i);
  }
}
