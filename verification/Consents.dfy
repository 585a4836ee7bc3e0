/**
 The consent machine inside the session: the six fields a human's yes, a preview or a cancel moves,
 and how each call moves them. It needs nothing of the signer, the flash or the outbox but whether
 this call commits a name.
 */
module Consents {
  import opened Wrappers
  import opened Wire
  import opened Signers
  import opened Screens
  import opened Quizzes
  import opened BackupPages
  import opened PageBits
  import Entries
  import opened SessionSpec
  import opened Steps

  datatype Consent = Consent(
    revealing: Option<BackupPhase>,
    recordPending: bool,
    seenPages: nat,
    entry: Option<Entry>,
    check: Option<Checking>,
    pendingName: Option<DeviceName>)

  function ConsentOf(s: State): Consent {
    Consent(s.revealing, s.recordPending, s.seenPages, s.entry, s.check, s.pendingName)
  }

  const NO_CONSENT := Consent(None, false, 0, None, None, None)

  /** The human pressed the digit on a page that may be answered. */
  predicate Confirms(op: Op) {
    op.OpConfirm? && Authorises(op.prompt, op.page)
  }

  /** The quiz a consented check would ask. */
  function Questions(d: Device, phase: BackupPhase, draw: Draw): Option<Quiz> {
    match d.decrypt[phase] case None => None case Some(words) => NewQuiz(words, d.list, draw)
  }

  /** The call in which a pending name is committed: a confirmed ceremony finished, once its share is stored. */
  predicate FinalizesAt(s: State, op: Op, io: Io) {
    op.OpRecv? && op.body.Core? && op.body.core.KeyGen? && op.body.core.keygen.Finalize?
    && op.body.core.keygen.id in s.signer.pending
    && PersistsWell(s.(signer := ReceiveKeygen(s.signer, op.body.core.keygen).signer), io)
  }

  /** One call's move. */
  function Moved(d: Device, g: Consent, op: Op, commits: bool): Consent {
    match op
    case OpRecv(body) =>
      if body.Cancel? then NO_CONSENT.(seenPages := g.seenPages)
      else if body.Preview? then g.(pendingName := Some(body.name))
      else if commits then g.(pendingName := None)
      else g
    case OpConfirm(prompt, page, choice) => if Authorises(prompt, page) then Consented(d, g, prompt, choice.draw) else g
    case OpShow(page) =>
      (match g.revealing
       case None => g
       case Some(phase) =>
         if RevealPages(d, phase).Failure? then g.(revealing := None)
         else if Draws(page) then g.(seenPages := Mark(g.seenPages, page))
         else g.(revealing := None, recordPending := AllPages(PAGE_COUNT) == Some(g.seenPages)))
    case OpRecorded => g.(recordPending := false)
    case OpEntry(step) =>
      (match g.entry
       case None => g
       case Some(entry) =>
         match step
         case EntryUnchanged => g
         case EntryRedraw(next) => g.(entry := Some(next.(id := entry.id)))
         case EntryAbort => g.(entry := None)
         case Entered(_) => g.(entry := None))
    case OpQuiz(key, redraw) =>
      (match g.check
       case None => g
       case Some(check) =>
         var (quiz, step) := Press(check.quiz, key, redraw);
         if step.Abort? || step.Passed? then g.(check := None) else g.(check := Some(check.(quiz := quiz))))
    case OpAnnounce(_) => g
  }

  /** What a yes moves: its own kind of grant and, for a reveal, the record of the reveal before it. */
  function Consented(d: Device, g: Consent, prompt: Prompt, draw: Draw): Consent {
    match prompt
    case AskReveal(phase) =>
      if RevealPages(d, phase).Success?
      then g.(recordPending := false, seenPages := 0, revealing := Some(phase)) else g
    case AskEntry(id) => g.(entry := Some(Entry(id, Entries.Fresh(d.list))))
    case AskCheck(phase) =>
      (match Questions(d, phase, draw)
       case None => g
       case Some(quiz) => g.(check := Some(Checking(quiz, phase.ref, phase.index))))
    case _ => g
  }

  // ---- the session's calls move exactly so

  lemma FinalizeMoves(w: World, s: State, id: KeygenId, io: Io)
    ensures var op := OpRecv(Core(KeyGen(Finalize(id))));
      ConsentOf(Dispatch(w, s, KeyGen(Finalize(id)), io).post)
        == Moved(w.device, ConsentOf(s), op, FinalizesAt(s, op, io))
  {
    if id in s.signer.pending {
      var t := s.(signer := ReceiveKeygen(s.signer, Finalize(id)).signer);
      RunCommits(w, t, s.signer.pending[id].keyName, io);
      CommitSpends(w, Persisting(t, io), io);
    }
  }

  lemma DispatchMoves(w: World, s: State, core: CoreMessage, io: Io)
    requires !core.VerifyAddress? && !(core.KeyGen? && core.keygen.Finalize?)
    ensures ConsentOf(Dispatch(w, s, core, io).post) == ConsentOf(s)
  {
    var answer := Receive(s.signer, core);
    if answer.sends.Success? {
      AnswersAreQuiet(s.signer, core);
      RunQuiet(w, s.(signer := answer.signer), answer.sends.value, io);
    }
  }

  lemma RecvMoves(w: World, s: State, body: CoordinatorBody, io: Io)
    ensures ConsentOf(Recv(w, s, body, io).post)
         == Moved(w.device, ConsentOf(s), OpRecv(body), FinalizesAt(s, OpRecv(body), io))
  {
    if body.Core? {
      if body.core.VerifyAddress? {
        RunQuiet(w, s, [ToUser(ShowAddress(body.core.key, body.core.derivationIndex))], io);
      } else if body.core.KeyGen? && body.core.keygen.Finalize? {
        FinalizeMoves(w, s, body.core.keygen.id, io);
      } else {
        DispatchMoves(w, s, body.core, io);
      }
    }
  }

  lemma RunOnKeeps(w: World, s: State, acted: Acted, io: Io)
    requires Quiet(acted.sends)
    ensures ConsentOf(RunOn(w, s, acted, io).post) == ConsentOf(s)
  {
    RunQuiet(w, s.(signer := acted.signer), acted.sends, io);
  }

  lemma GrantedMoves(w: World, s: State, prompt: Prompt, choice: Choice, io: Io)
    ensures ConsentOf(Granted(w, s, prompt, choice, io).post) == Consented(w.device, ConsentOf(s), prompt, choice.draw)
  {
    var acted := Acts(s.signer, prompt, choice);
    if acted.Some? {
      RunOnKeeps(w, s, acted.value, io);
    }
  }

  lemma EntryMoves(w: World, s: State, step: EntryStep, io: Io)
    ensures ConsentOf(EntryKey(w, s, step, io).post) == Moved(w.device, ConsentOf(s), OpEntry(step), false)
  {
    if s.entry.Some? && step.Entered? {
      RunOnKeeps(w, s.(entry := None), LoadTyped(s.signer, s.entry.value.id, step.image), io);
    }
  }

  lemma ShowMoves(d: Device, s: State, page: nat)
    ensures ConsentOf(ShowBackup(d, s, page).post) == Moved(d, ConsentOf(s), OpShow(page), false)
  {
  }

  lemma QuizMoves(w: World, s: State, key: char, redraw: Option<seq<string>>)
    ensures ConsentOf(QuizKey(w, s, key, redraw).post) == Moved(w.device, ConsentOf(s), OpQuiz(key, redraw), false)
  {
    if s.check.Some? {
      var check := s.check.value;
      var (quiz, step) := Press(check.quiz, key, redraw);
      var body := BackupChecked(check.ref, check.index);
      assert QuizKey(w, s, key, redraw).post == s.(check :=
        if step.Abort? || step.Passed? then None else Some(check.(quiz := quiz))) by {
        PushSends(w, s.(check := None), body, CheckedEnded(Some(QUIZ_POSITIONS)));
      }
    }
  }

  lemma ConfirmMoves(w: World, s: State, prompt: Prompt, page: nat, choice: Choice, io: Io)
    ensures ConsentOf(ConfirmAt(w, s, prompt, page, choice, io).post)
         == Moved(w.device, ConsentOf(s), OpConfirm(prompt, page, choice), false)
  {
    GrantedMoves(w, s, prompt, choice, io);
  }

  /** Every call moves the consents as the machine says, whatever the signer, the flash and the outbox hold. */
  lemma ExecMoves(w: World, s: State, op: Op, io: Io)
    ensures ConsentOf(Exec(w, s, op, io).post) == Moved(w.device, ConsentOf(s), op, FinalizesAt(s, op, io))
  {
    match op {
      case OpRecv(body) => RecvMoves(w, s, body, io);
      case OpConfirm(prompt, page, choice) => ConfirmMoves(w, s, prompt, page, choice, io);
      case OpShow(page) => ShowMoves(w.device, s, page);
      case OpRecorded =>
      case OpEntry(step) => EntryMoves(w, s, step, io);
      case OpQuiz(key, redraw) => QuizMoves(w, s, key, redraw);
      case OpAnnounce(digest) =>
    }
  }
}
