/** Where every effect of a call comes from: what must have been asked, confirmed or held for it. */
module Replies {
  import opened Wrappers
  import opened Wire
  import opened NameStores
  import opened Signers
  import opened ShareStores
  import opened Outboxes
  import opened Quizzes
  import opened BackupPages
  import opened SessionSpec
  import opened Steps
  import opened Consents

  /** The share index the coordinator's restoration message may have answered without a human. */
  predicate AsksConsolidation(s: State, op: Op, ref: AccessRef, index: ShareIndex) {
    op.OpRecv? && op.body.Core? && op.body.core.Restore? && op.body.core.restoration.Consolidate?
    && op.body.core.restoration.ref == ref && op.body.core.restoration.image.index == index
    && ShareAt(s.signer, ref, index).Some?
  }

  predicate SavesTyped(s: State, op: Op, image: ShareImage) {
    op.OpRecv? && op.body.Core? && op.body.core.Restore? && image in s.signer.loaded
    && (op.body.core.restoration == SavePhysicalBackup(image) || op.body.core.restoration == SavePhysicalBackup2(image))
  }

  /** What a protocol reply took. */
  predicate Justified(s: State, op: Op, message: DeviceMessage) {
    match message
    case KeygenAck(id, sessionHash) =>
      Confirms(op) && op.prompt.CheckKeyGen? && op.prompt.keygen.id == id && op.prompt.keygen.sessionHash == sessionHash
    case SignatureShare(session, signatures) =>
      Confirms(op) && op.prompt.SignatureRequest? && op.prompt.sign.session == session
      && op.choice.signature == Some(signatures)
    case PhysicalEntered(enterId, image) =>
      op == OpEntry(Entered(image)) && s.entry.Some? && s.entry.value.id == enterId
    case PhysicalSaved(image) => SavesTyped(s, op, image)
    case FinishedConsolidation(ref, index) =>
      (Confirms(op) && op.prompt.AskConsolidate?
       && op.prompt.consolidation.ref == ref && op.prompt.consolidation.image.index == index)
      || AsksConsolidation(s, op, ref, index)
    case KeygenResponse(id) => HearsKeygen(op) && op.body.core.keygen.Begin? && op.body.core.keygen.id == id
    case KeygenCertify(id) =>
      id in s.signer.begun && HearsKeygen(op) && op.body.core.keygen == CertifyPlease(id, true)
    case NonceResponse(_) => op.OpRecv? && op.body.Core? && op.body.core.Sign? && op.body.core.signing.OpenNonceStreams?
    case HeldShares(shares) => op == OpRecv(Core(Restore(RequestHeldShares))) && shares == HeldBy(s.signer)
  }

  predicate HearsKeygen(op: Op) {
    op.OpRecv? && op.body.Core? && op.body.core.KeyGen?
  }

  /** What an effect took. */
  predicate Sourced(w: World, s: State, op: Op, io: Io, e: Effect) {
    match e
    case Drew(phase, page) => op == OpShow(page) && s.revealing == Some(phase) && Draws(page)
    case ShareCells(_) => op.OpRecv? || Confirms(op) || (op.OpEntry? && op.step.Entered?)
    case NameCells(_) => FinalizesAt(s, op, io) && s.pendingName.Some?
    case Sent(frame) =>
      match frame
      case FromCore(message) => Justified(s, op, message)
      case BackupRecorded => op.OpRecorded? && s.recordPending
      case BackupChecked(ref, index) =>
        op.OpQuiz? && s.check.Some? && s.check.value.ref == ref && s.check.value.index == index
        && Press(s.check.value.quiz, op.key, op.redraw).1.Passed?
      case SetName(name) =>
        (op.OpAnnounce? && LoadedName(w.hash, s.names).Some? && name == CutName(LoadedName(w.hash, s.names).value))
        || (FinalizesAt(s, op, io) && s.pendingName == Some(name))
      case NeedName => op.OpAnnounce? && LoadedName(w.hash, s.names).None?
      case Announce(_) => op.OpAnnounce?
      case Debug(_) => false
  }

  /** A run over a quiet queue: cell writes, then its own elements' frames. */
  lemma RunQuietSources(w: World, s: State, sends: seq<Send>, io: Io, e: Effect)
    requires Quiet(sends) && e in Run(w, s, sends, io).fx
    ensures e.ShareCells? || (e.Sent? && exists i :: 0 <= i < |sends| && e.frame in FramesFor(sends[i]))
  {
    var steps := Persist(s.shares, s.signer.staged, io.share).steps;
    var fx := Run(w, s, sends, io).fx;
    RunQuiet(w, s, sends, io);
    ShareEachAre(steps);
    assert fx == fx[..|ShareEach(steps)|] + fx[|ShareEach(steps)|..];
    if e !in fx[|ShareEach(steps)|..] {
      assert e in ShareEach(steps);
    }
  }

  /** One reply, whole or split into its nonce segments, keeps its kind. */
  lemma ReplyFrames(message: DeviceMessage, frame: Body)
    requires frame in Frames(FromCore(message))
    ensures frame.FromCore? && if message.NonceResponse? then frame.message.NonceResponse? else frame.message == message
  {
  }

  lemma DispatchSources(w: World, s: State, core: CoreMessage, io: Io, e: Effect)
    requires !core.VerifyAddress? && !(core.KeyGen? && core.keygen.Finalize?)
    requires e in Dispatch(w, s, core, io).fx
    ensures Sourced(w, s, OpRecv(Core(core)), io, e)
  {
    var answer := Receive(s.signer, core);
    if answer.sends.Success? {
      AnswersAreQuiet(s.signer, core);
      RunQuietSources(w, s.(signer := answer.signer), answer.sends.value, io, e);
      if e.Sent? {
        var sends := answer.sends.value;
        var i :| 0 <= i < |sends| && e.frame in FramesFor(sends[i]);
        AnswerSources(s, core, i, e.frame);
      }
    }
  }

  lemma AnswerSources(s: State, core: CoreMessage, i: nat, frame: Body)
    requires !core.VerifyAddress? && Receive(s.signer, core).sends.Success?
    requires i < |Receive(s.signer, core).sends.value| && frame in FramesFor(Receive(s.signer, core).sends.value[i])
    ensures frame.FromCore? && Justified(s, OpRecv(Core(core)), frame.message)
  {
    var send := Receive(s.signer, core).sends.value[i];
    if send.ToCoordinator? {
      ReplyFrames(send.message, frame);
    } else if send.prompt.NonceJobs? {
      ReplyFrames(NonceResponse(send.prompt.segments), frame);
    }
  }

  /** A commit: the name cells, then the name. */
  lemma CommitSources(w: World, s: State, io: Io, e: Effect)
    requires e in CommitName(w, s, io).fx
    ensures s.pendingName.Some? && (e.NameCells? || e == Sent(SetName(s.pendingName.value)))
  {
    var name := s.pendingName.value;
    var saved := SaveSteps(w.hash, s.names, name, io.name);
    NameEachAre(saved.steps);
    CommitFx(w, s, io);
  }

  lemma FinalizeSources(w: World, s: State, id: KeygenId, io: Io, e: Effect)
    requires e in Dispatch(w, s, KeyGen(Finalize(id)), io).fx
    ensures Sourced(w, s, OpRecv(Core(KeyGen(Finalize(id)))), io, e)
  {
    if id in s.signer.pending {
      var t := s.(signer := ReceiveKeygen(s.signer, Finalize(id)).signer);
      var steps := Persist(t.shares, t.signer.staged, io.share).steps;
      RunCommits(w, t, s.signer.pending[id].keyName, io);
      ShareEachAre(steps);
      if e !in ShareEach(steps) {
        CommitSources(w, Persisting(t, io), io, e);
      }
    }
  }

  lemma RecvSources(w: World, s: State, body: CoordinatorBody, io: Io, e: Effect)
    requires e in Recv(w, s, body, io).fx
    ensures Sourced(w, s, OpRecv(body), io, e)
  {
    if body.Core? {
      if body.core.VerifyAddress? {
        RunQuietSources(w, s, [ToUser(ShowAddress(body.core.key, body.core.derivationIndex))], io, e);
      } else if body.core.KeyGen? && body.core.keygen.Finalize? {
        FinalizeSources(w, s, body.core.keygen.id, io, e);
      } else {
        DispatchSources(w, s, body.core, io, e);
      }
    }
  }

  /** A queue of one reply. */
  lemma OneReply(w: World, s: State, message: DeviceMessage, io: Io, e: Effect)
    requires !message.NonceResponse? && e in Run(w, s, [ToCoordinator(message)], io).fx
    ensures e.ShareCells? || e == Sent(FromCore(message))
  {
    RunQuietSources(w, s, [ToCoordinator(message)], io, e);
    if e.Sent? {
      ReplyFrames(message, e.frame);
    }
  }

  lemma ConfirmSources(w: World, s: State, prompt: Prompt, page: nat, choice: Choice, io: Io, e: Effect)
    requires e in ConfirmAt(w, s, prompt, page, choice, io).fx
    ensures Sourced(w, s, OpConfirm(prompt, page, choice), io, e)
  {
    var acted := Acts(s.signer, prompt, choice).value;
    OneReply(w, s.(signer := acted.signer), acted.sends[0].message, io, e);
  }

  lemma EntrySources(w: World, s: State, step: EntryStep, io: Io, e: Effect)
    requires e in EntryKey(w, s, step, io).fx
    ensures Sourced(w, s, OpEntry(step), io, e)
  {
    var acting := LoadTyped(s.signer, s.entry.value.id, step.image);
    OneReply(w, s.(entry := None, signer := acting.signer), acting.sends[0].message, io, e);
  }

  lemma AnnounceSources(w: World, s: State, digest: nat, io: Io, e: Effect)
    requires e in AnnounceOut(w, s, digest).fx
    ensures Sourced(w, s, OpAnnounce(digest), io, e)
  {
    AnnounceSends(w, s, digest, e);
  }

  lemma AnnounceSends(w: World, s: State, digest: nat, e: Effect)
    requires e in AnnounceOut(w, s, digest).fx
    ensures e in {Sent(Announce(digest)), Sent(NameToSay(w, s))}
  {
    var body := NameToSay(w, s);
    PushSends(w, s, Announce(digest), ());
    PushSends(w, s, body, ());
  }

  lemma QuizSources(w: World, s: State, key: char, redraw: Option<seq<string>>, io: Io, e: Effect)
    requires e in QuizKey(w, s, key, redraw).fx
    ensures Sourced(w, s, OpQuiz(key, redraw), io, e)
  {
    var check := s.check.value;
    PushSends(w, s.(check := None), BackupChecked(check.ref, check.index), CheckedEnded(Some(QUIZ_POSITIONS)));
  }

  /** Every durable write, frame and drawn page of a call has its source. */
  lemma EveryEffectIsSourced(w: World, s: State, op: Op, io: Io, e: Effect)
    requires e in Exec(w, s, op, io).fx
    ensures Sourced(w, s, op, io, e)
  {
    match op {
      case OpRecv(body) => RecvSources(w, s, body, io, e);
      case OpConfirm(prompt, page, choice) => ConfirmSources(w, s, prompt, page, choice, io, e);
      case OpShow(page) =>
      case OpRecorded => PushSends(w, s.(recordPending := false), BackupRecorded, ());
      case OpEntry(step) => EntrySources(w, s, step, io, e);
      case OpQuiz(key, redraw) => QuizSources(w, s, key, redraw, io, e);
      case OpAnnounce(digest) => AnnounceSources(w, s, digest, io, e);
    }
  }
}
