/** What each message is answered with: the prompt or the frame it is owed, and nothing else. */
module Answers {
  import opened Wrappers
  import opened Utf8
  import opened Wire
  import opened Signers
  import opened ShareStores
  import opened NameStores
  import opened Outboxes
  import opened Screens
  import opened SessionSpec
  import opened Steps
  import opened Consents
  import opened Durability
  import opened DurableRuns
  import opened Quizzes
  import E = Entries
  import opened SignerRuns

  // ---- a queue's answer

  function Said(w: World, says: Option<Body>): seq<Effect> {
    match says case None => [] case Some(body) => SentEach(Pushed(w.encode, body))
  }

  function Fared(w: World, says: Option<Body>, prompts: seq<Prompt>): Result<seq<Prompt>, Fault> {
    if says.Some? && PushResult(w.encode, says.value).Failure?
    then Failure(Comms(PushResult(w.encode, says.value).error)) else Success(prompts)
  }

  /** What is staged is written first; unless that is refused, just this frame is then sent, and these prompts shown. */
  predicate Answered(w: World, s: State, io: Io, o: Out<seq<Prompt>>, prompts: seq<Prompt>, says: Option<Body>) {
    if PersistsWell(s, io) then o.fx == Written(s, io) + Said(w, says) && o.result == Fared(w, says, prompts)
    else o.fx == Written(s, io) && o.result.Failure? && o.result.error.Store?
  }

  /** The message is turned down, and nothing is sent or written. */
  predicate TurnsDown(o: Out<seq<Prompt>>) {
    o.fx == [] && o.result == Failure(SignerFault)
  }

  /** With nothing staged, that is the frame alone. */
  lemma NothingStagedAnswers(w: World, s: State, io: Io, o: Out<seq<Prompt>>, prompts: seq<Prompt>, says: Option<Body>)
    requires Staged(s) == [] && Answered(w, s, io, o, prompts, says)
    ensures o.fx == Said(w, says) && o.result == Fared(w, says, prompts)
  {
    NothingToWrite(s, io);
  }

  lemma WrittenAlike(s: State, t: State, io: Io)
    requires t.shares == s.shares && Staged(t) == Staged(s)
    ensures Written(t, io) == Written(s, io) && PersistsWell(t, io) == PersistsWell(s, io)
  {
  }

  lemma RunAnswersFrame(w: World, s: State, message: DeviceMessage, io: Io)
    ensures Answered(w, s, io, Run(w, s, [ToCoordinator(message)], io), [], Some(FromCore(message)))
  {
    var work := [ToCoordinator(message)];
    assert work[1..] == [];
    if PersistsWell(s, io) {
      var h := Handle(w, Persisting(s, io), work[0], [], io);
      assert h.fx + [] == h.fx;
      assert Drain(w, Persisting(s, io), work, [], io).fx == h.fx;
    }
  }

  lemma RunAnswersNonces(w: World, s: State, segments: seq<Segment>, io: Io)
    ensures Answered(w, s, io, Run(w, s, [ToUser(NonceJobs(segments))], io), [],
                     Some(FromCore(NonceResponse(segments))))
  {
    var work := [ToUser(NonceJobs(segments))];
    assert work[1..] == [];
    if PersistsWell(s, io) {
      var h := Handle(w, Persisting(s, io), work[0], [], io);
      assert h.fx + [] == h.fx;
      assert Drain(w, Persisting(s, io), work, [], io).fx == h.fx;
    }
  }

  lemma PromptIsKept(w: World, s: State, prompt: Prompt, io: Io)
    requires !prompt.NonceJobs? && !prompt.FinalizeKeyGen?
    ensures Handle(w, s, ToUser(prompt), [], io) == Out(s, [], Success([prompt]))
  {
    assert [] + [prompt] == [prompt];
  }

  lemma RunAnswersPrompt(w: World, s: State, prompt: Prompt, io: Io)
    requires !prompt.NonceJobs? && !prompt.FinalizeKeyGen?
    ensures Answered(w, s, io, Run(w, s, [ToUser(prompt)], io), [prompt], None)
  {
    var work := [ToUser(prompt)];
    assert work[1..] == [];
    if PersistsWell(s, io) {
      PromptIsKept(w, Persisting(s, io), prompt, io);
      assert Drain(w, Persisting(s, io), work, [], io) == Out(Persisting(s, io), [], Success([prompt]));
    }
  }

  lemma RunAnswersBoth(w: World, s: State, prompt: Prompt, message: DeviceMessage, io: Io)
    requires !prompt.NonceJobs? && !prompt.FinalizeKeyGen?
    ensures Answered(w, s, io, Run(w, s, [ToUser(prompt), ToCoordinator(message)], io), [prompt],
                     Some(FromCore(message)))
  {
    var work := [ToUser(prompt), ToCoordinator(message)];
    assert work[1..] == [ToCoordinator(message)] && work[1..][1..] == [];
    if PersistsWell(s, io) {
      var t := Persisting(s, io);
      PromptIsKept(w, t, prompt, io);
      var g := Handle(w, t, work[1..][0], [prompt], io);
      assert g.fx + [] == g.fx && [] + g.fx == g.fx;
      assert Drain(w, t, work[1..], [prompt], io).fx == g.fx;
    }
  }

  // ---- the backup of a share held

  /** What a prompt about a held share names: the message's share and contribution, and what is kept of it. */
  predicate NamesHeld(s: State, phase: BackupPhase, ref: AccessRef, index: ShareIndex, contribution: nat) {
    && phase.ref == ref && phase.index == index && phase.contribution == contribution
    && ShareAt(s.signer, ref, index).Some? && phase.ciphertext == ShareAt(s.signer, ref, index).value.ciphertext
    && phase.keyName == s.signer.keys[ref.key].name
  }

  /** Asked to display a share it holds, the session asks its human for a reveal of that share, and of no other. */
  lemma DisplayAsksForAReveal(w: World, s: State, io: Io, ref: AccessRef, index: ShareIndex, contribution: nat)
    ensures var o := Recv(w, s, Core(Restore(DisplayBackup(ref, index, contribution))), io);
      if ShareAt(s.signer, ref, index).None? then TurnsDown(o)
      else exists phase ::
        NamesHeld(s, phase, ref, index, contribution) && Answered(w, s, io, o, [AskReveal(phase)], None)
  {
    if ShareAt(s.signer, ref, index).Some? {
      var share := ShareAt(s.signer, ref, index).value;
      var phase := BackupPhase(ref, index, share.ciphertext, contribution, s.signer.keys[ref.key].name);
      RunAnswersPrompt(w, s, AskReveal(phase), io);
      assert NamesHeld(s, phase, ref, index, contribution);
    }
  }

  /** Asked to check one, it asks for a check. */
  lemma CheckAsksForACheck(w: World, s: State, io: Io, ref: AccessRef, index: ShareIndex, contribution: nat)
    ensures var o := Recv(w, s, Core(Restore(CheckBackup(ref, index, contribution))), io);
      if ShareAt(s.signer, ref, index).None? then TurnsDown(o)
      else exists phase ::
        NamesHeld(s, phase, ref, index, contribution) && Answered(w, s, io, o, [AskCheck(phase)], None)
  {
    if ShareAt(s.signer, ref, index).Some? {
      var share := ShareAt(s.signer, ref, index).value;
      var phase := BackupPhase(ref, index, share.ciphertext, contribution, s.signer.keys[ref.key].name);
      RunAnswersPrompt(w, s, AskCheck(phase), io);
      assert NamesHeld(s, phase, ref, index, contribution);
    }
  }

  /** The shares it says it holds are those it keeps encrypted, and those typed in and saved. */
  lemma HeldSharesAreToldTrue(w: World, s: State, io: Io)
    ensures exists shares :: Answered(w, s, io, Recv(w, s, Core(Restore(RequestHeldShares)), io), [],
                                   Some(FromCore(HeldShares(shares)))) && TellsHeld(s, shares)
  {
    var shares := HeldBy(s.signer);
    RunAnswersFrame(w, s, HeldShares(shares), io);
    forall share
      ensures share in shares <==> IsHeld(s, share)
    {
      if share.ref.Some? {
        KeptIsTold(s, share.ref.value, share.image);
      }
    }
  }

  lemma KeptIsTold(s: State, ref: AccessRef, image: ShareImage)
    ensures HeldShare(Some(ref), image) in HeldBy(s.signer) <==> exists index :: IsKept(s, ref, index, image)
  {
    if HeldShare(Some(ref), image) in HeldBy(s.signer) {
      var index :| ref.key in s.signer.keys && ref.structure in s.signer.keys[ref.key].structures
        && index in s.signer.keys[ref.key].structures[ref.structure].shares
        && image == s.signer.keys[ref.key].structures[ref.structure].shares[index].image;
      assert IsKept(s, ref, index, image);
    }
    if index :| IsKept(s, ref, index, image) {
      assert AccessRef(ref.key, ref.structure) == ref;
    }
  }

  predicate IsKept(s: State, ref: AccessRef, index: ShareIndex, image: ShareImage) {
    ShareAt(s.signer, ref, index).Some? && ShareAt(s.signer, ref, index).value.image == image
  }

  ghost predicate IsHeld(s: State, share: HeldShare) {
    match share.ref
    case None => share.image in s.signer.saved
    case Some(ref) => exists index :: IsKept(s, ref, index, share.image)
  }

  ghost predicate TellsHeld(s: State, shares: set<HeldShare>) {
    forall share :: share in shares <==> IsHeld(s, share)
  }

  // ---- typing a share in and keeping it

  lemma EntryIsAskedFor(w: World, s: State, io: Io, id: EnterId)
    ensures Answered(w, s, io, Recv(w, s, Core(Restore(EnterPhysicalBackup(id))), io), [AskEntry(id)], None)
  {
    RunAnswersPrompt(w, s, AskEntry(id), io);
  }

  /** A typed-in share is saved, shown and reported exactly if it is still loaded. */
  lemma SaveIsReported(w: World, s: State, io: Io, r: Wire.Restoration, image: ShareImage)
    requires r == SavePhysicalBackup(image) || r == SavePhysicalBackup2(image)
    ensures var o := Recv(w, s, Core(Restore(r)), io);
      if image in s.signer.loaded then Answered(w, s, io, o, [BackupSaved(image)], Some(FromCore(PhysicalSaved(image))))
      else TurnsDown(o)
  {
    if image in s.signer.loaded {
      var t := s.(signer := SaveTyped(s.signer, image).signer);
      TypedStages(s.signer, image);
      WrittenAlike(s, t, io);
      RunAnswersBoth(w, t, BackupSaved(image), PhysicalSaved(image), io);
    }
  }

  /** The consolidation a message asks for. */
  predicate NamesShare(phase: ConsolidatePhase, r: Wire.Restoration)
    requires r.Consolidate?
  {
    && phase.ref == r.ref && phase.image == r.image && phase.threshold == r.threshold
    && phase.keyName == r.keyName && phase.purpose == r.purpose
  }

  /**
   A consolidation of a share typed in is asked about if it proves to be the one named, and turned down if not; of a
   share already kept, it is acknowledged at once; and of any other it is turned down.
   */
  lemma ConsolidationIsAskedFor(w: World, s: State, io: Io, r: Wire.Restoration)
    requires r.Consolidate?
    ensures var o := Recv(w, s, Core(Restore(r)), io);
      if r.image in s.signer.saved || r.image in s.signer.loaded then
        if r.validates && r.matches
        then exists phase :: NamesShare(phase, r) && Answered(w, s, io, o, [AskConsolidate(phase)], None)
        else TurnsDown(o)
      else if ShareAt(s.signer, r.ref, r.image.index).Some?
      then Answered(w, s, io, o, [], Some(FromCore(FinishedConsolidation(r.ref, r.image.index))))
      else TurnsDown(o)
  {
    if r.image in s.signer.saved || r.image in s.signer.loaded {
      if r.validates && r.matches {
        var phase := ConsolidatePhase(r.ref, r.keyName, r.purpose, r.threshold, r.image);
        RunAnswersPrompt(w, s, AskConsolidate(phase), io);
        assert NamesShare(phase, r);
      }
    } else if ShareAt(s.signer, r.ref, r.image.index).Some? {
      RunAnswersFrame(w, s, FinishedConsolidation(r.ref, r.image.index), io);
    }
  }

  // ---- signing, addresses and nonces

  /** This device keeps a share of the key that is of one of the parties. */
  predicate KeepsOneOf(s: State, ref: AccessRef, parties: set<ShareIndex>) {
    exists p :: p in parties && ShareAt(s.signer, ref, p).Some?
  }

  /** A signature is asked for exactly if a share it keeps is a party, the request is sound and its nonces are known. */
  lemma SignatureIsAskedFor(w: World, s: State, io: Io, ref: AccessRef, parties: set<ShareIndex>, wellFormed: bool,
                            nonceKnown: bool, phase: SignPhase)
    ensures var o := Recv(w, s, Core(Sign(RequestSign(ref, parties, wellFormed, nonceKnown, phase))), io);
      if wellFormed && nonceKnown && KeepsOneOf(s, ref, parties)
      then Answered(w, s, io, o, [SignatureRequest(phase)], None) else TurnsDown(o)
  {
    RunAnswersPrompt(w, s, SignatureRequest(phase), io);
    if p :| p in parties && ShareAt(s.signer, ref, p).Some? {
      assert p in s.signer.keys[ref.key].structures[ref.structure].shares;
    }
    if ref.key in s.signer.keys && ref.structure in s.signer.keys[ref.key].structures {
      forall p | p in parties && p in s.signer.keys[ref.key].structures[ref.structure].shares
        ensures KeepsOneOf(s, ref, parties)
      {
        assert ShareAt(s.signer, ref, p).Some?;
      }
    }
  }

  /** Nonces are answered with all the segments their jobs yield, or with none where there is no job. */
  lemma NoncesAreSent(w: World, s: State, io: Io, jobs: seq<Segment>)
    ensures Answered(w, s, io, Recv(w, s, Core(Sign(OpenNonceStreams(jobs))), io), [],
                     Some(FromCore(NonceResponse(jobs))))
  {
    if jobs == [] {
      RunAnswersFrame(w, s, NonceResponse([]), io);
    } else {
      RunAnswersNonces(w, s, jobs, io);
    }
  }

  /** An address is shown exactly for a key known as a bitcoin one. */
  lemma AddressIsShown(w: World, s: State, io: Io, key: KeyId, n: nat)
    ensures var o := Recv(w, s, Core(VerifyAddress(key, n)), io);
      if key in s.signer.keys && s.signer.keys[key].purpose.Bitcoin?
      then Answered(w, s, io, o, [ShowAddress(key, n)], None)
      else o.fx == [] && o.result == Failure(Refused(Refusal.AddressVerify))
  {
    RunAnswersPrompt(w, s, ShowAddress(key, n), io);
  }

  // ---- key generation

  /** A group over twelve, or with a threshold it cannot meet, is refused; any other is answered if it lists us. */
  lemma BeginIsAnswered(w: World, s: State, io: Io, k: Keygen)
    requires k.Begin?
    ensures var o := Recv(w, s, Core(KeyGen(k)), io);
      if k.devices > 12 || k.threshold == 0 || k.threshold > k.devices
      then o.fx == [] && o.result == Failure(Refused(GroupTooLarge))
      else if k.listsUs && k.wellFormed then Answered(w, s, io, o, [], Some(FromCore(KeygenResponse(k.id))))
      else TurnsDown(o)
  {
    var t := s.(signer := ReceiveKeygen(s.signer, k).signer);
    WrittenAlike(s, t, io);
    RunAnswersFrame(w, t, KeygenResponse(k.id), io);
  }

  /** A certificate is given exactly for a ceremony begun, whose inputs verify. */
  lemma CertifyIsAnswered(w: World, s: State, io: Io, id: KeygenId, verifies: bool)
    ensures var o := Recv(w, s, Core(KeyGen(CertifyPlease(id, verifies))), io);
      if Held(s.signer, Begun(id)).Some? && verifies then Answered(w, s, io, o, [], Some(FromCore(KeygenCertify(id))))
      else TurnsDown(o)
  {
    var t := s.(signer := ReceiveKeygen(s.signer, CertifyPlease(id, verifies)).signer);
    WrittenAlike(s, t, io);
    RunAnswersFrame(w, t, KeygenCertify(id), io);
  }

  /** What a keygen check shows: the certificate's key, under the name and purpose the ceremony was begun with. */
  predicate NamesCeremony(phase: KeygenPhase, id: KeygenId, named: Content, c: Certificate) {
    && named == Named(phase.keyName, phase.purpose)
    && phase.id == id && phase.sessionHash == c.sessionHash && phase.ref == c.ref
    && phase.threshold == c.threshold && phase.image == c.image
  }

  /** A check is asked for exactly of a ceremony certified, whose certificate is whole. */
  lemma KeygenIsAskedAbout(w: World, s: State, io: Io, id: KeygenId, certificate: Option<Certificate>)
    ensures var o := Recv(w, s, Core(KeyGen(Check(id, certificate))), io);
      if Held(s.signer, Certified(id)).Some? && certificate.Some?
      then exists phase :: NamesCeremony(phase, id, Held(s.signer, Certified(id)).value, certificate.value)
             && Answered(w, s, io, o, [CheckKeyGen(phase)], None)
      else TurnsDown(o)
  {
    if id in s.signer.certified && certificate.Some? {
      var c, ceremony := certificate.value, s.signer.certified[id];
      var t := s.(signer := ReceiveKeygen(s.signer, Check(id, certificate)).signer);
      var phase := KeygenPhase(id, c.sessionHash, ceremony.keyName, ceremony.purpose, c.ref, c.threshold, c.image);
      WrittenAlike(s, t, io);
      RunAnswersPrompt(w, t, CheckKeyGen(phase), io);
      assert NamesCeremony(phase, id, Held(s.signer, Certified(id)).value, c);
    }
  }

  /** The end of a ceremony is shown under its key's name, exactly if it was confirmed and everything was kept. */
  lemma FinishIsShown(w: World, s: State, io: Io, id: KeygenId)
    ensures var o := Recv(w, s, Core(KeyGen(Finalize(id))), io); var held := Held(s.signer, SignerRuns.Confirmed(id));
      if held.None? then TurnsDown(o)
      else
        && (o.result.Success? <==> Staged(o.post) == [] && SaysPending(s, o.fx))
        && (o.result.Success? ==> o.result == Success([FinalizeKeyGen(held.value.terms.keyName)]))
  {
    if id in s.signer.pending {
      var c := s.signer.pending[id];
      var op := OpRecv(Core(KeyGen(Finalize(id))));
      var t := s.(signer := ReceiveKeygen(s.signer, Finalize(id)).signer);
      FinishPrompts(w, t, c.keyName, io);
      FinishSaysIff(w, t, c.keyName, io);
      StagedAfterCall(w, s, op, io);
      assert QueueOf(s, op) == Some(Queue(t, [ToUser(FinalizeKeyGen(c.keyName))]));
    }
  }

  lemma FinishSaysIff(w: World, s: State, keyName: Str, io: Io)
    ensures var o := Run(w, s, [ToUser(FinalizeKeyGen(keyName))], io);
      o.result.Success? <==> PersistsWell(s, io) && SaysPending(s, o.fx)
  {
    var steps := Persist(s.shares, s.signer.staged, io.share).steps;
    FinishPrompts(w, s, keyName, io);
    RunCommits(w, s, keyName, io);
    CommitSaysIff(w, Persisting(s, io), io);
    ShareEachAre(steps);
    assert forall e :: e in ShareEach(steps) ==> e.ShareCells?;
  }

  /** The name waiting to be committed, if there is one, is said. */
  predicate SaysPending(s: State, fx: seq<Effect>) {
    s.pendingName.Some? ==> Sent(SetName(s.pendingName.value)) in fx
  }

  lemma FinishPrompts(w: World, s: State, keyName: Str, io: Io)
    ensures var o := Run(w, s, [ToUser(FinalizeKeyGen(keyName))], io);
      && (o.result.Success? <==> PersistsWell(s, io) && CommitName(w, Persisting(s, io), io).result.Success?)
      && (o.result.Success? ==> o.result == Success([FinalizeKeyGen(keyName)]))
  {
    var prompt := FinalizeKeyGen(keyName);
    var work := [ToUser(prompt)];
    assert work[1..] == [] && [] + [prompt] == [prompt];
    if PersistsWell(s, io) {
      var t := Persisting(s, io);
      var h := Handle(w, t, work[0], [], io);
      var d := Drain(w, t, work, [], io);
      if h.result.Success? {
        assert h.result == Success([prompt]);
        assert Drain(w, h.post, work[1..], [prompt], io).result == Success([prompt]);
        assert d.result == Success([prompt]);
      } else {
        assert d.result == h.result;
      }
    }
  }

  /** A commit succeeds exactly if there is no name to commit, or the name was written and said. */
  lemma CommitSaysIff(w: World, s: State, io: Io)
    ensures var o := CommitName(w, s, io);
      o.result.Success? <==> (s.pendingName.Some? ==> Sent(SetName(s.pendingName.value)) in o.fx)
  {
    if s.pendingName.Some? {
      var name := s.pendingName.value;
      var saved := SaveSteps(w.hash, s.names, name, io.name);
      CommitFx(w, s, io);
      NameEachAre(saved.steps);
      WholeFrame(w.encode, SetName(name));
      assert forall e :: e in NameEach(saved.steps) ==> e.NameCells?;
    }
  }

  /** A preview, a greeting, a cancel and the retired prompt are always taken, and answered with nothing. */
  lemma TakenQuietly(w: World, s: State, io: Io, body: CoordinatorBody)
    requires body.Preview? || body.RetiredPrompt? || body.AnnounceAck? || body.Cancel?
    ensures var o := Recv(w, s, body, io); o.result == Success([]) && o.fx == []
  {
  }

  /** An upgrade, an erase and an identity challenge are refused, and change nothing. */
  lemma NeverServed(w: World, s: State, io: Io, body: CoordinatorBody)
    requires body.Upgrade? || body.DataErase? || body.Challenge?
    ensures exists refusal :: Recv(w, s, body, io) == Out(s, [], Failure(Refused(refusal)))
  {
  }

  // ---- what a yes is answered with

  /** A press where no digit is shown does nothing. */
  lemma NoDigitNoEffect(w: World, s: State, io: Io, prompt: Prompt, page: nat, choice: Choice)
    requires !Authorises(prompt, page)
    ensures var o := ConfirmAt(w, s, prompt, page, choice, io); o.post == s && o.fx == [] && o.result.Failure?
  {
  }

  /** A consented consolidation is reported once what it stages is stored. */
  lemma ConsolidationIsReported(w: World, s: State, io: Io, phase: ConsolidatePhase, choice: Choice)
    requires Authorises(AskConsolidate(phase), 0)
    ensures exists t: State ::
      && QueueOf(s, OpConfirm(AskConsolidate(phase), 0, choice)) == Some(Queue(t, [ToCoordinator(Reported(phase))]))
      && Answered(w, t, io, ConfirmAt(w, s, AskConsolidate(phase), 0, choice, io), [], Some(FromCore(Reported(phase))))
  {
    var t := s.(signer := FinishConsolidation(s.signer, phase, choice.ciphertext).signer);
    RunAnswersFrame(w, t, Reported(phase), io);
    assert QueueOf(s, OpConfirm(AskConsolidate(phase), 0, choice)) == Some(Queue(t, [ToCoordinator(Reported(phase))]));
  }

  function Reported(phase: ConsolidatePhase): DeviceMessage {
    FinishedConsolidation(phase.ref, phase.image.index)
  }

  /** A consented signature is sent if it can be made. */
  lemma SignatureIsSent(w: World, s: State, io: Io, phase: SignPhase, page: nat, choice: Choice)
    requires Authorises(SignatureRequest(phase), page)
    ensures var o := ConfirmAt(w, s, SignatureRequest(phase), page, choice, io);
      match choice.signature
      case Some(n) => Answered(w, s, io, o, [], Some(FromCore(SignatureShare(phase.session, n))))
      case None => o == Out(s, [], Failure(ActionFault))
  {
    if choice.signature.Some? {
      RunAnswersFrame(w, s, SignatureShare(phase.session, choice.signature.value), io);
    }
  }

  /** A confirmed check is acknowledged by its ceremony and session hash. */
  lemma CheckIsAcknowledged(w: World, s: State, io: Io, phase: KeygenPhase, page: nat, choice: Choice)
    requires Authorises(CheckKeyGen(phase), page)
    ensures Answered(w, s, io, ConfirmAt(w, s, CheckKeyGen(phase), page, choice, io), [],
                  Some(FromCore(KeygenAck(phase.id, phase.sessionHash))))
  {
    var t := s.(signer := AckKeygen(s.signer, phase, choice.ciphertext).signer);
    WrittenAlike(s, t, io);
    RunAnswersFrame(w, t, KeygenAck(phase.id, phase.sessionHash), io);
  }

  // ---- what a key or a page is answered with

  /** A page shown is one drawn; past the last page, or on a failure, nothing is drawn and the grant is gone. */
  lemma ShownIsDrawn(d: Device, s: State, page: nat)
    ensures var o := ShowBackup(d, s, page);
      && (o.result == Success(true) <==> exists phase :: o.fx == [Drew(phase, page)])
      && (o.result != Success(true) ==> o.fx == [] && o.post.revealing.None?)
      && (o.result == Failure(Refused(DisplayRefused)) <== s.revealing.None?)
  {
    if s.revealing.Some? && ShowBackup(d, s, page).result == Success(true) {
      assert ShowBackup(d, s, page).fx == [Drew(s.revealing.value, page)];
    }
  }

  /** The answer to the question is taken exactly if it was asked and its frame goes out; it is then asked no more. */
  lemma RecordedIsTaken(w: World, s: State)
    ensures var o := Recorded(w, s);
      && (o.result.Success? <==> s.recordPending && w.encode[BackupRecorded].Success?)
      && (s.recordPending ==> o.fx == Said(w, Some(BackupRecorded)))
      && !o.post.recordPending
  {
    PushWhole(w, s.(recordPending := false), BackupRecorded, ());
    WholeFrame(w.encode, BackupRecorded);
  }

  /** A key is answered as the entry machine takes it, and refused where no entry is live. */
  lemma EntryAnswersAsItsMachine(w: World, s: State, key: char, io: Io)
    ensures var o := EntryKey(w, s, Typing(w.device, s, key), io);
      match s.entry
      case None => o == Out(s, [], Failure(Refused(Refusal.PhysicalBackup)))
      case Some(entry) =>
        var (typing, step) := E.Keyed(w.device.list, w.device.checks, entry.typing, key);
        match step
        case Unchanged => o == Out(s, [], Success(TypedUnchanged))
        case Redraw => o == Out(s.(entry := Some(Entry(entry.id, typing))), [], Success(TypedRedraw))
        case Abort => o == Out(s.(entry := None), [], Success(TypedEnded([])))
        case Spelled(image) => o.post.entry.None? && image in o.post.signer.loaded
  {
    if s.entry.Some? {
      EntryMoves(w, s, Typing(w.device, s, key), io);
      CallLeavesSigner(w, s, OpEntry(Typing(w.device, s, key)), io);
    }
  }

  /** A check is over, passed or given up, exactly when its key says so; a pass is told once its frame goes out. */
  lemma QuizAnswersAsItsQuiz(w: World, s: State, key: char, redraw: Option<seq<string>>)
    requires s.check.Some?
    ensures var o := QuizKey(w, s, key, redraw); var says := BackupChecked(s.check.value.ref, s.check.value.index);
      match Press(s.check.value.quiz, key, redraw).1
      case Unchanged => o.result == Success(CheckedUnchanged) && o.fx == []
      case Redraw => o.result == Success(CheckedRedraw) && o.fx == []
      case Abort => o.result == Success(CheckedEnded(None)) && o.fx == []
      case Passed =>
        && o.fx == Said(w, Some(says))
        && (o.result == Success(CheckedEnded(Some(8))) <==> w.encode[says].Success?)
  {
    var says := BackupChecked(s.check.value.ref, s.check.value.index);
    WholeFrame(w.encode, says);
  }

  /** A share typed in is reported by the entry it was typed under. */
  lemma TypedIsReported(w: World, s: State, io: Io, image: ShareImage)
    requires s.entry.Some?
    ensures var o := EntryKey(w, s, Entered(image), io);
      var says := Some(FromCore(PhysicalEntered(s.entry.value.id, image)));
      && o.fx == Written(s, io) + (if PersistsWell(s, io) then Said(w, says) else [])
      && (o.result.Success? <==> PersistsWell(s, io) && Fared(w, says, []).Success?)
      && (o.result.Success? ==> o.result == Success(TypedEnded([])))
  {
    var entry := s.entry.value;
    var t := s.(entry := None, signer := LoadTyped(s.signer, entry.id, image).signer);
    WrittenAlike(s, t, io);
    RunAnswersFrame(w, t, PhysicalEntered(entry.id, image), io);
  }
}
