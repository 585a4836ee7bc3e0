/**
 Over whole runs: which messages put a prompt before the human, and what each reply and each kept share goes back to.
 */
module Offers {
  import opened Wrappers
  import opened Utf8
  import opened Wire
  import opened SessionSpec
  import opened Consents
  import opened Replies
  import opened Runs
  import opened Ceremonies
  import opened Slots
  import opened Terms
  import opened SignerRuns
  import opened KeptShares
  import opened Answers
  import Traces

  // ---- shares typed in

  /** The image was typed in at step `a`, and since then neither saved, kept whole, cancelled nor cut off. */
  ghost predicate TypedSince(run: seq<Traces.Step>, states: seq<State>, a: nat, i: nat, image: ShareImage)
    requires |states| == |run| + 1 && i <= |run|
  {
    && a < i && TypesIn(states[a], run[a], image)
    && forall j: nat :: a < j < i ==>
         !Cancels(run[j]) && !SavesImage(run[j], image) && !KeepsWhole(states[j], run[j], image)
  }

  lemma TypedSinceIsPut(run: seq<Traces.Step>, states: seq<State>, a: nat, i: nat, image: ShareImage)
    requires |states| == |run| + 1 && i <= |run|
    ensures PutSince(TouchesOf(run, states, TypedIn(image)), a, i) <==> TypedSince(run, states, a, i, image)
  {
    var touches := TouchesOf(run, states, TypedIn(image));
    forall m: nat | m < |run|
      ensures touches[m].Puts? <==> TypesIn(states[m], run[m], image)
      ensures touches[m].Clears? <==>
        Cancels(run[m]) || SavesImage(run[m], image) || KeepsWhole(states[m], run[m], image)
    {
      assert touches[m] == TouchOf(states[m], run[m], TypedIn(image));
    }
    if PutSince(touches, a, i) {
      assert TypedSince(run, states, a, i, image);
    }
    if TypedSince(run, states, a, i, image) {
      assert PutSince(touches, a, i);
    }
  }

  /** A typed-in share is at hand exactly if it was typed in under a live entry, and not given up or used since. */
  lemma LoadedIffTyped(w: World, run: seq<Traces.Step>, states: seq<State>, i: nat, image: ShareImage)
    requires Ran(w, run, states) && i <= |run|
    ensures image in states[i].signer.loaded <==> exists a: nat :: TypedSince(run, states, a, i, image)
  {
    var slot := TypedIn(image);
    var held, touches := HeldOf(states, slot), TouchesOf(run, states, slot);
    RunTouches(w, run, states, slot);
    FullIffPutSince(held, touches, i);
    assert held[i] == Held(states[i].signer, slot);
    forall a: nat
      ensures PutSince(touches, a, i) <==> TypedSince(run, states, a, i, image)
    {
      TypedSinceIsPut(run, states, a, i, image);
    }
  }

  /** A save is reported only of a share so typed in: never of one whose flow was cancelled. */
  lemma SavedReportWasTyped(w: World, run: seq<Traces.Step>, states: seq<State>, i: nat, image: ShareImage)
    requires Ran(w, run, states) && i < |run| && Sent(FromCore(PhysicalSaved(image))) in FxOf(w, run, states, i)
    ensures exists a: nat :: TypedSince(run, states, a, i, image)
  {
    SavedReportIsOfLoaded(w, states[i], run[i], image);
    LoadedIffTyped(w, run, states, i, image);
  }

  lemma SavedReportIsOfLoaded(w: World, s: State, step: Traces.Step, image: ShareImage)
    requires Sent(FromCore(PhysicalSaved(image))) in Fx(w, s, step)
    ensures image in s.signer.loaded
  {
    var e := Sent(FromCore(PhysicalSaved(image)));
    EveryEffectIsSourced(w, s, step.op, step.io, e);
    SourcedSaveIsLoaded(w, s, step.op, step.io, image);
  }

  lemma SourcedSaveIsLoaded(w: World, s: State, op: Op, io: Io, image: ShareImage)
    requires Sourced(w, s, op, io, Sent(FromCore(PhysicalSaved(image))))
    ensures image in s.signer.loaded
  {
  }

  /** A saved share was typed in, and saved before any cancel of that flow; a later cancel does not take it away. */
  lemma SavedWasTyped(w: World, run: seq<Traces.Step>, states: seq<State>, i: nat, image: ShareImage)
    requires Ran(w, run, states) && i <= |run|
    ensures image in states[i].signer.saved <==> exists m: nat :: SavedSince(run, states, m, i, image)
  {
    var slot := SavedAs(image);
    var held, touches := HeldOf(states, slot), TouchesOf(run, states, slot);
    RunTouches(w, run, states, slot);
    FullIffPutSince(held, touches, i);
    assert held[i] == Held(states[i].signer, slot);
    forall m: nat
      ensures PutSince(touches, m, i) <==> SavedSince(run, states, m, i, image)
    {
      SavedSinceIsPut(w, run, states, m, i, image);
    }
  }

  /** The image was saved at step `m` while typed in, and since then neither kept whole nor cut off. */
  ghost predicate SavedSince(run: seq<Traces.Step>, states: seq<State>, m: nat, i: nat, image: ShareImage)
    requires |states| == |run| + 1 && i <= |run|
  {
    && m < i && SavesImage(run[m], image) && (exists a: nat :: TypedSince(run, states, a, m, image))
    && forall j: nat :: m < j < i ==> !run[j].CutOff? && !KeepsWhole(states[j], run[j], image)
  }

  lemma SavedSinceIsPut(w: World, run: seq<Traces.Step>, states: seq<State>, m: nat, i: nat, image: ShareImage)
    requires Ran(w, run, states) && i <= |run|
    ensures PutSince(TouchesOf(run, states, SavedAs(image)), m, i) <==> SavedSince(run, states, m, i, image)
  {
    var touches := TouchesOf(run, states, SavedAs(image));
    if m < i {
      LoadedIffTyped(w, run, states, m, image);
    }
    forall j: nat | j < |run|
      ensures touches[j].Puts? <==> SavesImage(run[j], image) && image in states[j].signer.loaded
      ensures touches[j].Clears? <==> run[j].CutOff? || KeepsWhole(states[j], run[j], image)
    {
      assert touches[j] == TouchOf(states[j], run[j], SavedAs(image));
    }
    if PutSince(touches, m, i) {
      assert SavedSince(run, states, m, i, image);
    }
    if SavedSince(run, states, m, i, image) {
      assert PutSince(touches, m, i);
    }
  }

  // ---- ceremonies

  /** Ceremony `id` was begun at step `b`, and since then neither again, nor certified, cancelled or cut off. */
  ghost predicate BegunLast(run: seq<Traces.Step>, b: nat, i: nat, id: KeygenId)
    requires i <= |run|
  {
    && b < i && BeginsCeremony(run[b], id)
    && forall j: nat :: b < j < i ==>
         && !Cancels(run[j]) && !BeginsCeremony(run[j], id)
         && !Certifies(run[j], id, true) && !Certifies(run[j], id, false)
  }

  lemma BegunLastIsPut(run: seq<Traces.Step>, states: seq<State>, b: nat, i: nat, id: KeygenId)
    requires |states| == |run| + 1 && i <= |run|
    ensures var touches := TouchesOf(run, states, Begun(id));
      && (LastPut(touches, b, i) <==> BegunLast(run, b, i, id))
      && (LastPut(touches, b, i) ==> touches[b].value == BegunAs(run[b]))
  {
    var touches := TouchesOf(run, states, Begun(id));
    forall m: nat | m < |run|
      ensures touches[m].Puts? <==> BeginsCeremony(run[m], id)
      ensures touches[m].Leaves? <==>
        !Cancels(run[m]) && !BeginsCeremony(run[m], id) && !Certifies(run[m], id, true) && !Certifies(run[m], id, false)
    {
      assert touches[m] == TouchOf(states[m], run[m], Begun(id));
    }
    if LastPut(touches, b, i) {
      assert BegunLast(run, b, i, id);
    }
    if BegunLast(run, b, i, id) {
      assert LastPut(touches, b, i);
    }
  }

  /** The name and purpose a ceremony was begun with. */
  function BegunAs(step: Traces.Step): Content {
    if step.op.OpRecv? && step.op.body.Core? && step.op.body.core.KeyGen? && step.op.body.core.keygen.Begin?
    then Named(step.op.body.core.keygen.keyName, step.op.body.core.keygen.purpose) else Known
  }

  lemma BegunIffLast(w: World, run: seq<Traces.Step>, states: seq<State>, i: nat, id: KeygenId)
    requires Ran(w, run, states) && i <= |run|
    ensures Held(states[i].signer, Begun(id)).Some? <==> exists b: nat :: BegunLast(run, b, i, id)
    ensures forall b: nat :: BegunLast(run, b, i, id) ==> Held(states[i].signer, Begun(id)) == Some(BegunAs(run[b]))
  {
    var touches := TouchesOf(run, states, Begun(id));
    RemembersTheLast(w, run, states, i, Begun(id));
    forall b: nat
      ensures LastPut(touches, b, i) <==> BegunLast(run, b, i, id)
      ensures LastPut(touches, b, i) ==> touches[b].value == BegunAs(run[b])
    {
      BegunLastIsPut(run, states, b, i, id);
    }
  }

  /** A certificate is given only for a ceremony begun, and not cancelled since. */
  lemma CertificateWasBegun(w: World, run: seq<Traces.Step>, states: seq<State>, i: nat, id: KeygenId)
    requires Ran(w, run, states) && i < |run| && Sent(FromCore(KeygenCertify(id))) in FxOf(w, run, states, i)
    ensures exists b: nat :: BegunLast(run, b, i, id)
  {
    CertificateIsOfBegun(w, states[i], run[i], id);
    BegunIffLast(w, run, states, i, id);
  }

  lemma CertificateIsOfBegun(w: World, s: State, step: Traces.Step, id: KeygenId)
    requires Sent(FromCore(KeygenCertify(id))) in Fx(w, s, step)
    ensures id in s.signer.begun
  {
    EveryEffectIsSourced(w, s, step.op, step.io, Sent(FromCore(KeygenCertify(id))));
  }

  /** Begun at step `b` and certified at step `c`, and not cancelled, cut off, checked or certified anew since. */
  ghost predicate CertifiedFrom(run: seq<Traces.Step>, b: nat, c: nat, i: nat, id: KeygenId)
    requires i <= |run|
  {
    && c < i && Certifies(run[c], id, true) && BegunLast(run, b, c, id)
    && forall j: nat :: c < j < i ==> !Cancels(run[j]) && !Checks(run[j], id)
  }

  /** What is remembered of a certified ceremony is what it was begun with. */
  lemma CertifiedWasBegun(w: World, run: seq<Traces.Step>, states: seq<State>, i: nat, id: KeygenId)
    requires Ran(w, run, states) && i <= |run| && Held(states[i].signer, Certified(id)).Some?
    ensures exists b: nat, c: nat :: CertifiedFrom(run, b, c, i, id)
              && Held(states[i].signer, Certified(id)) == Some(BegunAs(run[b]))
  {
    var touches := TouchesOf(run, states, Certified(id));
    RemembersTheLast(w, run, states, i, Certified(id));
    var c: nat :| LastPut(touches, c, i);
    assert touches[c] == TouchOf(states[c], run[c], Certified(id));
    BegunIffLast(w, run, states, c, id);
    var b: nat :| BegunLast(run, b, c, id);
    forall j: nat | c < j < i
      ensures !Cancels(run[j]) && !Checks(run[j], id)
    {
      assert touches[j] == TouchOf(states[j], run[j], Certified(id));
    }
    assert CertifiedFrom(run, b, c, i, id);
  }

  // ---- prompts

  /** The prompts a step puts before the human. */
  function Offered(w: World, s: State, step: Traces.Step): seq<Prompt> {
    if step.Called? && step.op.OpRecv? && Recv(w, s, step.op.body, step.io).result.Success?
    then Recv(w, s, step.op.body, step.io).result.value else []
  }

  /** What put a prompt there, and what it names. */
  ghost predicate GoesBackTo(s: State, step: Traces.Step, prompt: Prompt) {
    match prompt
    case AskReveal(p) =>
      && Hears(step, Restore(DisplayBackup(p.ref, p.index, p.contribution)))
      && NamesHeld(s, p, p.ref, p.index, p.contribution)
    case AskCheck(p) =>
      && Hears(step, Restore(CheckBackup(p.ref, p.index, p.contribution)))
      && NamesHeld(s, p, p.ref, p.index, p.contribution)
    case AskEntry(id) => Hears(step, Restore(EnterPhysicalBackup(id)))
    case AskConsolidate(p) =>
      && Hears(step, Restore(Consolidate(p.ref, p.image, true, true, p.keyName, p.purpose, p.threshold)))
      && (p.image in s.signer.saved || p.image in s.signer.loaded)
    case BackupSaved(image) => SavesImage(step, image) && image in s.signer.loaded
    case CheckKeyGen(p) =>
      && Hears(step, KeyGen(Check(p.id, Some(Certificate(p.sessionHash, p.ref, p.threshold, p.image)))))
      && Held(s.signer, Certified(p.id)) == Some(Named(p.keyName, p.purpose))
    case FinalizeKeyGen(name) => exists id :: FinishesAs(s, step, id, name)
    case SignatureRequest(p) =>
      exists ref, parties :: KeepsOneOf(s, ref, parties) && Hears(step, Sign(RequestSign(ref, parties, true, true, p)))
    case ShowAddress(key, n) =>
      Hears(step, VerifyAddress(key, n)) && key in s.signer.keys && s.signer.keys[key].purpose.Bitcoin?
    case NonceJobs(_) => false
  }

  predicate FinishesAs(s: State, step: Traces.Step, id: KeygenId, name: Str) {
    && Hears(step, KeyGen(Finalize(id))) && Held(s.signer, SignerRuns.Confirmed(id)).Some?
    && Held(s.signer, SignerRuns.Confirmed(id)).value.terms.keyName == name
  }

  lemma RestorationOffers(w: World, s: State, r: Wire.Restoration, io: Io, prompt: Prompt)
    requires var step := Traces.Called(OpRecv(Core(Restore(r))), io); prompt in Offered(w, s, step)
    ensures GoesBackTo(s, Traces.Called(OpRecv(Core(Restore(r))), io), prompt)
  {
    match r {
      case RequestHeldShares => HeldSharesAreToldTrue(w, s, io);
      case DisplayBackup(ref, index, contribution) => DisplayAsksForAReveal(w, s, io, ref, index, contribution);
      case CheckBackup(ref, index, contribution) => CheckAsksForACheck(w, s, io, ref, index, contribution);
      case EnterPhysicalBackup(id) => EntryIsAskedFor(w, s, io, id);
      case SavePhysicalBackup(image) => SaveOffers(w, s, r, io, image, prompt);
      case SavePhysicalBackup2(image) => SaveOffers(w, s, r, io, image, prompt);
      case Consolidate(_, _, _, _, _, _, _) => ConsolidationOffers(w, s, r, io, prompt);
    }
  }

  lemma SaveOffers(w: World, s: State, r: Wire.Restoration, io: Io, image: ShareImage, prompt: Prompt)
    requires r == SavePhysicalBackup(image) || r == SavePhysicalBackup2(image)
    requires prompt in Offered(w, s, Traces.Called(OpRecv(Core(Restore(r))), io))
    ensures prompt == BackupSaved(image) && image in s.signer.loaded
  {
    SaveIsReported(w, s, io, r, image);
  }

  lemma ConsolidationOffers(w: World, s: State, r: Wire.Restoration, io: Io, prompt: Prompt)
    requires r.Consolidate? && prompt in Offered(w, s, Traces.Called(OpRecv(Core(Restore(r))), io))
    ensures prompt.AskConsolidate? && NamesShare(prompt.consolidation, r) && r.validates && r.matches
    ensures r.image in s.signer.saved || r.image in s.signer.loaded
  {
    ConsolidationIsAskedFor(w, s, io, r);
  }

  lemma KeygenOffers(w: World, s: State, k: Keygen, io: Io, prompt: Prompt)
    requires prompt in Offered(w, s, Traces.Called(OpRecv(Core(KeyGen(k))), io))
    ensures GoesBackTo(s, Traces.Called(OpRecv(Core(KeyGen(k))), io), prompt)
  {
    match k {
      case Begin(_, _, _, _, _, _, _) => BeginIsAnswered(w, s, io, k);
      case CertifyPlease(id, verifies) => CertifyIsAnswered(w, s, io, id, verifies);
      case Check(id, certificate) => KeygenIsAskedAbout(w, s, io, id, certificate);
      case Finalize(id) =>
        FinishIsShown(w, s, io, id);
        assert FinishesAs(s, Traces.Called(OpRecv(Core(KeyGen(k))), io), id, prompt.keyName);
    }
  }

  lemma SigningOffers(w: World, s: State, g: Signing, io: Io, prompt: Prompt)
    requires prompt in Offered(w, s, Traces.Called(OpRecv(Core(Sign(g))), io))
    ensures GoesBackTo(s, Traces.Called(OpRecv(Core(Sign(g))), io), prompt)
  {
    match g {
      case OpenNonceStreams(jobs) => NoncesAreSent(w, s, io, jobs);
      case RequestSign(ref, parties, wellFormed, nonceKnown, phase) =>
        SignatureIsAskedFor(w, s, io, ref, parties, wellFormed, nonceKnown, phase);
    }
  }

  /** A prompt is only ever put there by its own message, and names what that message and the session's keys say. */
  lemma OfferGoesBack(w: World, s: State, step: Traces.Step, prompt: Prompt)
    requires prompt in Offered(w, s, step)
    ensures GoesBackTo(s, step, prompt)
  {
    if step.op.body.Core? {
      match step.op.body.core {
        case KeyGen(k) => KeygenOffers(w, s, k, step.io, prompt);
        case Sign(g) => SigningOffers(w, s, g, step.io, prompt);
        case Restore(r) => RestorationOffers(w, s, r, step.io, prompt);
        case VerifyAddress(key, n) => AddressIsShown(w, s, step.io, key, n);
      }
    }
  }

  // ---- a human who is only asked by the session

  /** The prompt stood before the human: a step before `a` put it there. */
  ghost predicate OfferedBefore(w: World, run: seq<Traces.Step>, states: seq<State>, a: nat, prompt: Prompt)
    requires |states| == |run| + 1 && a <= |run|
  {
    exists p: nat :: p < a && prompt in Offered(w, states[p], run[p])
  }

  /** Every answer given is to a prompt the session has put. */
  ghost predicate Honest(w: World, run: seq<Traces.Step>, states: seq<State>)
    requires |states| == |run| + 1
  {
    forall a: nat :: a < |run| && run[a].op.OpConfirm? ==> OfferedBefore(w, run, states, a, run[a].op.prompt)
  }

  /** The coordinator asked at step `p` for the display of the very share the phase names, and it was held then. */
  predicate AskedToDisplay(run: seq<Traces.Step>, states: seq<State>, p: nat, phase: BackupPhase)
    requires |states| == |run| + 1 && p < |run|
  {
    && Hears(run[p], Restore(DisplayBackup(phase.ref, phase.index, phase.contribution)))
    && NamesHeld(states[p], phase, phase.ref, phase.index, phase.contribution)
  }

  /** So a page is only drawn of a share the coordinator asked for, held at the time, and a human said yes to. */
  lemma DrawnWasAskedFor(w: World, run: seq<Traces.Step>, states: seq<State>, i: nat, phase: BackupPhase, page: nat)
    requires Ran(w, run, states) && Honest(w, run, states) && i < |run| && Drew(phase, page) in FxOf(w, run, states, i)
    ensures exists p: nat, c: nat :: p < c < i && AskedToDisplay(run, states, p, phase)
              && Confirms(run[c].op) && run[c].op.prompt == AskReveal(phase)
  {
    DrawnIffConsented(w, run, states, i, phase, page);
    var t := TraceOf(run, states);
    var c: nat :| Traces.Issued(w.device, t, Traces.ToReveal, c, i, Traces.OfReveal(phase));
    assert run[c].op.prompt == AskReveal(phase);
    var p: nat :| p < c && AskReveal(phase) in Offered(w, states[p], run[p]);
    OfferGoesBack(w, states[p], run[p], AskReveal(phase));
    assert AskedToDisplay(run, states, p, phase);
  }

  /** Begun at `b`, certified at `c` and shown at `p` with the certificate of the share these terms name. */
  ghost predicate ShownFrom(run: seq<Traces.Step>, b: nat, c: nat, p: nat, id: KeygenId, t: Terms)
    requires p < |run|
  {
    && CertifiedFrom(run, b, c, p, id) && BegunAs(run[b]) == Named(t.keyName, t.purpose)
    && exists hash :: Hears(run[p], KeyGen(Check(id, Some(Certificate(hash, t.ref, t.threshold, t.image)))))
  }

  lemma ConfirmedWasShown(w: World, run: seq<Traces.Step>, states: seq<State>, a: nat, id: KeygenId, t: Terms)
    requires Ran(w, run, states) && Honest(w, run, states) && a < |run|
    requires ConfirmsKeygen(run[a].op, id) && TermsOf(run[a].op) == Some(t)
    ensures exists b: nat, c: nat, p: nat :: p < a && ShownFrom(run, b, c, p, id, t)
  {
    var prompt := run[a].op.prompt;
    var p: nat :| p < a && prompt in Offered(w, states[p], run[p]);
    OfferGoesBack(w, states[p], run[p], prompt);
    CertifiedWasBegun(w, run, states, p, id);
    var b: nat, c: nat :| CertifiedFrom(run, b, c, p, id)
      && Held(states[p].signer, Certified(id)) == Some(BegunAs(run[b]));
    assert ShownFrom(run, b, c, p, id, t);
  }

  /** A typed-in share at hand or saved: some step typed it in. */
  ghost predicate EverTyped(run: seq<Traces.Step>, states: seq<State>, i: nat, image: ShareImage)
    requires |states| == |run| + 1 && i <= |run|
  {
    exists y: nat :: y < i && TypesIn(states[y], run[y], image)
  }

  lemma AtHandWasTyped(w: World, run: seq<Traces.Step>, states: seq<State>, i: nat, image: ShareImage)
    requires Ran(w, run, states) && i <= |run|
    requires image in states[i].signer.saved || image in states[i].signer.loaded
    ensures EverTyped(run, states, i, image)
  {
    SavedWasTyped(w, run, states, i, image);
    LoadedIffTyped(w, run, states, i, image);
    if image in states[i].signer.loaded {
      var a: nat :| TypedSince(run, states, a, i, image);
    } else {
      var m: nat :| SavedSince(run, states, m, i, image);
      var a: nat :| TypedSince(run, states, a, m, image);
    }
  }

  /** What a share kept at step `i` goes back to. */
  ghost predicate KeptFrom(run: seq<Traces.Step>, states: seq<State>, i: nat, t: Terms)
    requires |states| == |run| + 1 && i < |run|
  {
    || (exists b: nat, c: nat, p: nat, id :: p < i && Finishes(run[i], id) && ShownFrom(run, b, c, p, id, t))
    || EverTyped(run, states, i, t.image)
  }

  /**
   Every share kept is one of a ceremony begun under its name and purpose, certified, and shown with its certificate
   to the human who confirmed it; or one a human typed in letter by letter and then agreed to keep.
   */
  lemma EveryShareGoesBack(w: World, run: seq<Traces.Step>, states: seq<State>, i: nat, t: Terms)
    requires Ran(w, run, states) && Honest(w, run, states) && i < |run| && KeepsOn(run, i, t)
    ensures KeptFrom(run, states, i, t)
  {
    if Confirms(run[i].op) {
      var prompt := run[i].op.prompt;
      var p: nat :| p < i && prompt in Offered(w, states[p], run[p]);
      OfferGoesBack(w, states[p], run[p], prompt);
      AtHandWasTyped(w, run, states, p, t.image);
    } else {
      var id, a: nat :| Finishes(run[i], id) && ConfirmedLast(run, a, i, id) && TermsOf(run[a].op) == Some(t);
      ConfirmedWasShown(w, run, states, a, id, t);
    }
  }
}
