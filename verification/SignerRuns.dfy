/**
 What a session's signer remembers between calls, over whole runs: the ceremonies begun, certified and
 waiting to be finished, and the shares typed in. Each is a slot: full exactly if a step filled it and none has
 emptied it since, and holding just what that step put there.
 */
module SignerRuns {
  import opened Wrappers
  import opened Utf8
  import opened Wire
  import opened Signers
  import opened SessionSpec
  import opened Screens
  import opened Writes
  import opened Runs
  import opened Durability
  import opened DurableRuns
  import opened Ceremonies
  import opened Slots
  import opened Terms
  import Traces

  // ---- what a call leaves in the signer

  /** What the call's own handler makes of the signer, before anything is persisted. */
  function SignerOf(s: State, op: Op): Signer {
    match op
    case OpRecv(body) => SignerOfMessage(s, body)
    case OpConfirm(prompt, page, choice) =>
      if Authorises(prompt, page) && Acts(s.signer, prompt, choice).Some?
      then Acts(s.signer, prompt, choice).value.signer else s.signer
    case OpEntry(Entered(image)) =>
      (match s.entry case None => s.signer case Some(entry) => LoadTyped(s.signer, entry.id, image).signer)
    case _ => s.signer
  }

  function SignerOfMessage(s: State, body: CoordinatorBody): Signer {
    match body
    case Cancel => ClearTmp(s.signer)
    case Core(core) =>
      if core.VerifyAddress?
         || (core.KeyGen? && core.keygen.Begin? && !GroupFits(core.keygen.devices, core.keygen.threshold))
      then s.signer else Receive(s.signer, core).signer
    case _ => s.signer
  }

  /** But for the queue of mutations, that is what the call leaves. */
  predicate LeavesSigner(s: State, op: Op, t: State) {
    t.signer == SignerOf(s, op).(staged := t.signer.staged)
  }

  lemma RunLeavesSigner(w: World, s: State, op: Op, q: Queue, io: Io)
    requires QueueOf(s, op) == Some(q) && q.state.signer == SignerOf(s, op)
    ensures LeavesSigner(s, op, Exec(w, s, op, io).post)
  {
    CallRuns(w, s, op, io);
    RunLeaves(w, q.state, q.sends, io);
  }

  lemma MessageLeavesSigner(w: World, s: State, core: CoreMessage, io: Io)
    requires QueueOfMessage(s, core).None?
    ensures RecvCore(w, s, core, io).post.signer == SignerOfMessage(s, Core(core))
  {
  }

  lemma CallLeavesSigner(w: World, s: State, op: Op, io: Io)
    ensures LeavesSigner(s, op, Exec(w, s, op, io).post)
  {
    if QueueOf(s, op).Some? {
      QueuedSigner(s, op);
      RunLeavesSigner(w, s, op, QueueOf(s, op).value, io);
    } else {
      UnqueuedSigner(w, s, op, io);
    }
  }

  lemma QueuedSigner(s: State, op: Op)
    requires QueueOf(s, op).Some?
    ensures QueueOf(s, op).value.state.signer == SignerOf(s, op)
  {
  }

  lemma UnqueuedSigner(w: World, s: State, op: Op, io: Io)
    requires QueueOf(s, op).None?
    ensures LeavesSigner(s, op, Exec(w, s, op, io).post)
  {
    match op {
      case OpRecv(body) => if body.Core? { MessageLeavesSigner(w, s, body.core, io); }
      case OpConfirm(prompt, page, choice) => UnactedSigner(w, s, prompt, page, choice, io);
      case OpEntry(_) =>
      case _ => SaysOnly(w, s, op, io);
    }
  }

  lemma UnactedSigner(w: World, s: State, prompt: Prompt, page: nat, choice: Choice, io: Io)
    requires QueueOf(s, OpConfirm(prompt, page, choice)).None?
    ensures ConfirmAt(w, s, prompt, page, choice, io).post.signer == s.signer
  {
  }

  // ---- the slots

  /** What the signer remembers of a ceremony at each of its stages, and of a share typed in. */
  datatype Slot =
    | Begun(id: KeygenId) | Certified(id: KeygenId) | Confirmed(id: KeygenId)
    | TypedIn(image: ShareImage) | SavedAs(image: ShareImage)

  datatype Content = Named(keyName: Str, purpose: Purpose) | On(terms: Terms) | Known

  function Entry<K, V>(m: map<K, V>, k: K): Option<V> {
    if k in m then Some(m[k]) else None
  }

  function NamedAs(c: Option<Ceremony>): Option<Content> {
    match c case None => None case Some(ceremony) => Some(Named(ceremony.keyName, ceremony.purpose))
  }

  function KnownIf(known: bool): Option<Content> {
    if known then Some(Known) else None
  }

  function Held(s: Signer, slot: Slot): Option<Content> {
    match slot
    case Begun(id) => NamedAs(Entry(s.begun, id))
    case Certified(id) => NamedAs(Entry(s.certified, id))
    case Confirmed(id) => (match Entry(s.pending, id) case None => None case Some(c) => Some(On(TermsIn(c))))
    case TypedIn(image) => KnownIf(image in s.loaded)
    case SavedAs(image) => KnownIf(image in s.saved)
  }

  predicate Hears(step: Traces.Step, core: CoreMessage) {
    step.Called? && step.op == OpRecv(Core(core))
  }

  /** The ceremony's first message, for a group this device is in and has room for. */
  predicate BeginsCeremony(step: Traces.Step, id: KeygenId) {
    && step.Called? && step.op.OpRecv? && step.op.body.Core? && step.op.body.core.KeyGen?
    && step.op.body.core.keygen.Begin? && step.op.body.core.keygen.id == id
    && step.op.body.core.keygen.listsUs && step.op.body.core.keygen.wellFormed
    && step.op.body.core.keygen.devices <= 12
    && 1 <= step.op.body.core.keygen.threshold <= step.op.body.core.keygen.devices
  }

  predicate Certifies(step: Traces.Step, id: KeygenId, verifies: bool) {
    Hears(step, KeyGen(CertifyPlease(id, verifies)))
  }

  predicate Checks(step: Traces.Step, id: KeygenId) {
    && step.Called? && step.op.OpRecv? && step.op.body.Core? && step.op.body.core.KeyGen?
    && step.op.body.core.keygen.Check? && step.op.body.core.keygen.id == id
  }

  /** The coordinator asks for a typed-in share to be saved. */
  predicate SavesImage(step: Traces.Step, image: ShareImage) {
    Hears(step, Restore(SavePhysicalBackup(image))) || Hears(step, Restore(SavePhysicalBackup2(image)))
  }

  /** A share is typed in under a live entry. */
  predicate TypesIn(s: State, step: Traces.Step, image: ShareImage) {
    step.Called? && step.op == OpEntry(Entered(image)) && s.entry.Some?
  }

  /** The call keeps a whole share of that image, encrypted. */
  predicate KeepsWhole(s: State, step: Traces.Step, image: ShareImage) {
    step.Called? && NewShare(s, step.op).Some? && NewShare(s, step.op).value.share.image == image
  }

  /** What a step does to a slot. */
  function TouchOf(s: State, step: Traces.Step, slot: Slot): Touch<Content> {
    match slot
    case Begun(id) =>
      if Cancels(step) || Certifies(step, id, true) || Certifies(step, id, false) then Clears
      else if BeginsCeremony(step, id)
      then Puts(Named(step.op.body.core.keygen.keyName, step.op.body.core.keygen.purpose)) else Touch.Leaves
    case Certified(id) =>
      if Cancels(step) || Checks(step, id) then Clears
      else if Certifies(step, id, true) && Held(s.signer, Begun(id)).Some?
      then Puts(Held(s.signer, Begun(id)).value) else Touch.Leaves
    case Confirmed(id) =>
      if Cancels(step) || Finishes(step, id) then Clears
      else if ConfirmsKeygen(step.op, id) then Puts(On(TermsOf(step.op).value)) else Touch.Leaves
    case TypedIn(image) =>
      if Cancels(step) || SavesImage(step, image) || KeepsWhole(s, step, image) then Clears
      else if TypesIn(s, step, image) then Puts(Known) else Touch.Leaves
    case SavedAs(image) =>
      if step.CutOff? || KeepsWhole(s, step, image) then Clears
      else if SavesImage(step, image) && image in s.signer.loaded then Puts(Known) else Touch.Leaves
  }

  // ---- one call, one slot

  lemma KeygenTouches(s: State, k: Keygen, io: Io, slot: Slot)
    requires k.Begin? ==> GroupFits(k.devices, k.threshold)
    ensures var step := Traces.Called(OpRecv(Core(KeyGen(k))), io);
      Held(ReceiveKeygen(s.signer, k).signer, slot) == Touched(Held(s.signer, slot), TouchOf(s, step, slot))
  {
    match k {
      case Begin(_, _, _, _, _, _, _) => BeginTouches(s, k, io, slot);
      case CertifyPlease(id, verifies) => CertifyTouches(s, id, verifies, io, slot);
      case Check(id, certificate) => CheckTouches(s, id, certificate, io, slot);
      case Finalize(id) => FinishTouches(s, id, io, slot);
    }
  }

  lemma BeginTouches(s: State, k: Keygen, io: Io, slot: Slot)
    requires k.Begin? && GroupFits(k.devices, k.threshold)
    ensures var step := Traces.Called(OpRecv(Core(KeyGen(k))), io);
      Held(ReceiveKeygen(s.signer, k).signer, slot) == Touched(Held(s.signer, slot), TouchOf(s, step, slot))
  {
  }

  lemma CertifyTouches(s: State, id: KeygenId, verifies: bool, io: Io, slot: Slot)
    ensures var step := Traces.Called(OpRecv(Core(KeyGen(CertifyPlease(id, verifies)))), io);
      Held(ReceiveKeygen(s.signer, CertifyPlease(id, verifies)).signer, slot)
        == Touched(Held(s.signer, slot), TouchOf(s, step, slot))
  {
  }

  lemma CheckTouches(s: State, id: KeygenId, certificate: Option<Certificate>, io: Io, slot: Slot)
    ensures var step := Traces.Called(OpRecv(Core(KeyGen(Check(id, certificate)))), io);
      Held(ReceiveKeygen(s.signer, Check(id, certificate)).signer, slot)
        == Touched(Held(s.signer, slot), TouchOf(s, step, slot))
  {
  }

  lemma FinishTouches(s: State, id: KeygenId, io: Io, slot: Slot)
    ensures var step := Traces.Called(OpRecv(Core(KeyGen(Finalize(id)))), io);
      Held(ReceiveKeygen(s.signer, Finalize(id)).signer, slot) == Touched(Held(s.signer, slot), TouchOf(s, step, slot))
  {
    if id in s.signer.pending {
      SavingMoves(s.signer.(pending := s.signer.pending - {id}), s.signer.pending[id]);
    }
  }

  lemma RestorationTouches(s: State, r: Wire.Restoration, io: Io, slot: Slot)
    ensures var step := Traces.Called(OpRecv(Core(Restore(r))), io);
      Held(ReceiveRestoration(s.signer, r).signer, slot) == Touched(Held(s.signer, slot), TouchOf(s, step, slot))
  {
  }

  lemma MessageTouches(s: State, body: CoordinatorBody, io: Io, slot: Slot)
    ensures var step := Traces.Called(OpRecv(body), io);
      Held(SignerOfMessage(s, body), slot) == Touched(Held(s.signer, slot), TouchOf(s, step, slot))
  {
    if body.Core? {
      match body.core {
        case KeyGen(k) => if k.Begin? ==> GroupFits(k.devices, k.threshold) { KeygenTouches(s, k, io, slot); }
        case Restore(r) => RestorationTouches(s, r, io, slot);
        case _ =>
      }
    }
  }

  lemma ConsentTouches(s: State, prompt: Prompt, page: nat, choice: Choice, io: Io, slot: Slot)
    ensures var op := OpConfirm(prompt, page, choice);
      Held(SignerOf(s, op), slot) == Touched(Held(s.signer, slot), TouchOf(s, Traces.Called(op, io), slot))
  {
    match prompt {
      case AskConsolidate(phase) => ConsolidationTouches(s, phase, page, choice, io, slot);
      case CheckKeyGen(phase) =>
      case _ =>
    }
  }

  lemma ConsolidationTouches(s: State, phase: ConsolidatePhase, page: nat, choice: Choice, io: Io, slot: Slot)
    ensures var op := OpConfirm(AskConsolidate(phase), page, choice);
      Held(SignerOf(s, op), slot) == Touched(Held(s.signer, slot), TouchOf(s, Traces.Called(op, io), slot))
  {
    SavingMoves(s.signer, Consolidated(phase, choice.ciphertext));
  }

  lemma EntryTouches(s: State, entered: EntryStep, io: Io, slot: Slot)
    ensures var op := OpEntry(entered);
      Held(SignerOf(s, op), slot) == Touched(Held(s.signer, slot), TouchOf(s, Traces.Called(op, io), slot))
  {
  }

  lemma CallTouches(s: State, op: Op, io: Io, slot: Slot)
    ensures Held(SignerOf(s, op), slot) == Touched(Held(s.signer, slot), TouchOf(s, Traces.Called(op, io), slot))
  {
    match op {
      case OpRecv(body) => MessageTouches(s, body, io, slot);
      case OpConfirm(prompt, page, choice) => ConsentTouches(s, prompt, page, choice, io, slot);
      case OpEntry(entered) => EntryTouches(s, entered, io, slot);
      case _ =>
    }
  }

  lemma BootHoldsNoSlot(s: State, slot: Slot)
    requires Booted(s)
    ensures Held(s.signer, slot).None?
  {
    BootIs(s.shares);
  }

  /** Each step moves each slot as its touch says. */
  lemma StepTouches(w: World, s: State, step: Traces.Step, t: State, slot: Slot)
    requires t == Next(w, s, step)
    ensures Held(t.signer, slot) == Touched(Held(s.signer, slot), TouchOf(s, step, slot))
  {
    if step.CutOff? {
      BootHoldsNoSlot(t, slot);
    } else {
      CallLeavesSigner(w, s, step.op, step.io);
      CallTouches(s, step.op, step.io, slot);
    }
  }

  // ---- over a run

  ghost function TouchesOf(run: seq<Traces.Step>, states: seq<State>, slot: Slot): (touches: seq<Touch<Content>>)
    requires |states| == |run| + 1
    ensures |touches| == |run|
  {
    seq(|run|, i requires 0 <= i < |run| => TouchOf(states[i], run[i], slot))
  }

  ghost function HeldOf(states: seq<State>, slot: Slot): (held: seq<Option<Content>>)
    ensures |held| == |states|
  {
    seq(|states|, i requires 0 <= i < |states| => Held(states[i].signer, slot))
  }

  lemma RunTouches(w: World, run: seq<Traces.Step>, states: seq<State>, slot: Slot)
    requires Ran(w, run, states)
    ensures Follows(HeldOf(states, slot), TouchesOf(run, states, slot))
  {
    var held, touches := HeldOf(states, slot), TouchesOf(run, states, slot);
    BootHoldsNoSlot(states[0], slot);
    forall i: nat | i < |touches|
      ensures StepFollows(held, touches, i)
    {
      assert StepOf(w, run, states, i);
      StepTouches(w, states[i], run[i], states[i + 1], slot);
    }
  }

  /**
   In every reachable state the signer remembers a ceremony's name from its last begin, a confirmed ceremony on the
   terms of its last yes, and a typed-in share: exactly those no later step has taken away.
   */
  lemma RemembersTheLast(w: World, run: seq<Traces.Step>, states: seq<State>, i: nat, slot: Slot)
    requires Ran(w, run, states) && i <= |run|
    ensures SaysLast(Held(states[i].signer, slot), TouchesOf(run, states, slot), i)
  {
    RunTouches(w, run, states, slot);
    SlotSaysLast(HeldOf(states, slot), TouchesOf(run, states, slot), i);
  }

  // ---- the coordinator's greeting

  lemma CallAcks(w: World, s: State, op: Op, io: Io)
    ensures Exec(w, s, op, io).post.acked <==> s.acked || op == OpRecv(AnnounceAck)
  {
    if QueueOf(s, op).Some? {
      var q := QueueOf(s, op).value;
      CallRuns(w, s, op, io);
      RunLeaves(w, q.state, q.sends, io);
    } else {
      UnqueuedAcks(w, s, op, io);
    }
  }

  lemma UnqueuedAcks(w: World, s: State, op: Op, io: Io)
    requires QueueOf(s, op).None?
    ensures Exec(w, s, op, io).post.acked <==> s.acked || op == OpRecv(AnnounceAck)
  {
    match op {
      case OpQuiz(key, redraw) => QuizLeavesAcked(w, s, key, redraw);
      case OpAnnounce(digest) =>
      case OpConfirm(prompt, page, choice) =>
      case _ =>
    }
  }

  lemma QuizLeavesAcked(w: World, s: State, key: char, redraw: Option<seq<string>>)
    ensures QuizKey(w, s, key, redraw).post.acked == s.acked
  {
  }

  /** The session takes itself for announced exactly if it has been told so since it booted. */
  lemma {:induction false} AckedIffTold(w: World, run: seq<Traces.Step>, states: seq<State>, i: nat)
    requires Ran(w, run, states) && i <= |run|
    ensures states[i].acked <==> exists a: nat :: AckedSince(run, a, i)
  {
    if i > 0 {
      var k := i - 1;
      var s, step, t := states[k], run[k], states[i];
      AckedIffTold(w, run, states, k);
      assert StepOf(w, run, states, k);
      AckedNext(run, k, i);
      if step.Called? {
        CallAcks(w, s, step.op, step.io);
      }
    }
  }

  ghost predicate AckedSince(run: seq<Traces.Step>, a: nat, i: nat)
    requires i <= |run|
  {
    a < i && run[a].Called? && run[a].op == OpRecv(AnnounceAck) && forall j :: a < j < i ==> run[j].Called?
  }

  lemma AckedNext(run: seq<Traces.Step>, k: nat, i: nat)
    requires i <= |run| && i == k + 1
    ensures (exists a: nat :: AckedSince(run, a, i)) <==>
      run[k].Called? && (run[k].op == OpRecv(AnnounceAck) || exists a: nat :: AckedSince(run, a, k))
  {
    if a: nat :| AckedSince(run, a, i) {
      assert a < k ==> AckedSince(run, a, k);
    }
    if run[k].Called? && run[k].op == OpRecv(AnnounceAck) {
      assert AckedSince(run, k, i);
    }
    if a: nat :| AckedSince(run, a, k) {
      assert run[k].Called? ==> AckedSince(run, a, i);
    }
  }
}
