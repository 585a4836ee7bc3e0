/** Short runs of the session, from a blank flash, in which what was answered and what is stored part. */
module Counterexamples {
  import opened Wrappers
  import opened Text
  import opened Wire
  import opened AbSlots
  import opened Signers
  import opened ShareStores
  import opened Screens
  import opened Quizzes
  import opened SessionSpec
  import opened Consents
  import opened Steps
  import opened Runs
  import opened Durability
  import opened DurableRuns
  import Traces

  const REFUSED := Io(WritePlan(SlotPlan.EraseRefused, Completes), WritePlan(Completes, Completes))
  const REFUSED_PARTWAY := Io(WritePlan(ProgramStopped, Completes), WritePlan(Completes, Completes))
  const TORN_SECOND_COPY := Io(WritePlan(Completes, ProgramStopped), WritePlan(Completes, Completes))

  /** Two shares under two keys, each of which a human can be asked to consolidate. */
  predicate Apart(first: ConsolidatePhase, second: ConsolidatePhase) {
    && first.ref.key != second.ref.key
    && Authorises(AskConsolidate(first), 0) && Authorises(AskConsolidate(second), 0)
  }

  lemma SomeAreApart()
    ensures exists first, second :: Apart(first, second)
  {
    var image := ShareImage(1, 1);
    DecimalLength(1, 1);
    assert Power10(1) == 10;
    assert Apart(ConsolidatePhase(AccessRef(1, 1), [], Test, 1, image),
                 ConsolidatePhase(AccessRef(2, 2), [], Test, 1, image));
  }

  function Ack(phase: ConsolidatePhase): Body {
    FromCore(FinishedConsolidation(phase.ref, phase.image.index))
  }

  /** A yes to a consolidation. */
  function Yes(phase: ConsolidatePhase, choice: Choice, io: Io): Traces.Step {
    Traces.Called(OpConfirm(AskConsolidate(phase), 0, choice), io)
  }

  /** The same consolidation asked for again. */
  function Again(phase: ConsolidatePhase): Traces.Step {
    Traces.Called(OpRecv(Core(Restore(RestorationFor(phase)))), ALL_COMPLETES)
  }

  function RestorationFor(phase: ConsolidatePhase): Wire.Restoration {
    Consolidate(phase.ref, phase.image, true, true, phase.keyName, phase.purpose, phase.threshold)
  }

  ghost predicate BlankStart(s: State) {
    Booted(s) && s.shares == Cells(Blank, Blank)
  }

  /** Any steps make a run, from any boot. */
  function StatesOf(w: World, s: State, run: seq<Traces.Step>): (states: seq<State>)
    ensures |states| == |run| + 1 && states[0] == s
    decreases |run|
  {
    if run == [] then [s] else [s] + StatesOf(w, Next(w, s, run[0]), run[1..])
  }

  lemma {:induction false} StepsFollow(w: World, s: State, run: seq<Traces.Step>, i: nat)
    requires i < |run|
    ensures StatesOf(w, s, run)[i + 1] == Next(w, StatesOf(w, s, run)[i], run[i])
    decreases |run|
  {
    if i > 0 {
      StepsFollow(w, Next(w, s, run[0]), run[1..], i - 1);
    }
  }

  /** Nothing is drawn for a consolidation, asked for or consented to. */
  predicate DrawsNothing(op: Op) {
    op.OpRecv? || (op.OpConfirm? && op.prompt.AskConsolidate? && Undrawn(op.choice))
  }

  predicate Undrawn(choice: Choice) {
    choice.draw == Draw([], None)
  }

  lemma DrewNothing(d: Device, s: State, op: Op)
    requires DrawsNothing(op)
    ensures Drawn(d, s, op)
  {
    if op.OpConfirm? {
      assert op.choice.draw == DrawFor(d, op.prompt, []);
    }
  }

  lemma AnyStepsRun(w: World, s: State, run: seq<Traces.Step>)
    requires Booted(s) && forall i :: 0 <= i < |run| ==> DrawsNothing(run[i].op)
    ensures Ran(w, run, StatesOf(w, s, run))
  {
    var states := StatesOf(w, s, run);
    forall i: nat | i < |run|
      ensures StepOf(w, run, states, i)
    {
      StepsFollow(w, s, run, i);
      DrewNothing(w.device, states[i], run[i].op);
    }
  }

  /** The last step of a run acknowledges a share that a boot right after does not hold. */
  ghost predicate AcknowledgedAndGone(w: World, run: seq<Traces.Step>, states: seq<State>, phase: ConsolidatePhase) {
    && Ran(w, run, states) && run != []
    && (var last := |run| - 1; var fx := FxOf(w, run, states, last);
        && Sent(Ack(phase)) in fx
        && ShareAt(BootAfter(states[last], fx), phase.ref, phase.image.index).None?)
  }

  /**
   Nothing fails: consolidate one share, then another under another key, and ask about the first again. It is
   acknowledged as consolidated, and the next boot has only the second.
   */
  lemma ReplacedThenReacknowledged(w: World, s: State, choice: Choice, first: ConsolidatePhase,
                                   second: ConsolidatePhase)
    requires BlankStart(s) && Apart(first, second) && Undrawn(choice) && w.encode[Ack(first)].Success?
    ensures exists run: seq<Traces.Step> :: |run| == 3 && AcknowledgedAndGone(w, run, StatesOf(w, s, run), first)
  {
    var run := [Yes(first, choice, ALL_COMPLETES), Yes(second, choice, ALL_COMPLETES), Again(first)];
    ReacknowledgedBy(w, s, run, choice, first, second);
  }

  lemma ReacknowledgedBy(w: World, s: State, run: seq<Traces.Step>, choice: Choice, first: ConsolidatePhase,
                         second: ConsolidatePhase)
    requires BlankStart(s) && Apart(first, second) && |run| == 3 && w.encode[Ack(first)].Success?
    requires run[0] == Yes(first, choice, ALL_COMPLETES) && run[1] == Yes(second, choice, ALL_COMPLETES)
    requires run[2] == Again(first) && Undrawn(choice)
    ensures AcknowledgedAndGone(w, run, StatesOf(w, s, run), first)
  {
    AnyStepsRun(w, s, run);
    ReacknowledgedIn(w, run, StatesOf(w, s, run), choice, first, second);
  }

  lemma ReacknowledgedIn(w: World, run: seq<Traces.Step>, states: seq<State>, choice: Choice,
                         first: ConsolidatePhase, second: ConsolidatePhase)
    requires Ran(w, run, states) && |run| == 3 && BlankStart(states[0]) && Apart(first, second)
    requires w.encode[Ack(first)].Success?
    requires run[0] == Yes(first, choice, ALL_COMPLETES) && run[1] == Yes(second, choice, ALL_COMPLETES)
    requires run[2] == Again(first)
    ensures AcknowledgedAndGone(w, run, states, first)
  {
    ReacknowledgedShareMayBeGone(w, run, states, Consolidated(first, choice.ciphertext),
                                 Consolidated(second, choice.ciphertext), RestorationFor(first));
  }

  /** An accepted consolidation with nothing else staged ends with its acknowledgement. */
  lemma ConsolidationAnswers(w: World, s: State, phase: ConsolidatePhase, choice: Choice, io: Io)
    requires Authorises(AskConsolidate(phase), 0) && w.encode[Ack(phase)].Success?
    requires var t := s.(signer := FinishConsolidation(s.signer, phase, choice.ciphertext).signer); PersistsWell(t, io)
    ensures var fx := Exec(w, s, Yes(phase, choice, io).op, io).fx; fx != [] && fx[|fx| - 1] == Sent(Ack(phase))
  {
    var acted := FinishConsolidation(s.signer, phase, choice.ciphertext);
    var t := s.(signer := acted.signer);
    OneReplyAfterWriting(w, t, FinishedConsolidation(phase.ref, phase.image.index), io);
    CallRuns(w, s, Yes(phase, choice, io).op, io);
  }

  /** The first consolidation, both copies whole: the tie is slot a's, so the next write starts in slot b. */
  lemma FirstStored(w: World, s: State, choice: Choice, phase: ConsolidatePhase)
    requires BlankStart(s) && Authorises(AskConsolidate(phase), 0)
    ensures var t := Next(w, s, Yes(phase, choice, ALL_COMPLETES));
      Staged(t) == [] && TieGoesToTornCopy(t.shares, TORN_SECOND_COPY.share) && NextIndex(t.shares).Some?
  {
    BlankBoot(s);
    var step := Yes(phase, choice, ALL_COMPLETES);
    ConsolidationLeaves(w, s, step.op, Next(w, s, step));
  }

  lemma FirstCopyPersists(s: State, c: CompleteShare, io: Io)
    requires Staged(s) == Triple(c) && NextIndex(s.shares).Some? && io.share.first.Completes?
    ensures PersistsWell(s, io)
  {
    RecordFromExactlyATriple(Staged(s));
  }

  /** A consolidation whose first copy is written, with nothing else staged, ends with its acknowledgement. */
  lemma ConsolidationIsAcknowledged(w: World, s: State, phase: ConsolidatePhase, choice: Choice, io: Io)
    requires Authorises(AskConsolidate(phase), 0) && w.encode[Ack(phase)].Success?
    requires Staged(s) == [] && NextIndex(s.shares).Some? && io.share.first.Completes?
    ensures var fx := Exec(w, s, Yes(phase, choice, io).op, io).fx; fx != [] && fx[|fx| - 1] == Sent(Ack(phase))
  {
    var c := Consolidated(phase, choice.ciphertext);
    SavingStages(s.signer, c);
    FirstCopyPersists(s.(signer := SaveCompleteShare(s.signer, c)), c, io);
    ConsolidationAnswers(w, s, phase, choice, io);
  }

  /** One torn copy: the write of the second share is accepted and acknowledged, and a boot right then holds nothing. */
  lemma TornIsAcknowledged(w: World, t: State, choice: Choice, phase: ConsolidatePhase)
    requires Authorises(AskConsolidate(phase), 0) && w.encode[Ack(phase)].Success?
    requires Staged(t) == [] && TieGoesToTornCopy(t.shares, TORN_SECOND_COPY.share) && NextIndex(t.shares).Some?
    ensures var fx := Exec(w, t, Yes(phase, choice, TORN_SECOND_COPY).op, TORN_SECOND_COPY).fx;
      Sent(Ack(phase)) in fx && ShareAt(BootAfter(t, fx), phase.ref, phase.image.index).None?
  {
    var op := Yes(phase, choice, TORN_SECOND_COPY).op;
    ConsolidationIsAcknowledged(w, t, phase, choice, TORN_SECOND_COPY);
    var fx := Exec(w, t, op, TORN_SECOND_COPY).fx;
    var last := |fx| - 1;
    assert fx[last] == Sent(Ack(phase));
    TornHoldsNothing(w, t, op, fx, last);
    HeldIfThere(BootAfter(t, fx), phase.ref, phase.image.index);
  }

  lemma TornHoldsNothing(w: World, t: State, op: Op, fx: seq<Effect>, k: nat)
    requires Confirms(op) && op.prompt.AskConsolidate? && TieGoesToTornCopy(t.shares, TORN_SECOND_COPY.share)
    requires fx == Exec(w, t, op, TORN_SECOND_COPY).fx && k < |fx| && fx[k].Sent?
    ensures HeldBy(BootAfter(t, fx)) == {}
  {
    ConsolidationAckIsDurable(w, t, op, TORN_SECOND_COPY, k, |fx|);
    assert fx[..|fx|] == fx;
  }

  lemma HeldIfThere(s: Signer, ref: AccessRef, index: ShareIndex)
    ensures ShareAt(s, ref, index).Some? ==>
      HeldShare(Some(ref), ShareAt(s, ref, index).value.image) in HeldBy(s)
  {
  }

  lemma FxOfCall(w: World, run: seq<Traces.Step>, states: seq<State>, i: nat)
    requires i < |run| && |states| == |run| + 1 && run[i].Called?
    ensures FxOf(w, run, states, i) == Exec(w, states[i], run[i].op, run[i].io).fx
  {
  }

  /** Which happens: two consolidations from a blank flash, and one torn copy. */
  lemma TornThenAcknowledged(w: World, s: State, choice: Choice, first: ConsolidatePhase, second: ConsolidatePhase)
    requires BlankStart(s) && Apart(first, second) && Undrawn(choice) && w.encode[Ack(second)].Success?
    ensures exists run: seq<Traces.Step> :: |run| == 2 && AcknowledgedAndGone(w, run, StatesOf(w, s, run), second)
  {
    var run := [Yes(first, choice, ALL_COMPLETES), Yes(second, choice, TORN_SECOND_COPY)];
    AnyStepsRun(w, s, run);
    TornIn(w, run, StatesOf(w, s, run), choice, first, second);
  }

  lemma TornIn(w: World, run: seq<Traces.Step>, states: seq<State>, choice: Choice,
               first: ConsolidatePhase, second: ConsolidatePhase)
    requires Ran(w, run, states) && |run| == 2 && BlankStart(states[0]) && Apart(first, second)
    requires w.encode[Ack(second)].Success?
    requires run[0] == Yes(first, choice, ALL_COMPLETES) && run[1] == Yes(second, choice, TORN_SECOND_COPY)
    ensures AcknowledgedAndGone(w, run, states, second)
  {
    assert StepOf(w, run, states, 0);
    FirstStored(w, states[0], choice, first);
    FxOfCall(w, run, states, 1);
    TornIsAcknowledged(w, states[1], choice, second);
  }

  /** A refused write and then a second consolidation: two triples staged, and nothing stored or answered again. */
  lemma RefusedThenWedged(w: World, s: State, choice: Choice, first: ConsolidatePhase, second: ConsolidatePhase)
    requires BlankStart(s) && Apart(first, second) && Undrawn(choice)
    ensures exists run: seq<Traces.Step> :: |run| == 2 && Wedged(w, run, StatesOf(w, s, run))
  {
    var run := [Yes(first, choice, REFUSED), Yes(second, choice, ALL_COMPLETES)];
    AnyStepsRun(w, s, run);
    WedgedIn(w, run, StatesOf(w, s, run), choice, first, second);
  }

  ghost predicate Wedged(w: World, run: seq<Traces.Step>, states: seq<State>) {
    Ran(w, run, states) && |Staged(states[|run|])| > 3
  }

  lemma WedgedIn(w: World, run: seq<Traces.Step>, states: seq<State>, choice: Choice,
                 first: ConsolidatePhase, second: ConsolidatePhase)
    requires Ran(w, run, states) && |run| == 2 && BlankStart(states[0]) && Apart(first, second)
    requires run[0] == Yes(first, choice, REFUSED) && run[1] == Yes(second, choice, ALL_COMPLETES)
    ensures Wedged(w, run, states)
  {
    assert StepOf(w, run, states, 0) && StepOf(w, run, states, 1);
    RefusedStaysStaged(w, states[0], choice, first);
    SecondCeremonyWedges(w, states[1], run[1].op, ALL_COMPLETES);
  }

  lemma RefusedStaysStaged(w: World, s: State, choice: Choice, phase: ConsolidatePhase)
    requires BlankStart(s) && Authorises(AskConsolidate(phase), 0)
    ensures Staged(Next(w, s, Yes(phase, choice, REFUSED))) != []
  {
    var op := Yes(phase, choice, REFUSED).op;
    BlankBoot(s);
    QueueStages(s, op);
    FailedPersistSaysNothing(w, s, op, REFUSED);
    KeptStay(QueueOf(s, op).value.state.signer.staged);
  }

  /** A share stored and acknowledged, and then, by a later call that stores and says nothing, gone. */
  ghost predicate StoredThenLost(w: World, run: seq<Traces.Step>, states: seq<State>, phase: ConsolidatePhase) {
    && Ran(w, run, states) && |run| == 2
    && Sent(Ack(phase)) in FxOf(w, run, states, 0) && Read(states[1].shares).Holds?
    && (forall e :: e in FxOf(w, run, states, 1) ==> !e.Sent?)
    && Reloaded(states[2].shares) == BLANK_SIGNER
  }

  /** A refused write does not leave the record before it intact: refused with its index programmed, it takes it too. */
  lemma RefusedThenLost(w: World, s: State, choice: Choice, first: ConsolidatePhase, second: ConsolidatePhase)
    requires BlankStart(s) && Apart(first, second) && Undrawn(choice) && w.encode[Ack(first)].Success?
    ensures exists run: seq<Traces.Step> :: StoredThenLost(w, run, StatesOf(w, s, run), first)
  {
    var run := [Yes(first, choice, ALL_COMPLETES), Yes(second, choice, REFUSED_PARTWAY)];
    AnyStepsRun(w, s, run);
    LostIn(w, run, StatesOf(w, s, run), choice, first, second);
  }

  lemma LostIn(w: World, run: seq<Traces.Step>, states: seq<State>, choice: Choice,
               first: ConsolidatePhase, second: ConsolidatePhase)
    requires Ran(w, run, states) && |run| == 2 && BlankStart(states[0]) && Apart(first, second)
    requires w.encode[Ack(first)].Success?
    requires run[0] == Yes(first, choice, ALL_COMPLETES) && run[1] == Yes(second, choice, REFUSED_PARTWAY)
    ensures StoredThenLost(w, run, states, first)
  {
    assert StepOf(w, run, states, 0) && StepOf(w, run, states, 1);
    var s, t, u := states[0], states[1], states[2];
    FirstIsAcknowledged(w, s, choice, first);
    FirstStored(w, s, choice, first);
    FxOfCall(w, run, states, 0);
    FxOfCall(w, run, states, 1);
    RefusedPartway(w, t, choice, second, u);
  }

  lemma FirstIsAcknowledged(w: World, s: State, choice: Choice, phase: ConsolidatePhase)
    requires BlankStart(s) && Authorises(AskConsolidate(phase), 0) && w.encode[Ack(phase)].Success?
    ensures Sent(Ack(phase)) in Exec(w, s, Yes(phase, choice, ALL_COMPLETES).op, ALL_COMPLETES).fx
    ensures Read(Next(w, s, Yes(phase, choice, ALL_COMPLETES)).shares).Holds?
  {
    var step := Yes(phase, choice, ALL_COMPLETES);
    BlankBoot(s);
    ConsolidationLeaves(w, s, step.op, Next(w, s, step));
    ConsolidationIsAcknowledged(w, s, phase, choice, ALL_COMPLETES);
  }

  lemma RefusedPartway(w: World, t: State, choice: Choice, phase: ConsolidatePhase, u: State)
    requires Authorises(AskConsolidate(phase), 0) && Staged(t) == [] && NextIndex(t.shares).Some?
    requires u == Next(w, t, Yes(phase, choice, REFUSED_PARTWAY))
    ensures Reloaded(u.shares) == BLANK_SIGNER
    ensures forall e :: e in Exec(w, t, Yes(phase, choice, REFUSED_PARTWAY).op, REFUSED_PARTWAY).fx ==> !e.Sent?
  {
    var op := Yes(phase, choice, REFUSED_PARTWAY).op;
    var q := QueueOf(t, op).value;
    QueueKeepsFlash(t, op);
    QueueStages(t, op);
    var c := Consolidated(phase, choice.ciphertext);
    assert Staged(q.state) == Triple(c);
    RecordFromExactlyATriple(Staged(q.state));
    RefusedKeepsOldIffIndexUnwritten(t.shares, RecordOfShare(c), REFUSED_PARTWAY.share);
    FailedPersistSaysNothing(w, t, op, REFUSED_PARTWAY);
    CallRuns(w, t, op, REFUSED_PARTWAY);
    RunLeaves(w, q.state, q.sends, REFUSED_PARTWAY);
  }
}
