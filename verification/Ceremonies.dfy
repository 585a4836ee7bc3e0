/** Keygen ceremonies over whole runs: one is left to finish only by the human who confirmed it. */
module Ceremonies {
  import opened Wrappers
  import opened Wire
  import opened AbSlots
  import opened Storage
  import opened Signers
  import opened ShareStores
  import opened SessionSpec
  import opened Steps
  import opened Consents
  import opened Writes
  import opened Runs

  /** The human confirmed a keygen check, on a page that may be answered. */
  predicate ConfirmsKeygen(op: Op, id: KeygenId) {
    Confirms(op) && op.prompt.CheckKeyGen? && op.prompt.keygen.id == id
  }

  predicate Cancels(step: Traces.Step) {
    step.CutOff? || (step.op.OpRecv? && step.op.body.Cancel?)
  }

  /** A call that runs the queue leaves the pending ceremonies as they were. */
  lemma RunPending(w: World, s: State, sends: seq<Send>, io: Io)
    requires Quiet(sends)
    ensures Run(w, s, sends, io).post.signer.pending == s.signer.pending
  {
    RunQuiet(w, s, sends, io);
  }

  lemma ReceivePending(s: Signer, core: CoreMessage)
    requires !core.VerifyAddress? && !(core.KeyGen? && core.keygen.Finalize?)
    ensures Receive(s, core).signer.pending == s.pending
  {
  }

  lemma DispatchPending(w: World, s: State, core: CoreMessage, io: Io)
    requires !core.VerifyAddress? && !(core.KeyGen? && core.keygen.Finalize?)
    ensures Dispatch(w, s, core, io).post.signer.pending == s.signer.pending
  {
    var answer := Receive(s.signer, core);
    ReceivePending(s.signer, core);
    if answer.sends.Success? {
      AnswersAreQuiet(s.signer, core);
      RunPending(w, s.(signer := answer.signer), answer.sends.value, io);
    }
  }

  lemma FinalizePending(w: World, s: State, id: KeygenId, io: Io)
    ensures Dispatch(w, s, KeyGen(Finalize(id)), io).post.signer.pending == s.signer.pending - {id}
  {
    if id in s.signer.pending {
      var t := s.(signer := ReceiveKeygen(s.signer, Finalize(id)).signer);
      RunCommits(w, t, s.signer.pending[id].keyName, io);
      CommitSpends(w, Persisting(t, io), io);
    }
  }

  lemma GrantedPending(w: World, s: State, prompt: Prompt, choice: Choice, io: Io, id: KeygenId)
    ensures id in Granted(w, s, prompt, choice, io).post.signer.pending
       ==> id in s.signer.pending || (prompt.CheckKeyGen? && prompt.keygen.id == id)
  {
    var acted := Acts(s.signer, prompt, choice);
    if acted.Some? {
      RunPending(w, s.(signer := acted.value.signer), acted.value.sends, io);
    }
  }

  lemma EntryPending(w: World, s: State, step: EntryStep, io: Io)
    ensures EntryKey(w, s, step, io).post.signer.pending == s.signer.pending
  {
    if s.entry.Some? && step.Entered? {
      var acting := LoadTyped(s.signer, s.entry.value.id, step.image);
      RunPending(w, s.(entry := None, signer := acting.signer), acting.sends, io);
    }
  }

  lemma RecvPending(w: World, s: State, body: CoordinatorBody, io: Io, id: KeygenId)
    ensures id in Recv(w, s, body, io).post.signer.pending
       ==> id in s.signer.pending && !body.Cancel? && body != Core(KeyGen(Finalize(id)))
  {
    if body.Core? {
      var core := body.core;
      if core.VerifyAddress? {
        RunPending(w, s, [ToUser(ShowAddress(core.key, core.derivationIndex))], io);
      } else if core.KeyGen? && core.keygen.Finalize? {
        FinalizePending(w, s, core.keygen.id, io);
      } else {
        DispatchPending(w, s, core, io);
      }
    }
  }

  /** Whether a step finishes ceremony `id`. */
  predicate Finishes(step: Traces.Step, id: KeygenId) {
    step.op == OpRecv(Core(KeyGen(Finalize(id))))
  }

  /** A ceremony is left pending only by its confirmation: no cancel, no cut and no finish leaves it. */
  lemma PendingStep(w: World, s: State, step: Traces.Step, id: KeygenId)
    requires id in Next(w, s, step).signer.pending
    ensures !Cancels(step) && !Finishes(step, id)
    ensures ConfirmsKeygen(step.op, id) || id in s.signer.pending
  {
    if step.CutOff? {
      BootHasNoCeremony(SharesAfter(s.shares, Fx(w, s, step)), NamesAfter(s.names, Fx(w, s, step)));
    } else {
      match step.op {
        case OpRecv(body) => RecvPending(w, s, body, step.io, id);
        case OpConfirm(prompt, page, choice) => GrantedPending(w, s, prompt, choice, step.io, id);
        case OpEntry(entered) => EntryPending(w, s, entered, step.io);
        case _ => SaysOnly(w, s, step.op, step.io);
      }
    }
  }

  lemma BootHasNoCeremony(shares: Cells<ShareRecord>, names: Cells<NameRecord>)
    ensures Open(shares, names).signer.pending == map[]
  {
    if Read(shares).Holds? {
      ReplayStartsNoCeremony(BLANK_SIGNER, Mutations(Read(shares).value));
    }
  }

  // ---- over a run

  /** The ceremonies a run leaves pending, step by step. */
  ghost predicate PendingLawful(run: seq<Traces.Step>, pending: seq<set<KeygenId>>) {
    && |pending| == |run| + 1 && pending[0] == {}
    && forall i: nat :: i < |run| ==> LeavesPending(run[i], pending[i], pending[i + 1])
  }

  ghost predicate LeavesPending(step: Traces.Step, before: set<KeygenId>, after: set<KeygenId>) {
    forall id :: id in after ==>
      !Cancels(step) && !Finishes(step, id) && (ConfirmsKeygen(step.op, id) || id in before)
  }

  /** The ceremony was confirmed at step `a`, and neither cancelled, cut off nor finished since. */
  ghost predicate ConfirmedSince(run: seq<Traces.Step>, a: nat, i: nat, id: KeygenId)
    requires i <= |run|
  {
    && a < i && ConfirmsKeygen(run[a].op, id)
    && forall j: nat :: a <= j < i ==> !Cancels(run[j]) && !Finishes(run[j], id)
  }

  lemma {:induction false} PendingWasConfirmed(run: seq<Traces.Step>, pending: seq<set<KeygenId>>, i: nat, id: KeygenId)
    requires PendingLawful(run, pending) && i <= |run| && id in pending[i]
    ensures exists a: nat :: ConfirmedSince(run, a, i, id)
  {
    var k := i - 1;
    assert LeavesPending(run[k], pending[k], pending[k + 1]);
    if ConfirmsKeygen(run[k].op, id) {
      assert ConfirmedSince(run, k, i, id);
    } else {
      PendingWasConfirmed(run, pending, k, id);
      var a: nat :| ConfirmedSince(run, a, k, id);
      assert ConfirmedSince(run, a, i, id);
    }
  }

  ghost function PendingOf(states: seq<State>): seq<set<KeygenId>> {
    seq(|states|, i requires 0 <= i < |states| => states[i].signer.pending.Keys)
  }

  lemma StepLeavesPending(w: World, s: State, step: Traces.Step, t: State)
    requires t == Next(w, s, step)
    ensures LeavesPending(step, s.signer.pending.Keys, t.signer.pending.Keys)
  {
    forall id | id in t.signer.pending.Keys
      ensures !Cancels(step) && !Finishes(step, id) && (ConfirmsKeygen(step.op, id) || id in s.signer.pending.Keys)
    {
      PendingStep(w, s, step, id);
    }
  }

  lemma RunsPendLawfully(w: World, run: seq<Traces.Step>, states: seq<State>)
    requires Ran(w, run, states)
    ensures PendingLawful(run, PendingOf(states))
  {
    var shares, names :| states[0] == Open(shares, names);
    BootHasNoCeremony(shares, names);
    forall i: nat | i < |run|
      ensures LeavesPending(run[i], PendingOf(states)[i], PendingOf(states)[i + 1])
    {
      assert StepOf(w, run, states, i);
      StepLeavesPending(w, states[i], run[i], states[i + 1]);
    }
  }
}
