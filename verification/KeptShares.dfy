/** Every share a run keeps, stages, stores and boots with is one a human said yes to, on the terms of that yes. */
module KeptShares {
  import opened Wrappers
  import opened Wire
  import opened AbSlots
  import opened Storage
  import opened Signers
  import opened ShareStores
  import opened SessionSpec
  import opened Steps
  import opened Consents
  import opened Runs
  import opened Durability
  import opened DurableRuns
  import opened LastingRuns
  import opened Ceremonies
  import opened Slots
  import opened Terms
  import opened SignerRuns
  import Traces

  /** Ceremony `id` was confirmed at step `a`, and since then neither again, nor finished, cancelled or cut off. */
  ghost predicate ConfirmedLast(run: seq<Traces.Step>, a: nat, i: nat, id: KeygenId)
    requires i <= |run|
  {
    && a < i && run[a].Called? && ConfirmsKeygen(run[a].op, id)
    && forall j: nat :: a < j < i ==>
         !Cancels(run[j]) && !Finishes(run[j], id) && !ConfirmsKeygen(run[j].op, id)
  }

  lemma ConfirmedLastIsPut(run: seq<Traces.Step>, states: seq<State>, a: nat, i: nat, id: KeygenId)
    requires |states| == |run| + 1 && i <= |run|
    ensures var touches := TouchesOf(run, states, SignerRuns.Confirmed(id));
      && (LastPut(touches, a, i) <==> ConfirmedLast(run, a, i, id))
      && (LastPut(touches, a, i) ==> touches[a].value == On(TermsOf(run[a].op).value))
  {
    var touches := TouchesOf(run, states, SignerRuns.Confirmed(id));
    forall m: nat | m < |run|
      ensures touches[m].Puts? <==> run[m].Called? && ConfirmsKeygen(run[m].op, id)
      ensures touches[m].Leaves? <==> !Cancels(run[m]) && !Finishes(run[m], id) && !ConfirmsKeygen(run[m].op, id)
    {
      assert touches[m] == TouchOf(states[m], run[m], SignerRuns.Confirmed(id));
    }
    if LastPut(touches, a, i) {
      assert ConfirmedLast(run, a, i, id);
    }
    if ConfirmedLast(run, a, i, id) {
      assert LastPut(touches, a, i);
    }
  }

  /** A ceremony waits to be finished exactly if it was so confirmed, and on the terms of that very yes. */
  lemma WaitsAsConfirmed(w: World, run: seq<Traces.Step>, states: seq<State>, i: nat, id: KeygenId)
    requires Ran(w, run, states) && i <= |run|
    ensures id in states[i].signer.pending <==> exists a: nat :: ConfirmedLast(run, a, i, id)
    ensures forall a: nat :: ConfirmedLast(run, a, i, id) ==>
      id in states[i].signer.pending && Some(TermsIn(states[i].signer.pending[id])) == TermsOf(run[a].op)
  {
    var slot := SignerRuns.Confirmed(id);
    var touches := TouchesOf(run, states, slot);
    RemembersTheLast(w, run, states, i, slot);
    forall a: nat
      ensures LastPut(touches, a, i) <==> ConfirmedLast(run, a, i, id)
      ensures LastPut(touches, a, i) ==> touches[a].value == On(TermsOf(run[a].op).value)
    {
      ConfirmedLastIsPut(run, states, a, i, id);
    }
  }

  /** Step `i` finishes a ceremony, or consents to a consolidation, on these terms. */
  ghost predicate KeepsOn(run: seq<Traces.Step>, i: nat, t: Terms)
    requires i < |run|
  {
    || (exists id, a: nat :: Finishes(run[i], id) && ConfirmedLast(run, a, i, id) && TermsOf(run[a].op) == Some(t))
    || (Confirms(run[i].op) && run[i].op.prompt.AskConsolidate? && TermsOf(run[i].op) == Some(t))
  }

  /** The share a step adds is on the terms consented to, and there is one exactly if there was such a consent. */
  predicate AddsOn(c: Option<CompleteShare>, t: Terms) {
    c.Some? && TermsIn(c.value) == t
  }

  lemma NewShareIsConsented(w: World, run: seq<Traces.Step>, states: seq<State>, i: nat, t: Terms)
    requires Ran(w, run, states) && i < |run|
    ensures AddsOn(NewShare(states[i], run[i].op), t) <==> KeepsOn(run, i, t)
  {
    var s, op := states[i], run[i].op;
    if op.OpRecv? && op.body.Core? && op.body.core.KeyGen? && op.body.core.keygen.Finalize? {
      var id := op.body.core.keygen.id;
      WaitsAsConfirmed(w, run, states, i, id);
      assert Finishes(run[i], id);
    }
  }

  // ---- held, staged and stored on those terms

  /** The share is held under its key, alone; the rest of the keys stay. */
  predicate HoldsOn(s: State, u: State, t: Terms) {
    u.signer.keys == s.signer.keys[t.ref.key := KeyOf(t.keyName, t)]
  }

  /** The share waits behind what was staged, or was written with nothing before it. */
  predicate StagedOrStored(s: State, step: Traces.Step, u: State, t: Terms) {
    || (Staged(u) == Staged(s) + Staging(t))
    || (Staged(u) == [] && Staged(s) == [] && StoredOn(s, step, u, t))
  }

  /** The readable record is of these terms, but for the torn tie. */
  predicate StoredOn(s: State, step: Traces.Step, u: State, t: Terms) {
    if TieGoesToTornCopy(s.shares, step.io.share) then Read(u.shares).Damaged?
    else Read(u.shares).Holds? && RecordsTerms(Read(u.shares).value, t)
  }

  /** The first copy of the write is made and goes through. */
  predicate WriteTakes(s: State, step: Traces.Step) {
    Staged(s) == [] && NextIndex(s.shares).Some? && step.io.share.first.Completes?
  }

  lemma NewShareMovesKeys(s: State, op: Op)
    requires NewShare(s, op).Some?
    ensures var c := NewShare(s, op).value;
      SignerOf(s, op).keys == s.signer.keys[c.ref.key := KeyOf(c.keyName, TermsIn(c))]
  {
    var c := NewShare(s, op).value;
    if op.OpRecv? {
      SavingMoves(s.signer.(pending := s.signer.pending - {op.body.core.keygen.id}), c);
    } else {
      SavingMoves(s.signer, c);
    }
  }

  lemma CompletedFirstPersists(s: State, c: CompleteShare, io: Io)
    requires Staged(s) == Triple(c) && NextIndex(s.shares).Some? && io.share.first.Completes?
    ensures PersistsWell(s, io)
  {
    RecordFromExactlyATriple(Staged(s));
  }

  lemma NewShareIsStored(w: World, s: State, step: Traces.Step, u: State, c: CompleteShare)
    requires step.Called? && u == Next(w, s, step) && NewShare(s, step.op) == Some(c)
    ensures StagedOrStored(s, step, u, TermsIn(c))
    ensures WriteTakes(s, step) ==> Staged(u) == []
  {
    var op, io := step.op, step.io;
    NewShareHasAQueue(s, op);
    var q := QueueOf(s, op).value;
    QueueStages(s, op);
    QueueKeepsFlash(s, op);
    TripleIsStaging(c);
    StagedAfterCall(w, s, op, io);
    if WriteTakes(s, step) {
      assert Staged(q.state) == Triple(c);
      CompletedFirstPersists(q.state, c, io);
    }
    if PersistsWell(q.state, io) {
      CallRuns(w, s, op, io);
      RunLeaves(w, q.state, q.sends, io);
      PersistReads(q.state, io);
      var d :| Staged(q.state) == Triple(d);
      assert |Staged(q.state)| == |Staged(s)| + 3;
      assert Staged(s) == [];
      OneShareATriple(d, c);
      RecordOfTerms(c);
    }
  }

  /**
   A ceremony finished, or a consolidation consented to, keeps a share on exactly the terms of the yes: held under
   its key at once; then stored so, or staged so behind what a refusal left.
   */
  lemma KeptAsConsented(w: World, run: seq<Traces.Step>, states: seq<State>, i: nat, t: Terms)
    requires Ran(w, run, states) && i < |run| && run[i].Called? && KeepsOn(run, i, t)
    ensures HoldsOn(states[i], states[i + 1], t) && StagedOrStored(states[i], run[i], states[i + 1], t)
    ensures WriteTakes(states[i], run[i]) ==> Staged(states[i + 1]) == []
  {
    var s, step, u := states[i], run[i], states[i + 1];
    assert StepOf(w, run, states, i);
    NewShareIsConsented(w, run, states, i, t);
    CallLeavesSigner(w, s, step.op, step.io);
    NewShareMovesKeys(s, step.op);
    NewShareIsStored(w, s, step, u, NewShare(s, step.op).value);
  }

  /** No other step moves a key: a call that adds no share keeps them all, and a cut leaves those of the record. */
  lemma KeysMoveOnlySo(w: World, s: State, step: Traces.Step, u: State)
    requires u == Next(w, s, step)
    ensures step.CutOff? ==> u.signer == Reloaded(u.shares)
    ensures step.Called? && NewShare(s, step.op).None? ==> u.signer.keys == s.signer.keys
  {
    if step.Called? && NewShare(s, step.op).None? {
      CallRuns(w, s, step.op, step.io);
      if QueueOf(s, step.op).Some? {
        var q := QueueOf(s, step.op).value;
        QueueStages(s, step.op);
        RunLeaves(w, q.state, q.sends, step.io);
      }
    }
  }

  // ---- what is on flash was consented to

  ghost predicate ConsentedBefore(run: seq<Traces.Step>, i: nat, t: Terms)
    requires i <= |run|
  {
    exists e: nat :: e < i && KeepsOn(run, e, t)
  }

  /** A queue that holds one triple holds the one that was staged, or the one this call adds. */
  lemma QueuedTripleIs(s: State, op: Op, c: CompleteShare)
    requires QueueOf(s, op).Some? && Staged(QueueOf(s, op).value.state) == Triple(c)
    ensures Staged(s) == Triple(c) || NewShare(s, op) == Some(c)
  {
    QueueStages(s, op);
    if NewShare(s, op).Some? {
      assert |Staged(QueueOf(s, op).value.state)| == |Staged(s)| + 3;
      assert Staged(s) == [];
      OneShareATriple(c, NewShare(s, op).value);
    }
  }

  lemma StagedStep(w: World, s: State, step: Traces.Step, u: State, c: CompleteShare)
    requires u == Next(w, s, step) && Staged(u) == Triple(c)
    ensures Staged(s) == Triple(c) || NewShare(s, step.op) == Some(c)
  {
    if step.CutOff? {
      BootStagesNothing(u);
    } else {
      StagedAfterCall(w, s, step.op, step.io);
      if QueueOf(s, step.op).Some? {
        QueuedTripleIs(s, step.op, c);
      }
    }
  }

  /** A staged triple was staged before the step, or is what the step adds. */
  lemma StagedInRun(w: World, run: seq<Traces.Step>, states: seq<State>, k: nat, i: nat, c: CompleteShare)
    requires Ran(w, run, states) && k < |run| && i == k + 1 && Staged(states[i]) == Triple(c)
    ensures Staged(states[k]) == Triple(c) || KeepsOn(run, k, TermsIn(c))
  {
    var s, step, u := states[k], run[k], states[i];
    assert StepOf(w, run, states, k);
    StagedStep(w, s, step, u, c);
    if Staged(s) != Triple(c) {
      NewShareIsConsented(w, run, states, k, TermsIn(c));
    }
  }

  lemma {:induction false} StagedWasConsented(w: World, run: seq<Traces.Step>, states: seq<State>, i: nat,
                                              c: CompleteShare)
    requires Ran(w, run, states) && i <= |run| && Staged(states[i]) == Triple(c)
    ensures ConsentedBefore(run, i, TermsIn(c))
  {
    if i == 0 {
      BootStagesNothing(states[0]);
    } else {
      var k := i - 1;
      StagedInRun(w, run, states, k, i, c);
      if KeepsOn(run, k, TermsIn(c)) {
        assert ConsentedBefore(run, i, TermsIn(c));
      } else {
        StagedWasConsented(w, run, states, k, c);
        StillConsented(run, k, i, TermsIn(c));
      }
    }
  }

  lemma StillConsented(run: seq<Traces.Step>, k: nat, i: nat, t: Terms)
    requires k <= i <= |run| && ConsentedBefore(run, k, t)
    ensures ConsentedBefore(run, i, t)
  {
  }

  lemma WrittenWasConsented(w: World, run: seq<Traces.Step>, states: seq<State>, i: nat, c: CompleteShare)
    requires Ran(w, run, states) && i < |run| && WritesShare(states[i], run[i], c)
    ensures ConsentedBefore(run, i + 1, TermsIn(c))
  {
    QueuedTripleIs(states[i], run[i].op, c);
    if Staged(states[i]) == Triple(c) {
      StagedWasConsented(w, run, states, i, c);
    } else {
      NewShareIsConsented(w, run, states, i, TermsIn(c));
    }
  }

  /** The cells read as nothing a boot can use, or as a record on terms consented to before. */
  ghost predicate OnConsent(run: seq<Traces.Step>, b: nat, cells: Cells<ShareRecord>)
    requires b <= |run|
  {
    Read(cells).Holds? ==> exists t :: ConsentedBefore(run, b, t) && RecordsTerms(Read(cells).value, t)
  }

  /** Once a step has programmed an index, what is readable on flash is on the terms of an earlier yes. */
  lemma RecordIsConsented(w: World, run: seq<Traces.Step>, states: seq<State>, b: nat)
    requires Ran(w, run, states) && b <= |run|
    ensures if Unmarked(Programmed(run, states), 0, b) then Read(states[b].shares) == Read(states[0].shares)
            else OnConsent(run, b, states[b].shares)
  {
    var marks := Programmed(run, states);
    NoneOrALast(marks, 0, b);
    if Unmarked(marks, 0, b) {
      UnprogrammedKeeps(w, run, states, 0, b);
    } else {
      var m: nat :| LastMark(marks, 0, b, m);
      LastWriteReads(w, run, states, m, b);
    }
  }

  lemma LastWriteReads(w: World, run: seq<Traces.Step>, states: seq<State>, m: nat, b: nat)
    requires Ran(w, run, states) && b <= |run| && LastMark(Programmed(run, states), 0, b, m)
    ensures OnConsent(run, b, states[b].shares)
  {
    var s, step, u := states[m], run[m], states[m + 1];
    assert StepOf(w, run, states, m);
    UnprogrammedKeeps(w, run, states, m + 1, b);
    if Read(u.shares).Holds? {
      ProgrammedReads(w, s, step, u);
      var c :| WritesShare(s, step, c) && Read(u.shares) == Holds(RecordOfShare(c));
      WrittenWasConsented(w, run, states, m, c);
      OnTheseTerms(run, m + 1, b, states[b].shares, c);
    }
  }

  lemma ProgrammedReads(w: World, s: State, step: Traces.Step, u: State)
    requires u == Next(w, s, step) && Programs(s, step) && Read(u.shares).Holds?
    ensures exists c :: WritesShare(s, step, c) && Read(u.shares) == Holds(RecordOfShare(c))
  {
    StepReads(w, s, step, u);
    var c :| WritesShare(s, step, c);
  }

  lemma OnTheseTerms(run: seq<Traces.Step>, i: nat, b: nat, cells: Cells<ShareRecord>, c: CompleteShare)
    requires i <= b <= |run| && ConsentedBefore(run, i, TermsIn(c)) && Read(cells) == Holds(RecordOfShare(c))
    ensures OnConsent(run, b, cells)
  {
    RecordOfTerms(c);
    assert ConsentedBefore(run, b, TermsIn(c));
  }

  ghost predicate BootsOnConsent(run: seq<Traces.Step>, b: nat, cells: Cells<ShareRecord>)
    requires b <= |run|
  {
    Reloaded(cells).keys == map[] || exists t :: ConsentedBefore(run, b, t) && BootKnows(cells, t)
  }

  /** So no boot of a run ever knows a key but on the terms of a yes, or as the flash the run began with had it. */
  lemma BootIsConsented(w: World, run: seq<Traces.Step>, states: seq<State>, b: nat)
    requires Ran(w, run, states) && b <= |run|
    ensures if Unmarked(Programmed(run, states), 0, b)
            then Reloaded(states[b].shares) == Reloaded(states[0].shares)
            else BootsOnConsent(run, b, states[b].shares)
  {
    RecordIsConsented(w, run, states, b);
    BootIs(states[b].shares);
    if !Unmarked(Programmed(run, states), 0, b) && Read(states[b].shares).Holds? {
      var t :| ConsentedBefore(run, b, t) && RecordsTerms(Read(states[b].shares).value, t);
      RecordedTermsBoot(states[b].shares, t);
    }
  }

  /** A later boot that holds the share of these terms: on these very terms, or on those it was stored on again. */
  ghost predicate BootKnowsStill(run: seq<Traces.Step>, states: seq<State>, a: nat, b: nat, t: Terms)
    requires |states| == |run| + 1 && b <= |run|
  {
    if Unmarked(Programmed(run, states), a, b) then BootKnows(states[b].shares, t)
    else exists again: Terms :: ConsentedBefore(run, b, again) && BootKnows(states[b].shares, again)
           && again.ref == t.ref && again.image == t.image && again.ciphertext == t.ciphertext
  }

  /**
   Once stored, a share's key keeps its purpose, its threshold and its name cut to fifteen characters through every
   later boot that holds the share, unless a human consented to keeping that same share again.
   */
  lemma StoredTermsLast(w: World, run: seq<Traces.Step>, states: seq<State>, a: nat, b: nat, t: Terms)
    requires Ran(w, run, states) && a <= b <= |run|
    requires Read(states[a].shares).Holds? && RecordsTerms(Read(states[a].shares).value, t)
    ensures ShareAt(Reloaded(states[b].shares), t.ref, t.image.index) == Some(EncryptedShare(t.image, t.ciphertext))
        ==> BootKnowsStill(run, states, a, b, t)
  {
    var marks, u := Programmed(run, states), states[b];
    var share := EncryptedShare(t.image, t.ciphertext);
    if Unmarked(marks, a, b) {
      UnprogrammedKeeps(w, run, states, a, b);
      RecordedTermsBoot(u.shares, t);
    } else if ShareAt(Reloaded(u.shares), t.ref, t.image.index) == Some(share) {
      assert !Unmarked(marks, 0, b);
      RecordIsConsented(w, run, states, b);
      BootHoldsOnlyTheRecord(u.shares, t.ref, t.image.index);
      RecordHeldIs(u.shares, t.ref, share);
      var again :| ConsentedBefore(run, b, again) && RecordsTerms(Read(u.shares).value, again);
      RecordedTermsBoot(u.shares, again);
    }
  }

  lemma RecordHeldIs(cells: Cells<ShareRecord>, ref: AccessRef, share: EncryptedShare)
    requires ShareAt(Reloaded(cells), ref, share.image.index) == Some(share)
    ensures Read(cells).Holds? && Read(cells).value.ref == ref && Read(cells).value.share == share
  {
    BootIs(cells);
  }
}
