/** What is staged, held and stored over whole runs, and the two ways an answer outruns the flash. */
module DurableRuns {
  import opened Wrappers
  import opened Wire
  import opened AbSlots
  import opened Storage
  import opened Signers
  import opened ShareStores
  import opened SessionSpec
  import opened Steps
  import opened Consents
  import opened Traces
  import opened Replies
  import opened Writes
  import opened Runs
  import opened Durability

  /** The share a call adds: a confirmed ceremony finished, or a consented consolidation. */
  function NewShare(s: State, op: Op): Option<CompleteShare> {
    if op.OpRecv? && op.body.Core? && op.body.core.KeyGen? && op.body.core.keygen.Finalize?
       && op.body.core.keygen.id in s.signer.pending
    then Some(s.signer.pending[op.body.core.keygen.id])
    else if Confirms(op) && op.prompt.AskConsolidate?
    then Some(Consolidated(op.prompt.consolidation, op.choice.ciphertext))
    else None
  }

  lemma Reassociated(a: seq<Mutation>, b: seq<Mutation>, c: seq<Mutation>)
    ensures a + (b + c) == (a + b) + c
    ensures [] + b == b
  {
  }

  lemma {:induction false} Unmixed(a: seq<Mutation>, b: seq<Mutation>)
    ensures WithoutRestorations(a + b) == WithoutRestorations(a) + WithoutRestorations(b)
  {
    if a == [] {
      assert a + b == b;
    } else {
      var first := if a[0].Restoration? then [] else [a[0]];
      Unmixed(a[1..], b);
      Reassociated(first, WithoutRestorations(a[1..]), WithoutRestorations(b));
      assert (a + b)[0] == a[0] && (a + b)[1..] == a[1..] + b;
    }
  }

  lemma {:induction false} NoneToDrop(a: seq<Mutation>)
    requires forall m :: m in a ==> !m.Restoration?
    ensures WithoutRestorations(a) == a
  {
    if a != [] {
      assert a[0] in a;
      NoneToDrop(a[1..]);
      assert a == [a[0]] + a[1..];
    }
  }

  /** What was kept once is kept again. */
  lemma KeptStay(staged: seq<Mutation>)
    ensures WithoutRestorations(WithoutRestorations(staged)) == WithoutRestorations(staged)
  {
    forall m | m in WithoutRestorations(staged)
      ensures !m.Restoration?
    {
      OnlyRestorationsAreDropped(staged, m);
    }
    NoneToDrop(WithoutRestorations(staged));
  }

  predicate Holding(signer: Signer, c: CompleteShare) {
    ShareAt(signer, c.ref, c.share.image.index) == Some(c.share)
  }

  lemma SavingStages(s: Signer, c: CompleteShare)
    ensures WithoutRestorations(SaveCompleteShare(s, c).staged) == WithoutRestorations(s.staged) + Triple(c)
    ensures Holding(SaveCompleteShare(s, c), c)
  {
    SavingStagesTheTriple(s, c);
    TripleHolds(s, c);
    Unmixed(s.staged, Triple(c));
    NoneToDrop(Triple(c));
  }

  /** A typed-in share is staged, but never for the flash. */
  lemma TypedStages(s: Signer, image: ShareImage)
    ensures var t := SaveTyped(s, image).signer;
      WithoutRestorations(t.staged) == WithoutRestorations(s.staged) && t.keys == s.keys
  {
    Unmixed(s.staged, [Restoration(image)]);
    assert WithoutRestorations([Restoration(image)]) == [];
  }

  lemma RestorationStages(s: Signer, r: Wire.Restoration)
    ensures var t := ReceiveRestoration(s, r).signer;
      WithoutRestorations(t.staged) == WithoutRestorations(s.staged) && t.keys == s.keys
  {
    match r {
      case SavePhysicalBackup(image) => TypedStages(s, image);
      case SavePhysicalBackup2(image) => TypedStages(s, image);
      case _ =>
    }
  }

  lemma MessageStages(s: Signer, core: CoreMessage)
    requires !core.VerifyAddress? && !(core.KeyGen? && core.keygen.Finalize?)
    ensures var t := Receive(s, core).signer;
      WithoutRestorations(t.staged) == WithoutRestorations(s.staged) && t.keys == s.keys
  {
    match core {
      case Restore(r) => RestorationStages(s, r);
      case _ =>
    }
  }

  /** A call's queue has staged what was staged, and its new share's triple after it. */
  lemma QueueStages(s: State, op: Op)
    requires QueueOf(s, op).Some?
    ensures var t := QueueOf(s, op).value.state;
      match NewShare(s, op)
      case None => Staged(t) == Staged(s) && t.signer.keys == s.signer.keys
      case Some(c) => Staged(t) == Staged(s) + Triple(c) && Holding(t.signer, c)
  {
    if NewShare(s, op).Some? {
      var signer := if op.OpRecv? then s.signer.(pending := s.signer.pending - {op.body.core.keygen.id}) else s.signer;
      SavingStages(signer, NewShare(s, op).value);
    } else if op.OpRecv? && !op.body.core.VerifyAddress? {
      MessageStages(s.signer, op.body.core);
    }
  }

  lemma {:induction false} DrainKeepsSigner(w: World, s: State, work: seq<Send>, prompts: seq<Prompt>, io: Io)
    ensures var t := Drain(w, s, work, prompts, io).post;
      t.signer == s.signer && t.shares == s.shares && t.acked == s.acked
    decreases |work|
  {
    if work != [] {
      var h := Handle(w, s, work[0], prompts, io);
      if Commits(work[0]) {
        CommitSpends(w, s, io);
      } else {
        HandleQuiet(w, s, work[0], prompts, io);
      }
      if h.result.Success? {
        DrainKeepsSigner(w, h.post, work[1..], h.result.value, io);
      }
    }
  }

  lemma RunLeaves(w: World, s: State, sends: seq<Send>, io: Io)
    ensures var t := Run(w, s, sends, io).post;
      t.signer == Persisting(s, io).signer && t.shares == Persisting(s, io).shares && t.acked == s.acked
  {
    if PersistsWell(s, io) {
      DrainKeepsSigner(w, Persisting(s, io), sends, [], io);
    }
  }

  // ---- what is on flash is held

  predicate RecordHeld(signer: Signer, r: ShareRecord) {
    ShareAt(signer, r.ref, r.share.image.index) == Some(r.share)
  }

  /** A key is staged anew, which empties what was held under it. */
  predicate StagesKey(staged: seq<Mutation>, key: KeyId) {
    exists m :: m in staged && m.NewKey? && m.key == key
  }

  /** The record on flash is held, unless its key is staged anew; with one ceremony staged, its share is. */
  ghost predicate Stored(s: State) {
    && (Read(s.shares).Holds? ==>
          RecordHeld(s.signer, Read(s.shares).value) || StagesKey(Staged(s), Read(s.shares).value.ref.key))
    && forall c :: Staged(s) == Triple(c) ==> Holding(s.signer, c)
  }

  lemma BootStored(shares: Cells<ShareRecord>, names: Cells<NameRecord>)
    ensures Stored(Open(shares, names)) && Open(shares, names).signer.staged == []
  {
    if Read(shares).Holds? {
      var r := Read(shares).value;
      var c := CompleteShare(r.keyName, r.purpose, r.ref, r.threshold, r.share);
      assert Mutations(r) == Triple(c);
      TripleHolds(BLANK_SIGNER, c);
    }
  }

  /** Persisting keeps the link between what is staged, held and stored. */
  lemma PersistKeepsStored(s: State, io: Io)
    requires Stored(s)
    ensures Stored(Persisting(s, io))
    ensures Staged(Persisting(s, io)) == if PersistsWell(s, io) then [] else Staged(s)
  {
    if PersistsWell(s, io) {
      PersistReads(s, io);
      if Staged(s) != [] {
        PersistedIsStored(s, Persisting(s, io), io);
      }
    } else {
      RefusedReads(s, io);
      RefusedIsStored(s, Persisting(s, io));
    }
  }

  /** A refused persist takes nothing off the queue and stores nothing else. */
  lemma RefusedReads(s: State, io: Io)
    requires !PersistsWell(s, io)
    ensures var t := Persisting(s, io);
      Staged(t) == Staged(s) && Read(t.shares) in {Damaged, Read(s.shares)}
  {
    var kept := WithoutRestorations(s.signer.staged);
    KeptStay(s.signer.staged);
    match RecordFrom(kept) {
      case Failure(_) =>
      case Success(record) => RefusedKeepsOldIffIndexUnwritten(s.shares, record, io.share);
    }
  }

  lemma RefusedIsStored(s: State, t: State)
    requires Stored(s) && Staged(t) == Staged(s) && t.signer == s.signer.(staged := t.signer.staged)
    requires Read(t.shares) in {Damaged, Read(s.shares)}
    ensures Stored(t)
  {
  }

  lemma PersistedIsStored(s: State, t: State, io: Io)
    requires Stored(s) && Staged(t) == [] && t.signer == s.signer.(staged := t.signer.staged)
    requires exists c :: Staged(s) == Triple(c)
    requires forall c :: Staged(s) == Triple(c) && Read(t.shares).Holds? ==> Read(t.shares).value == RecordOfShare(c)
    ensures Stored(t)
  {
    var c :| Staged(s) == Triple(c);
    assert Holding(t.signer, c);
  }

  lemma CallKeepsStored(w: World, s: State, op: Op, io: Io)
    requires Stored(s)
    ensures Stored(Exec(w, s, op, io).post)
  {
    CallRuns(w, s, op, io);
    if QueueOf(s, op).Some? {
      var q := QueueOf(s, op).value;
      QueueKeepsStored(s, op);
      PersistKeepsStored(q.state, io);
      RunLeaves(w, q.state, q.sends, io);
    }
  }

  lemma OneShareATriple(c: CompleteShare, d: CompleteShare)
    requires [] + Triple(d) == Triple(c)
    ensures c == d
  {
    assert Triple(d) == Triple(c);
    assert Triple(d)[0] == Triple(c)[0] && Triple(d)[1] == Triple(c)[1] && Triple(d)[2] == Triple(c)[2];
  }

  lemma QueueKeepsStored(s: State, op: Op)
    requires Stored(s) && QueueOf(s, op).Some?
    ensures Stored(QueueOf(s, op).value.state)
  {
    QueueKeepsFlash(s, op);
    QueueStages(s, op);
    forall c | Staged(QueueOf(s, op).value.state) == Triple(c)
      ensures Holding(QueueOf(s, op).value.state.signer, c)
    {
      if NewShare(s, op).Some? {
        assert Staged(s) == [];
        OneShareATriple(c, NewShare(s, op).value);
      }
    }
    if NewShare(s, op).Some? && Read(s.shares).Holds? {
      var t, c, r := QueueOf(s, op).value.state, NewShare(s, op).value, Read(s.shares).value;
      if r.ref.key == c.ref.key {
        var first := NewKey(c.ref.key, c.keyName, c.purpose);
        assert Staged(t)[|Staged(s)|] == Triple(c)[0] == first;
        assert first in Staged(t);
      } else if StagesKey(Staged(s), r.ref.key) {
        var m :| m in Staged(s) && m.NewKey? && m.key == r.ref.key;
        assert m in Staged(t);
      } else {
        NewShareLeavesOtherKeys(s, op, r.ref, r.share.image.index);
      }
    }
  }

  lemma NewShareLeavesOtherKeys(s: State, op: Op, ref: AccessRef, index: ShareIndex)
    requires QueueOf(s, op).Some? && NewShare(s, op).Some? && ref.key != NewShare(s, op).value.ref.key
    ensures ShareAt(QueueOf(s, op).value.state.signer, ref, index) == ShareAt(s.signer, ref, index)
  {
    var c := NewShare(s, op).value;
    var signer := if op.OpRecv? then s.signer.(pending := s.signer.pending - {op.body.core.keygen.id}) else s.signer;
    SavingStagesTheTriple(signer, c);
    OtherKeysStay(signer, c, ref, index);
    assert QueueOf(s, op).value.state.signer == SaveCompleteShare(signer, c);
    assert ShareAt(Replay(signer, Triple(c)), ref, index) == ShareAt(s.signer, ref, index);
  }

  lemma StepKeepsStored(w: World, s: State, step: Traces.Step, t: State)
    requires Stored(s) && t == Next(w, s, step)
    ensures Stored(t)
  {
    if step.Called? {
      CallKeepsStored(w, s, step.op, step.io);
    } else {
      BootStored(SharesAfter(s.shares, Fx(w, s, step)), NamesAfter(s.names, Fx(w, s, step)));
    }
  }

  /** In every reachable state the session holds whatever the next boot would, unless its key is staged anew. */
  lemma {:induction false} FlashIsHeld(w: World, run: seq<Traces.Step>, states: seq<State>, i: nat)
    requires Ran(w, run, states) && i <= |run|
    ensures Stored(states[i])
  {
    if i == 0 {
      var shares, names :| states[0] == Open(shares, names);
      BootStored(shares, names);
    } else {
      FlashIsHeld(w, run, states, i - 1);
      assert StepOf(w, run, states, i - 1);
      StepKeepsStored(w, states[i - 1], run[i - 1], states[i]);
    }
  }

  // ---- acknowledgements

  /** The one reply of a consented consolidation. */
  lemma ConsolidationSays(w: World, s: State, op: Op, io: Io, k: nat)
    requires Confirms(op) && op.prompt.AskConsolidate?
    requires k < |Exec(w, s, op, io).fx| && Exec(w, s, op, io).fx[k].Sent?
    ensures QueueOf(s, op).Some?
    ensures Staged(QueueOf(s, op).value.state) == Triple(Consolidated(op.prompt.consolidation, op.choice.ciphertext))
    ensures Staged(s) == []
  {
    var c := Consolidated(op.prompt.consolidation, op.choice.ciphertext);
    QueueStages(s, op);
    OnlyWholeCeremoniesAreAnswered(w, s, op, io, k);
    var staged := Staged(QueueOf(s, op).value.state);
    assert |staged| == |Staged(s)| + 3;
    var c' :| staged == Triple(c');
    assert Staged(s) == [];
    assert staged == Triple(c);
  }

  /** A consented consolidation is acknowledged only with its share on flash, whenever the power is cut after. */
  lemma ConsolidationAckIsDurable(w: World, s: State, op: Op, io: Io, k: nat, n: nat)
    requires Confirms(op) && op.prompt.AskConsolidate?
    requires k < n <= |Exec(w, s, op, io).fx| && Exec(w, s, op, io).fx[k].Sent?
    ensures var boot := BootAfter(s, Exec(w, s, op, io).fx[..n]);
      if TieGoesToTornCopy(s.shares, io.share) then HeldBy(boot) == {}
      else HoldsOnly(boot, Consolidated(op.prompt.consolidation, op.choice.ciphertext))
  {
    ConsolidationSays(w, s, op, io, k);
    AnswerMeansDurable(w, s, op, io, k, n, Consolidated(op.prompt.consolidation, op.choice.ciphertext));
  }

  // ---- two ceremonies staged at once

  /** A second share behind a refused one, and from then on nothing is stored or answered until the power goes. */
  lemma SecondCeremonyWedges(w: World, s: State, op: Op, io: Io)
    requires QueueOf(s, op).Some?
    requires (Staged(s) != [] && NewShare(s, op).Some?) || |Staged(s)| > 3
    ensures |Staged(Exec(w, s, op, io).post)| > 3
    ensures Exec(w, s, op, io).fx == [] && Exec(w, s, op, io).post.shares == s.shares
  {
    var q := QueueOf(s, op).value;
    CallRuns(w, s, op, io);
    QueueKeepsFlash(s, op);
    QueueStages(s, op);
    assert |Staged(q.state)| > 3;
    KeptStay(q.state.signer.staged);
  }

  /** A call that finishes a ceremony while something is still staged. */
  predicate FinishesBehind(s: State, op: Op) {
    NewShare(s, op).Some? && Staged(s) != []
  }

  lemma NewShareHasAQueue(s: State, op: Op)
    requires NewShare(s, op).Some?
    ensures QueueOf(s, op).Some?
  {
  }

  /** What is staged after a call: nothing once its queue persisted, and otherwise what was, with its new share. */
  lemma StagedAfterCall(w: World, s: State, op: Op, io: Io)
    ensures var t := Exec(w, s, op, io).post;
      if QueueOf(s, op).None? then Staged(t) == Staged(s)
      else if PersistsWell(QueueOf(s, op).value.state, io) then Staged(t) == []
      else Staged(t) == Staged(QueueOf(s, op).value.state) != []
  {
    CallRuns(w, s, op, io);
    if QueueOf(s, op).Some? {
      var q := QueueOf(s, op).value;
      RunLeaves(w, q.state, q.sends, io);
      if PersistsWell(q.state, io) {
        PersistReads(q.state, io);
      } else {
        KeptStay(q.state.signer.staged);
      }
    }
  }

  /** A call wedges a session exactly by finishing a ceremony behind one still staged. */
  lemma WedgesIff(w: World, s: State, op: Op, io: Io)
    requires |Staged(s)| <= 3
    ensures |Staged(Exec(w, s, op, io).post)| > 3 <==> FinishesBehind(s, op)
  {
    StagedAfterCall(w, s, op, io);
    if NewShare(s, op).Some? {
      NewShareHasAQueue(s, op);
    }
    if QueueOf(s, op).Some? {
      QueueStages(s, op);
      if FinishesBehind(s, op) {
        SecondCeremonyWedges(w, s, op, io);
      }
    }
  }

  /** Calls without a queue do not unwedge it, a cancel among them. */
  lemma WedgedStays(w: World, s: State, op: Op, io: Io)
    requires |Staged(s)| > 3
    ensures |Staged(Exec(w, s, op, io).post)| > 3 && Exec(w, s, op, io).post.shares == s.shares
    ensures QueueOf(s, op).Some? ==> Exec(w, s, op, io).fx == []
  {
    CallRuns(w, s, op, io);
    if QueueOf(s, op).Some? {
      SecondCeremonyWedges(w, s, op, io);
    }
  }

  // ---- answers that outrun the flash

  /**
   The keygen acknowledgement goes out with its own share staged nowhere: a boot after it holds what an earlier
   ceremony left on flash, or in the queue this very call persisted, and nothing of this one.
   */
  lemma KeygenAckPrecedesItsShare(w: World, s: State, op: Op, io: Io)
    requires Confirms(op) && op.prompt.CheckKeyGen?
    ensures var fx := Exec(w, s, op, io).fx;
      var ack := FromCore(KeygenAck(op.prompt.keygen.id, op.prompt.keygen.sessionHash));
      fx == Written(s, io) + (if PersistsWell(s, io) && w.encode[ack].Success? then [Sent(ack)] else [])
    ensures forall n :: 0 <= n <= |Exec(w, s, op, io).fx| && SentBefore(Exec(w, s, op, io).fx, n) ==>
      BootAfter(s, Exec(w, s, op, io).fx[..n]) == Reloaded(Persisting(s, io).shares)
  {
    var q := QueueOf(s, op).value;
    var message := KeygenAck(op.prompt.keygen.id, op.prompt.keygen.sessionHash);
    CallRuns(w, s, op, io);
    assert q.sends == [ToCoordinator(message)];
    OneReplyAfterWriting(w, q.state, message, io);
    SameStaged(s, q.state, io);
    forall n | 0 <= n <= |Exec(w, s, op, io).fx| && SentBefore(Exec(w, s, op, io).fx, n)
      ensures BootAfter(s, Exec(w, s, op, io).fx[..n]) == Reloaded(Persisting(s, io).shares)
    {
      var k :| 0 <= k < n && Exec(w, s, op, io).fx[k].Sent?;
      SentAfterPersist(w, q.state, q.sends, io, k, n);
    }
  }

  /** What a call with this staged writes before it says anything. */
  function Written(s: State, io: Io): seq<Effect> {
    ShareEach(Persist(s.shares, s.signer.staged, io.share).steps)
  }

  predicate SentBefore(fx: seq<Effect>, n: int) {
    exists k :: 0 <= k < n <= |fx| && fx[k].Sent?
  }

  /** Persisting looks at the staged set and the cells, and at nothing else. */
  lemma SameStaged(s: State, t: State, io: Io)
    requires t.shares == s.shares && t.signer.staged == s.signer.staged
    ensures Written(t, io) == Written(s, io) && Persisting(t, io).shares == Persisting(s, io).shares
    ensures PersistsWell(t, io) == PersistsWell(s, io)
  {
  }

  /** A queue of one reply is that reply, once what was staged is on flash. */
  lemma OneReplyAfterWriting(w: World, s: State, message: DeviceMessage, io: Io)
    requires !message.NonceResponse?
    ensures var body := FromCore(message);
      Run(w, s, [ToCoordinator(message)], io).fx
        == Written(s, io) + (if PersistsWell(s, io) && w.encode[body].Success? then [Sent(body)] else [])
  {
    var body, work := FromCore(message), [ToCoordinator(message)];
    if PersistsWell(s, io) {
      var t := Persisting(s, io);
      PushWhole<seq<Prompt>>(w, t, body, []);
      assert work[1..] == [];
      var h := Handle(w, t, work[0], [], io);
      assert h.fx + [] == h.fx;
      assert Drain(w, t, work, [], io).fx == h.fx;
    } else {
      assert Written(s, io) + [] == Written(s, io);
    }
  }

  lemma NothingToWrite(s: State, io: Io)
    requires Staged(s) == []
    ensures Written(s, io) == [] && PersistsWell(s, io) && Persisting(s, io).shares == s.shares
  {
  }

  /** With nothing staged, a queue of one reply is that reply. */
  lemma NothingStagedOneReply(w: World, s: State, message: DeviceMessage, io: Io)
    requires Staged(s) == [] && !message.NonceResponse?
    ensures var o := Run(w, s, [ToCoordinator(message)], io);
      && o.fx == (if w.encode[FromCore(message)].Success? then [Sent(FromCore(message))] else [])
      && o.post.shares == s.shares
  {
    OneReplyAfterWriting(w, s, message, io);
    RunLeaves(w, s, [ToCoordinator(message)], io);
  }

  /** The next boot holds a share exactly when it is the one on record. */
  lemma BootHoldsOnlyTheRecord(cells: Cells<ShareRecord>, ref: AccessRef, index: ShareIndex)
    ensures ShareAt(Reloaded(cells), ref, index).Some? <==>
      Read(cells).Holds? && Read(cells).value.ref == ref && Read(cells).value.share.image.index == index
  {
    if Read(cells).Holds? {
      var r := Read(cells).value;
      var c := CompleteShare(r.keyName, r.purpose, r.ref, r.threshold, r.share);
      assert Mutations(r) == Triple(c);
      TripleHolds(BLANK_SIGNER, c);
    }
  }

  /**
   A consolidation of a share the session already holds is acknowledged from memory, with no human, once whatever
   was still staged is on flash. Cut the power anywhere after it: the next boot has that share exactly when it is
   the one record the flash then keeps.
   */
  lemma ReacknowledgedIsDurableIffOnRecord(w: World, s: State, io: Io, r: Wire.Restoration, n: nat)
    requires r.Consolidate?
    ensures var fx := Exec(w, s, OpRecv(Core(Restore(r))), io).fx;
      var ack := FromCore(FinishedConsolidation(r.ref, r.image.index));
      r.image !in s.signer.saved && r.image !in s.signer.loaded ==>
      fx == if ShareAt(s.signer, r.ref, r.image.index).None? then []
            else Written(s, io) + (if PersistsWell(s, io) && w.encode[ack].Success? then [Sent(ack)] else [])
    ensures var fx := Exec(w, s, OpRecv(Core(Restore(r))), io).fx; var kept := Read(Persisting(s, io).shares);
      n <= |fx| && SentBefore(fx, n) ==>
        (ShareAt(BootAfter(s, fx[..n]), r.ref, r.image.index).Some? <==>
           kept.Holds? && kept.value.ref == r.ref && kept.value.share.image.index == r.image.index)
  {
    var op := OpRecv(Core(Restore(r)));
    var message := FinishedConsolidation(r.ref, r.image.index);
    CallRuns(w, s, op, io);
    if r.image in s.signer.saved || r.image in s.signer.loaded {
      TypedShareIsAskedAbout(w, s, io, r);
    } else if ShareAt(s.signer, r.ref, r.image.index).Some? {
      assert QueueOf(s, op) == Some(Queue(s, [ToCoordinator(message)]));
      OneReplyAfterWriting(w, s, message, io);
      var fx := Exec(w, s, op, io).fx;
      if n <= |fx| && SentBefore(fx, n) {
        var k :| 0 <= k < n <= |fx| && fx[k].Sent?;
        SentAfterPersist(w, s, [ToCoordinator(message)], io, k, n);
        BootHoldsOnlyTheRecord(Persisting(s, io).shares, r.ref, r.image.index);
      }
    } else {
      MessageRuns(w, s, Restore(r), io);
    }
  }

  /** A share typed in and not yet consolidated is asked about, and nothing is sent. */
  lemma TypedShareIsAskedAbout(w: World, s: State, io: Io, r: Wire.Restoration)
    requires r.Consolidate? && (r.image in s.signer.saved || r.image in s.signer.loaded)
    ensures forall e :: e in Exec(w, s, OpRecv(Core(Restore(r))), io).fx ==> !e.Sent?
  {
    forall e | e in Exec(w, s, OpRecv(Core(Restore(r))), io).fx
      ensures !e.Sent?
    {
      var answer := ReceiveRestoration(s.signer, r);
      MessageRuns(w, s, Restore(r), io);
      if answer.sends.Success? {
        RunQuietSources(w, s.(signer := answer.signer), answer.sends.value, io, e);
      }
    }
  }

  const ALL_COMPLETES := Io(WritePlan(Completes, Completes), WritePlan(Completes, Completes))

  /** A consented consolidation with nothing staged and a sound flash. */
  lemma ConsolidationLeaves(w: World, s: State, op: Op, t: State)
    requires Confirms(op) && op.prompt.AskConsolidate? && Staged(s) == [] && NextIndex(s.shares).Some?
    requires t == Exec(w, s, op, ALL_COMPLETES).post
    ensures var c := Consolidated(op.prompt.consolidation, op.choice.ciphertext);
      var copy := Good(NextIndex(s.shares).value, RecordOfShare(c));
      && Staged(t) == [] && t.shares == Cells(copy, copy)
      && t.signer == Replay(s.signer, Triple(c)).(staged := [])
  {
    var c := Consolidated(op.prompt.consolidation, op.choice.ciphertext);
    var q := QueueOf(s, op).value;
    CallRuns(w, s, op, ALL_COMPLETES);
    SavingStages(s.signer, c);
    SavingStagesTheTriple(s.signer, c);
    RunLeaves(w, q.state, q.sends, ALL_COMPLETES);
    TriplePersists(q.state, c);
  }

  lemma TriplePersists(s: State, c: CompleteShare)
    requires Staged(s) == Triple(c) && NextIndex(s.shares).Some?
    ensures var t := Persisting(s, ALL_COMPLETES); var copy := Good(NextIndex(s.shares).value, RecordOfShare(c));
      t.shares == Cells(copy, copy) && t.signer == s.signer.(staged := [])
  {
    RecordFromExactlyATriple(Staged(s));
    CompleteWrite(s.shares, RecordOfShare(c));
  }

  /** A share under one key survives a ceremony under another. */
  lemma OtherKeysStay(s: Signer, c: CompleteShare, ref: AccessRef, index: ShareIndex)
    requires ref.key != c.ref.key
    ensures ShareAt(Replay(s, Triple(c)), ref, index) == ShareAt(s, ref, index)
  {
    TripleHolds(s, c);
  }

  lemma ReplayedTripleTypes(s: Signer, c: CompleteShare)
    ensures Replay(s, Triple(c)).saved <= s.saved && Replay(s, Triple(c)).loaded <= s.loaded
  {
    ReplayOfThree(s, Triple(c)[0], Triple(c)[1], Triple(c)[2]);
    assert Triple(c) == [Triple(c)[0], Triple(c)[1], Triple(c)[2]];
  }

  /** A step that consolidates a share, its writes complete. */
  ghost predicate Consolidates(step: Traces.Step, c: CompleteShare) {
    && step.Called? && step.io == ALL_COMPLETES && Confirms(step.op) && step.op.prompt.AskConsolidate?
    && c == Consolidated(step.op.prompt.consolidation, step.op.choice.ciphertext)
  }

  /** The share is on flash in both copies, and held beside what was held. */
  ghost predicate Took(s: State, t: State, c: CompleteShare) {
    && NextIndex(s.shares).Some? && Staged(t) == []
    && t.shares == (var copy := Good(NextIndex(s.shares).value, RecordOfShare(c)); Cells(copy, copy))
    && t.signer == Replay(s.signer, Triple(c)).(staged := [])
  }

  lemma ConsolidationStep(w: World, s: State, step: Traces.Step, t: State, c: CompleteShare)
    requires t == Next(w, s, step) && Consolidates(step, c)
    requires Staged(s) == [] && NextIndex(s.shares).Some?
    ensures Took(s, t, c)
  {
    ConsolidationLeaves(w, s, step.op, t);
  }

  /** Both shares are held and the second alone is stored. */
  ghost predicate OneOfTwoStored(s: State, c1: CompleteShare, c2: CompleteShare) {
    && Staged(s) == [] && Read(s.shares) == Holds(RecordOfShare(c2)) && Holding(s.signer, c1)
    && s.signer.saved == {} && s.signer.loaded == {} && c1.ref.key != c2.ref.key
  }

  lemma TookLeavesIndex(s: State, t: State, c: CompleteShare)
    requires Took(s, t, c) && NextIndex(s.shares) == Some(0)
    ensures NextIndex(t.shares) == Some(1)
  {
  }

  lemma TookBoth(s: State, t: State, u: State, c1: CompleteShare, c2: CompleteShare)
    requires s.signer == BLANK_SIGNER && Took(s, t, c1) && Took(t, u, c2) && c1.ref.key != c2.ref.key
    ensures OneOfTwoStored(u, c1, c2)
  {
    assert Read(u.shares) == Holds(RecordOfShare(c2));
    TripleHolds(s.signer, c1);
    OtherKeysStay(t.signer, c2, c1.ref, c1.share.image.index);
    ReplayedTripleTypes(s.signer, c1);
    ReplayedTripleTypes(t.signer, c2);
  }

  /** Two consolidations under two keys, from a blank flash: both held, the second alone stored. */
  lemma TwoHeldOneStored(w: World, run: seq<Traces.Step>, states: seq<State>, c1: CompleteShare, c2: CompleteShare)
    requires Ran(w, run, states) && |run| >= 2 && Consolidates(run[0], c1) && Consolidates(run[1], c2)
    requires states[0].shares == Cells(Blank, Blank) && c1.ref.key != c2.ref.key
    ensures OneOfTwoStored(states[2], c1, c2)
  {
    var s, t, u := states[0], states[1], states[2];
    assert StepOf(w, run, states, 0) && StepOf(w, run, states, 1);
    BlankBoot(s);
    ConsolidationStep(w, s, run[0], t, c1);
    TookLeavesIndex(s, t, c1);
    ConsolidationStep(w, t, run[1], u, c2);
    TookBoth(s, t, u, c1, c2);
  }

  lemma BlankBoot(s: State)
    requires Booted(s) && s.shares == Cells(Blank, Blank)
    ensures s.signer == BLANK_SIGNER && Staged(s) == [] && NextIndex(s.shares) == Some(0)
  {
  }

  /**
   So it can be acknowledged and gone: consolidate one share, then another under another key, and ask
   about the first again. The session answers that it is consolidated; the next boot has only the second.
   */
  lemma ReacknowledgedShareMayBeGone(w: World, run: seq<Traces.Step>, states: seq<State>, c1: CompleteShare,
                                     c2: CompleteShare, again: Wire.Restoration)
    requires Ran(w, run, states) && |run| == 3 && Consolidates(run[0], c1) && Consolidates(run[1], c2)
    requires states[0].shares == Cells(Blank, Blank) && c1.ref.key != c2.ref.key
    requires run[2] == Called(OpRecv(Core(Restore(again))), ALL_COMPLETES)
    requires again.Consolidate? && again.ref == c1.ref && again.image == c1.share.image
    requires w.encode[FromCore(FinishedConsolidation(again.ref, again.image.index))].Success?
    ensures FxOf(w, run, states, 2) == [Sent(FromCore(FinishedConsolidation(c1.ref, c1.share.image.index)))]
    ensures ShareAt(BootAfter(states[2], FxOf(w, run, states, 2)), c1.ref, c1.share.image.index).None?
  {
    TwoHeldOneStored(w, run, states, c1, c2);
    AskedAgain(w, states[2], c1, c2, again);
    assert StepOf(w, run, states, 2);
  }

  lemma AskedAgain(w: World, s: State, c1: CompleteShare, c2: CompleteShare, again: Wire.Restoration)
    requires OneOfTwoStored(s, c1, c2)
    requires again.Consolidate? && again.ref == c1.ref && again.image == c1.share.image
    requires w.encode[FromCore(FinishedConsolidation(again.ref, again.image.index))].Success?
    ensures var fx := Exec(w, s, OpRecv(Core(Restore(again))), ALL_COMPLETES).fx;
      && fx == [Sent(FromCore(FinishedConsolidation(c1.ref, c1.share.image.index)))]
      && ShareAt(BootAfter(s, fx), c1.ref, c1.share.image.index).None?
  {
    var fx := Exec(w, s, OpRecv(Core(Restore(again))), ALL_COMPLETES).fx;
    NothingToWrite(s, ALL_COMPLETES);
    ReacknowledgedIsDurableIffOnRecord(w, s, ALL_COMPLETES, again, 1);
    assert fx[..1] == fx && fx[0].Sent?;
  }
}
