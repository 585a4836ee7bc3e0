/** The share is on flash before the coordinator hears of it; what that means, and where it stops. */
module Durability {
  import opened Wrappers
  import opened Wire
  import opened AbSlots
  import opened Storage
  import opened Signers
  import opened ShareStores
  import opened Screens
  import opened SessionSpec
  import opened Steps
  import opened Writes
  import opened Replies
  // ---- calls that run the queue

  /** The state a call hands to `run`, and the queue it runs. */
  datatype Queue = Queue(state: State, sends: seq<Send>)

  function Act(s: State, acted: Acted): Queue {
    Queue(s.(signer := acted.signer), acted.sends)
  }

  /** The queue a call runs, unless it is refused first or runs none. */
  function QueueOf(s: State, op: Op): Option<Queue> {
    match op
    case OpRecv(Core(core)) => QueueOfMessage(s, core)
    case OpConfirm(prompt, page, choice) => if Authorises(prompt, page) then QueueOfConsent(s, prompt, choice) else None
    case OpEntry(Entered(image)) =>
      (match s.entry
       case None => None
       case Some(entry) => Some(Act(s.(entry := None), LoadTyped(s.signer, entry.id, image))))
    case _ => None
  }

  function QueueOfMessage(s: State, core: CoreMessage): Option<Queue> {
    if core.VerifyAddress? then
      if core.key in s.signer.keys && s.signer.keys[core.key].purpose.Bitcoin?
      then Some(Queue(s, [ToUser(ShowAddress(core.key, core.derivationIndex))])) else None
    else if core.KeyGen? && core.keygen.Begin? && !GroupFits(core.keygen.devices, core.keygen.threshold) then None
    else
      var answer := Receive(s.signer, core);
      if answer.sends.Success? then Some(Queue(s.(signer := answer.signer), answer.sends.value)) else None
  }

  function QueueOfConsent(s: State, prompt: Prompt, choice: Choice): Option<Queue> {
    match Acts(s.signer, prompt, choice) case None => None case Some(acted) => Some(Act(s, acted))
  }

  /** What a call leaves alone when it has no queue to run. */
  predicate LeavesShares(s: State, post: State) {
    post.shares == s.shares && post.names == s.names
    && post.signer.staged == s.signer.staged && post.signer.keys == s.signer.keys
  }

  lemma MessageRuns(w: World, s: State, core: CoreMessage, io: Io)
    ensures var o, q := RecvCore(w, s, core, io), QueueOfMessage(s, core);
      if q.Some? then o == Run(w, q.value.state, q.value.sends, io) else o.fx == [] && LeavesShares(s, o.post)
  {
  }

  lemma ConsentRuns(w: World, s: State, prompt: Prompt, choice: Choice, io: Io)
    ensures var o, q := Granted(w, s, prompt, choice, io), QueueOfConsent(s, prompt, choice);
      if q.Some? then o == Run(w, q.value.state, q.value.sends, io) else o.fx == [] && LeavesShares(s, o.post)
  {
  }

  /** A call with a queue is that queue's run; any other leaves the flash and what is staged alone. */
  lemma CallRuns(w: World, s: State, op: Op, io: Io)
    ensures var o, q := Exec(w, s, op, io), QueueOf(s, op);
      if q.Some?
      then o.post == Run(w, q.value.state, q.value.sends, io).post
        && o.fx == Run(w, q.value.state, q.value.sends, io).fx
      else LeavesShares(s, o.post)
  {
    match op {
      case OpRecv(body) => if body.Core? { MessageRuns(w, s, body.core, io); }
      case OpConfirm(prompt, page, choice) => if Authorises(prompt, page) { ConsentRuns(w, s, prompt, choice, io); }
      case OpEntry(step) =>
      case _ => SaysOnly(w, s, op, io);
    }
  }

  // ---- the queue's run, effect by effect

  /** What `run` finds staged and may write: never a typed-in share. */
  function Staged(s: State): seq<Mutation> {
    WithoutRestorations(s.signer.staged)
  }

  lemma {:induction false} DrainWritesNoShares(w: World, s: State, work: seq<Send>, prompts: seq<Prompt>, io: Io)
    ensures forall e :: e in Drain(w, s, work, prompts, io).fx ==> !e.ShareCells?
    decreases |work|
  {
    if work != [] {
      var h := Handle(w, s, work[0], prompts, io);
      if Commits(work[0]) {
        CommitWritesNoShares(w, s, io);
      } else {
        HandleQuiet(w, s, work[0], prompts, io);
      }
      if h.result.Success? {
        DrainWritesNoShares(w, h.post, work[1..], h.result.value, io);
      }
    }
  }

  lemma CommitWritesNoShares(w: World, s: State, io: Io)
    ensures forall e :: e in CommitName(w, s, io).fx ==> !e.ShareCells?
  {
    forall e | e in CommitName(w, s, io).fx
      ensures !e.ShareCells?
    {
      CommitSources(w, s, io, e);
    }
  }

  lemma {:induction false} NoShareWrites(cells: Cells<ShareRecord>, fx: seq<Effect>)
    requires forall e :: e in fx ==> !e.ShareCells?
    ensures SharesAfter(cells, fx) == cells
  {
    if fx != [] {
      assert fx[|fx| - 1] in fx;
      NoShareWrites(cells, fx[..|fx| - 1]);
    }
  }

  /** Once anything is sent the persist has succeeded, and every write of the share is behind it. */
  lemma SentAfterPersist(w: World, s: State, sends: seq<Send>, io: Io, k: nat, n: nat)
    requires k < n <= |Run(w, s, sends, io).fx| && Run(w, s, sends, io).fx[k].Sent?
    ensures PersistsWell(s, io)
    ensures SharesAfter(s.shares, Run(w, s, sends, io).fx[..n]) == Persisting(s, io).shares
  {
    var steps := Persist(s.shares, s.signer.staged, io.share).steps;
    var written := ShareEach(steps);
    ShareEachAre(steps);
    if PersistsWell(s, io) {
      var rest := Drain(w, Persisting(s, io), sends, [], io).fx;
      DrainWritesNoShares(w, Persisting(s, io), sends, [], io);
      assert (written + rest)[..n] == written + rest[..n - |written|];
      AfterBoth(s.shares, s.names, written, rest[..n - |written|]);
      AfterShares(s.shares, s.names, steps);
      NoShareWrites(Final(s.shares, steps), rest[..n - |written|]);
    }
  }

  /**
   A persist that succeeds had nothing to write, or one whole ceremony, which then reads back but for the torn
   tie.
   */
  lemma PersistReads(s: State, io: Io)
    requires PersistsWell(s, io)
    ensures Persisting(s, io).signer.staged == []
    ensures Staged(s) == [] ==> Persisting(s, io).shares == s.shares
    ensures Staged(s) != [] ==> exists c :: Staged(s) == Triple(c)
    ensures forall c :: Staged(s) == Triple(c) ==>
      Read(Persisting(s, io).shares)
        == if TieGoesToTornCopy(s.shares, io.share) then Damaged else Holds(RecordOfShare(c))
  {
    RecordFromExactlyATriple(Staged(s));
    forall c | Staged(s) == Triple(c)
      ensures Read(Persisting(s, io).shares)
           == if TieGoesToTornCopy(s.shares, io.share) then Damaged else Holds(RecordOfShare(c))
    {
      CommittedIsReadableIffNoTornTie(s.shares, RecordOfShare(c), io.share);
    }
  }

  /** What the next boot makes of the flash as some effects of a call leave it. */
  function BootAfter(s: State, fx: seq<Effect>): Signer {
    Reloaded(SharesAfter(s.shares, fx))
  }

  predicate HoldsOnly(signer: Signer, c: CompleteShare) {
    ShareAt(signer, c.ref, c.share.image.index) == Some(c.share)
    && HeldBy(signer) == {HeldShare(Some(c.ref), c.share.image)}
  }

  /**
   When a call answers anything while a ceremony's share is staged, that share is already on flash: cut
   the power anywhere after the answer, and the next boot holds it and nothing else. The one exception
   is a second copy torn on the side that wins ties, which reports a commit and reads as damage.
   */
  lemma AnswerMeansDurable(w: World, s: State, op: Op, io: Io, k: nat, n: nat, c: CompleteShare)
    requires QueueOf(s, op).Some? && Staged(QueueOf(s, op).value.state) == Triple(c)
    requires k < n <= |Exec(w, s, op, io).fx| && Exec(w, s, op, io).fx[k].Sent?
    ensures var boot := BootAfter(s, Exec(w, s, op, io).fx[..n]);
      if TieGoesToTornCopy(s.shares, io.share) then HeldBy(boot) == {} else HoldsOnly(boot, c)
  {
    var q := QueueOf(s, op).value;
    CallRuns(w, s, op, io);
    QueueKeepsFlash(s, op);
    SentAfterPersist(w, q.state, q.sends, io, k, n);
    PersistReads(q.state, io);
    if !TieGoesToTornCopy(s.shares, io.share) {
      StoredShareIsHeldAtBoot(Persisting(q.state, io).shares, c);
    }
  }

  lemma QueueKeepsFlash(s: State, op: Op)
    requires QueueOf(s, op).Some?
    ensures QueueOf(s, op).value.state.shares == s.shares && QueueOf(s, op).value.state.names == s.names
  {
  }

  /** Nothing is answered while anything but one whole ceremony is staged. */
  lemma OnlyWholeCeremoniesAreAnswered(w: World, s: State, op: Op, io: Io, k: nat)
    requires QueueOf(s, op).Some? && k < |Exec(w, s, op, io).fx| && Exec(w, s, op, io).fx[k].Sent?
    ensures var staged := Staged(QueueOf(s, op).value.state); staged == [] || exists c :: staged == Triple(c)
  {
    var q := QueueOf(s, op).value;
    CallRuns(w, s, op, io);
    SentAfterPersist(w, q.state, q.sends, io, k, k + 1);
    PersistReads(q.state, io);
  }

  /** A refused write answers nothing and keeps the queue to try again. */
  lemma FailedPersistSaysNothing(w: World, s: State, op: Op, io: Io)
    requires QueueOf(s, op).Some? && !PersistsWell(QueueOf(s, op).value.state, io)
    ensures forall e :: e in Exec(w, s, op, io).fx ==> e.ShareCells?
    ensures Exec(w, s, op, io).post.signer.staged == Staged(QueueOf(s, op).value.state) != []
  {
    var q := QueueOf(s, op).value;
    CallRuns(w, s, op, io);
    ShareEachAre(Persist(q.state.shares, q.state.signer.staged, io.share).steps);
  }
}
