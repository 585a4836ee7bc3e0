/** Names over whole runs: how one comes to be written, and what the coordinator hears of it. */
module NameRuns {
  import opened Wrappers
  import opened Utf8
  import opened Wire
  import opened AbSlots
  import opened Storage
  import opened NameStores
  import opened Signers
  import opened ShareStores
  import opened SessionSpec
  import opened Steps
  import opened Consents
  import opened Traces
  import opened Replies
  import opened Writes
  import opened Runs
  import opened Ceremonies

  // ---- a commit, effect by effect

  /** What a finished ceremony does to the world: the share, then the name, then the word of it. */
  lemma FinalizeFx(w: World, s: State, id: KeygenId, io: Io)
    requires FinalizesAt(s, OpRecv(Core(KeyGen(Finalize(id)))), io) && s.pendingName.Some?
    ensures var t := s.(signer := ReceiveKeygen(s.signer, Finalize(id)).signer);
      var name := s.pendingName.value; var saved := SaveSteps(w.hash, s.names, name, io.name);
      Dispatch(w, s, KeyGen(Finalize(id)), io).fx
        == ShareEach(Persist(t.shares, t.signer.staged, io.share).steps) + (NameEach(saved.steps)
         + if saved.result.Success? && w.encode[SetName(name)].Success? then [Sent(SetName(name))] else [])
  {
    var t := s.(signer := ReceiveKeygen(s.signer, Finalize(id)).signer);
    RunCommits(w, t, s.signer.pending[id].keyName, io);
    CommitFx(w, Persisting(t, io), io);
  }

  lemma NameAmong(shares: seq<Cells<ShareRecord>>, names: seq<Cells<NameRecord>>, said: seq<Effect>,
                  cells: Cells<NameRecord>)
    requires NameCells(cells) in ShareEach(shares) + (NameEach(names) + said) && forall e :: e in said ==> e.Sent?
    ensures cells in names
  {
    ShareEachAre(shares);
    NameEachAre(names);
  }

  lemma InFinalizeFx(w: World, s: State, id: KeygenId, io: Io, cells: Cells<NameRecord>)
    requires FinalizesAt(s, OpRecv(Core(KeyGen(Finalize(id)))), io) && s.pendingName.Some?
    requires NameCells(cells) in Dispatch(w, s, KeyGen(Finalize(id)), io).fx
    ensures cells in SaveSteps(w.hash, s.names, s.pendingName.value, io.name).steps
  {
    var t := s.(signer := ReceiveKeygen(s.signer, Finalize(id)).signer);
    var name := s.pendingName.value;
    var saved := SaveSteps(w.hash, s.names, name, io.name);
    var said := if saved.result.Success? && w.encode[SetName(name)].Success? then [Sent(SetName(name))] else [];
    FinalizeFx(w, s, id, io);
    NameAmong(Persist(t.shares, t.signer.staged, io.share).steps, saved.steps, said, cells);
  }

  /** A write of the name cells is a state of saving the pending name, by a finished ceremony. */
  lemma NameWrittenBy(w: World, s: State, step: Traces.Step, cells: Cells<NameRecord>)
    requires NameCells(cells) in Fx(w, s, step)
    ensures FinalizesAt(s, step.op, step.io) && s.pendingName.Some?
    ensures cells in SaveSteps(w.hash, s.names, s.pendingName.value, step.io.name).steps
  {
    EveryEffectIsSourced(w, s, step.op, step.io, NameCells(cells));
    InFinalizeFx(w, s, step.op.body.core.keygen.id, step.io, cells);
  }

  /**
   A name reaches flash only in the finish of a ceremony a human confirmed and nobody has cancelled
   since, and only as the latest preview, itself neither cancelled nor committed before.
   */
  lemma NameIsWrittenWithConsent(w: World, run: seq<Traces.Step>, states: seq<State>, i: nat, cells: Cells<NameRecord>)
    requires Ran(w, run, states) && i < |run| && NameCells(cells) in FxOf(w, run, states, i)
    ensures Lawful(w.device, TraceOf(run, states))
    ensures exists c: nat, name: DeviceName ::
      && Issued(w.device, TraceOf(run, states), ToName, c, i, OfName(name))
      && cells in SaveSteps(w.hash, states[i].names, name, run[i].io.name).steps
    ensures exists a: nat, id :: ConfirmedSince(run, a, i, id) && Finishes(run[i], id)
  {
    NameWrittenBy(w, states[i], run[i], cells);
    PendingNameWasPreviewed(w, run, states, i);
    FinishedWasConfirmed(w, run, states, i);
  }

  lemma PendingNameWasPreviewed(w: World, run: seq<Traces.Step>, states: seq<State>, i: nat)
    requires Ran(w, run, states) && i < |run| && states[i].pendingName.Some?
    ensures Lawful(w.device, TraceOf(run, states))
    ensures exists c: nat :: Issued(w.device, TraceOf(run, states), ToName, c, i, OfName(states[i].pendingName.value))
  {
    RunsAreLawful(w, run, states);
    var t := TraceOf(run, states);
    assert t.consents[i] == ConsentOf(states[i]);
    GrantsAreConsents(w.device, t, ToName, i, OfName(states[i].pendingName.value));
  }

  lemma FinishedWasConfirmed(w: World, run: seq<Traces.Step>, states: seq<State>, i: nat)
    requires Ran(w, run, states) && i < |run| && FinalizesAt(states[i], run[i].op, run[i].io)
    ensures exists a: nat, id :: ConfirmedSince(run, a, i, id) && Finishes(run[i], id)
  {
    var id := run[i].op.body.core.keygen.id;
    RunsPendLawfully(w, run, states);
    PendingWasConfirmed(run, PendingOf(states), i, id);
    var a: nat :| ConfirmedSince(run, a, i, id);
    assert Finishes(run[i], id);
  }

  // ---- every stored name is short

  /** A copy that reads as a name reads as one a coordinator could have sent. */
  predicate ShortCopy(hash: Hash, c: Cell<NameRecord>) {
    c.Good? && NameOf(hash, c.value).Some? ==> CharCount(NameOf(hash, c.value).value) <= DEVICE_NAME_MAX_LENGTH
  }

  predicate ShortCells(hash: Hash, cells: Cells<NameRecord>) {
    ShortCopy(hash, cells.a) && ShortCopy(hash, cells.b)
  }

  lemma SavingKeepsShort(hash: Hash, cells: Cells<NameRecord>, name: DeviceName, plan: WritePlan,
                         after: Cells<NameRecord>)
    requires ShortCells(hash, cells) && after in SaveSteps(hash, cells, name, plan).steps
    ensures ShortCells(hash, after)
  {
    DeviceNameFits(name);
    NameRoundTrip(hash, name);
    WholeCopiesAreOldOrNew(cells, RecordOf(hash, name), plan, after);
  }

  lemma {:induction false} NamesAfterShort(hash: Hash, cells: Cells<NameRecord>, fx: seq<Effect>)
    requires ShortCells(hash, cells) && forall e :: e in fx && e.NameCells? ==> ShortCells(hash, e.names)
    ensures ShortCells(hash, NamesAfter(cells, fx))
  {
    if fx != [] {
      assert fx[|fx| - 1] in fx;
      NamesAfterShort(hash, cells, fx[..|fx| - 1]);
    }
  }

  lemma StepKeepsShort(w: World, s: State, step: Traces.Step, t: State)
    requires ShortCells(w.hash, s.names) && t == Next(w, s, step)
    ensures ShortCells(w.hash, t.names)
  {
    var fx := Fx(w, s, step);
    forall e | e in fx && e.NameCells?
      ensures ShortCells(w.hash, e.names)
    {
      NameWrittenBy(w, s, step, e.names);
      SavingKeepsShort(w.hash, s.names, s.pendingName.value, step.io.name, e.names);
    }
    NamesAfterShort(w.hash, s.names, fx);
    FlashIsWhatWasWritten(w, s, step.op, step.io);
  }

  lemma {:induction false} ShortAt(w: World, run: seq<Traces.Step>, states: seq<State>, i: nat)
    requires Ran(w, run, states) && i <= |run| && ShortCells(w.hash, states[0].names)
    ensures ShortCells(w.hash, states[i].names)
  {
    if i > 0 {
      var last := i - 1;
      var s, step, t := states[last], run[last], states[i];
      ShortAt(w, run, states, last);
      assert StepOf(w, run, states, last);
      StepKeepsShort(w, s, step, t);
    }
  }

  // ---- what the coordinator hears

  /** Hello: the announce, and then, if it went, the name on flash or the lack of one. */
  lemma AnnounceFx(w: World, s: State, digest: nat)
    ensures var body := NameToSay(w, s);
      AnnounceOut(w, s, digest).fx
        == if w.encode[Announce(digest)].Failure? then []
           else if w.encode[body].Failure? then [Sent(Announce(digest))]
           else [Sent(Announce(digest)), Sent(body)]
  {
    var body := NameToSay(w, s);
    PushWhole(w, s, Announce(digest), ());
    PushWhole(w, s, body, ());
  }

  lemma SavedNameLoads(hash: Hash, cells: Cells<NameRecord>, name: DeviceName, plan: WritePlan)
    requires SaveSteps(hash, cells, name, plan).result.Success?
    ensures LoadedName(hash, Final(cells, SaveSteps(hash, cells, name, plan).steps))
         == if TieGoesToTornCopy(cells, plan) then None else Some(name)
  {
    DeviceNameFits(name);
    NameRoundTrip(hash, name);
    CommittedIsReadableIffNoTornTie(cells, RecordOf(hash, name), plan);
  }

  /** Where a committed name is said: after every write of the share and of the name. */
  lemma SaidAfter(shares: seq<Cells<ShareRecord>>, names: seq<Cells<NameRecord>>, said: seq<Effect>, k: nat,
                  cells: Cells<NameRecord>, other: Cells<ShareRecord>)
    requires |said| <= 1
    requires var fx := ShareEach(shares) + (NameEach(names) + said); k < |fx| && fx[k].Sent?
    ensures var fx := ShareEach(shares) + (NameEach(names) + said);
      NamesAfter(cells, fx[..k]) == Final(cells, names) && |said| == 1 && fx[k] == said[0]
  {
    var fx := ShareEach(shares) + (NameEach(names) + said);
    ShareEachAre(shares);
    NameEachAre(names);
    assert fx[..k] == ShareEach(shares) + NameEach(names);
    AfterShares(other, cells, shares);
    AfterNames(other, cells, names);
    AfterBoth(other, cells, ShareEach(shares), NameEach(names));
  }

  lemma CommittedNameIsOnFlash(w: World, s: State, id: KeygenId, io: Io, k: nat, name: DeviceName)
    requires FinalizesAt(s, OpRecv(Core(KeyGen(Finalize(id)))), io) && s.pendingName.Some?
    requires var fx := Dispatch(w, s, KeyGen(Finalize(id)), io).fx; k < |fx| && fx[k] == Sent(SetName(name))
    ensures var fx := Dispatch(w, s, KeyGen(Finalize(id)), io).fx;
      LoadedName(w.hash, NamesAfter(s.names, fx[..k]))
        == if TieGoesToTornCopy(s.names, io.name) then None else Some(name)
  {
    var t := s.(signer := ReceiveKeygen(s.signer, Finalize(id)).signer);
    var pending := s.pendingName.value;
    var saved := SaveSteps(w.hash, s.names, pending, io.name);
    var said := if saved.result.Success? && w.encode[SetName(pending)].Success? then [Sent(SetName(pending))] else [];
    FinalizeFx(w, s, id, io);
    SaidAfter(Persist(t.shares, t.signer.staged, io.share).steps, saved.steps, said, k, s.names, s.shares);
    SavedNameLoads(w.hash, s.names, pending, io.name);
  }

  lemma AnnouncedNameIsOnFlash(w: World, s: State, digest: nat, k: nat, name: DeviceName)
    requires var fx := AnnounceOut(w, s, digest).fx; k < |fx| && fx[k] == Sent(SetName(name))
    ensures var fx := AnnounceOut(w, s, digest).fx; var stored := LoadedName(w.hash, NamesAfter(s.names, fx[..k]));
      stored.Some? && name == CutName(stored.value) && k == 1 && fx[0] == Sent(Announce(digest))
  {
    var fx := AnnounceOut(w, s, digest).fx;
    AnnounceFx(w, s, digest);
    assert fx[..k] == [Sent(Announce(digest))];
    AfterFrames(s.shares, s.names, fx[..k]);
  }

  /** The name said is the one stored: cut, where it is announced; and where it was just committed, unless it tore. */
  predicate SaysStored(stored: Option<Str>, name: DeviceName, announced: bool, torn: bool) {
    if announced then stored.Some? && name == CutName(stored.value)
    else stored == if torn then None else Some(name)
  }

  lemma SetNameInCall(w: World, s: State, op: Op, io: Io, k: nat, name: DeviceName)
    requires k < |Exec(w, s, op, io).fx| && Exec(w, s, op, io).fx[k] == Sent(SetName(name))
    ensures SaysStored(LoadedName(w.hash, NamesAfter(s.names, Exec(w, s, op, io).fx[..k])), name, op.OpAnnounce?,
                       TieGoesToTornCopy(s.names, io.name))
    ensures op.OpAnnounce? || FinalizesAt(s, op, io)
    ensures op.OpAnnounce? ==> k == 1 && Exec(w, s, op, io).fx[0] == Sent(Announce(op.digest))
  {
    EveryEffectIsSourced(w, s, op, io, Sent(SetName(name)));
    if op.OpAnnounce? {
      AnnouncedNameIsOnFlash(w, s, op.digest, k, name);
    } else {
      CommittedNameIsOnFlash(w, s, op.body.core.keygen.id, io, k, name);
    }
  }

  /**
   Every `SetName` carries the name that loads from the flash of that moment, cut to 14 characters where it is
   announced, but for the commit whose second copy was cut short on the wrong side, after which no name loads at
   all. A hello puts its announce first.
   */
  lemma SetNameIsOnFlash(w: World, s: State, step: Traces.Step, k: nat, name: DeviceName)
    requires k < |Fx(w, s, step)| && Fx(w, s, step)[k] == Sent(SetName(name))
    ensures SaysStored(LoadedName(w.hash, NamesAfter(s.names, Fx(w, s, step)[..k])), name, step.op.OpAnnounce?,
                       TieGoesToTornCopy(s.names, step.io.name))
    ensures step.op.OpAnnounce? || FinalizesAt(s, step.op, step.io)
    ensures step.op.OpAnnounce? ==> k == 1 && Fx(w, s, step)[0] == Sent(Announce(step.op.digest))
  {
    assert Fx(w, s, step)[..k] == Exec(w, s, step.op, step.io).fx[..k];
    SetNameInCall(w, s, step.op, step.io, k, name);
  }

  /** Announcing cuts nothing exactly off a name of at most 14 characters. */
  lemma CutsNothingIff(name: Str)
    ensures CutName(name) == name <==> CharCount(name) <= DEVICE_NAME_MAX_LENGTH
  {
  }

  lemma StoredIsShort(hash: Hash, cells: Cells<NameRecord>)
    requires ShortCells(hash, cells)
    ensures var stored := LoadedName(hash, cells); stored.Some? ==> CutName(stored.value) == stored.value
  {
    if LoadedName(hash, cells).Some? {
      CutsNothingIff(LoadedName(hash, cells).value);
    }
  }

  /**
   Over every run on a flash that began with no longer names, a blank one among them, each `SetName` is exactly the
   name that loads at that moment, unless its commit tore.
   */
  lemma EverySetNameIsOnFlash(w: World, run: seq<Traces.Step>, states: seq<State>, i: nat, k: nat, name: DeviceName)
    requires Ran(w, run, states) && i < |run| && ShortCells(w.hash, states[0].names)
    requires k < |FxOf(w, run, states, i)| && FxOf(w, run, states, i)[k] == Sent(SetName(name))
    ensures LoadedName(w.hash, NamesAfter(states[i].names, FxOf(w, run, states, i)[..k]))
         == if !run[i].op.OpAnnounce? && TieGoesToTornCopy(states[i].names, run[i].io.name) then None else Some(name)
  {
    var s, step := states[i], run[i];
    ShortAt(w, run, states, i);
    SetNameIsOnFlash(w, s, step, k, name);
    if step.op.OpAnnounce? {
      AnnounceWritesNothing(w, s, step, k);
      StoredIsShort(w.hash, s.names);
    }
  }

  lemma AnnounceWritesNothing(w: World, s: State, step: Traces.Step, k: nat)
    requires step.op.OpAnnounce? && k <= |Fx(w, s, step)|
    ensures NamesAfter(s.names, Fx(w, s, step)[..k]) == s.names
  {
    var part := Fx(w, s, step)[..k];
    forall e | e in part
      ensures e.Sent?
    {
      AnnounceOnlySends(w, s, step.op, step.io, e);
    }
    AfterFrames(s.shares, s.names, part);
  }

  lemma AnnounceOnlySends(w: World, s: State, op: Op, io: Io, e: Effect)
    requires op.OpAnnounce? && e in Exec(w, s, op, io).fx
    ensures e.Sent?
  {
    EveryEffectIsSourced(w, s, op, io, e);
  }

  /** A blank flash has no long name. */
  lemma BlankIsShort(hash: Hash)
    ensures ShortCells(hash, Cells(Blank, Blank))
  {
  }
}
