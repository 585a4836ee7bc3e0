/** What one call can and cannot touch: the facts about single steps the run theorems stand on. */
module Steps {
  import opened Wrappers
  import opened Utf8
  import opened Wire
  import opened AbSlots
  import opened Storage
  import opened NameStores
  import opened Signers
  import opened ShareStores
  import opened Outboxes
  import opened SessionSpec

  // ---- the queue

  predicate Commits(send: Send) {
    send.ToUser? && send.prompt.FinalizeKeyGen?
  }

  /** No element commits a name. */
  predicate Quiet(sends: seq<Send>) {
    forall i :: 0 <= i < |sends| ==> !Commits(sends[i])
  }

  /** The frames a queue element stands for. */
  function FramesFor(send: Send): seq<Body> {
    match send
    case ToCoordinator(message) => Frames(FromCore(message))
    case ToUser(NonceJobs(segments)) => Frames(FromCore(NonceResponse(segments)))
    case ToUser(_) => []
  }

  ghost predicate OnlyFrames(fx: seq<Effect>, sends: seq<Send>) {
    forall e :: e in fx ==> e.Sent? && exists i :: 0 <= i < |sends| && e.frame in FramesFor(sends[i])
  }

  lemma {:induction false} SentEachAre(frames: seq<Body>)
    ensures |SentEach(frames)| == |frames|
    ensures forall i :: 0 <= i < |frames| ==> SentEach(frames)[i] == Sent(frames[i])
  {
    if frames != [] {
      SentEachAre(frames[1..]);
    }
  }

  lemma {:induction false} ShareEachAre(steps: seq<Cells<ShareRecord>>)
    ensures |ShareEach(steps)| == |steps|
    ensures forall i :: 0 <= i < |steps| ==> ShareEach(steps)[i] == ShareCells(steps[i])
  {
    if steps != [] {
      ShareEachAre(steps[1..]);
    }
  }

  lemma {:induction false} NameEachAre(steps: seq<Cells<NameRecord>>)
    ensures |NameEach(steps)| == |steps|
    ensures forall i :: 0 <= i < |steps| ==> NameEach(steps)[i] == NameCells(steps[i])
  {
    if steps != [] {
      NameEachAre(steps[1..]);
    }
  }

  /** A push changes no state and sends only frames of its body. */
  lemma PushSends<T>(w: World, s: State, body: Body, value: T)
    ensures PushOut(w, s, body, value).post == s
    ensures forall e :: e in PushOut(w, s, body, value).fx ==> e.Sent? && e.frame in Frames(body)
  {
    SentEachAre(Pushed(w.encode, body));
  }

  /** A body that is one frame goes whole or not at all. */
  lemma PushWhole<T>(w: World, s: State, body: Body, value: T)
    requires Frames(body) == [body]
    ensures var o := PushOut(w, s, body, value);
      && o.fx == (if w.encode[body].Success? then [Sent(body)] else [])
      && o.result.Success? == w.encode[body].Success?
  {
    WholeFrame(w.encode, body);
    assert SentEach([body]) == [Sent(body)];
  }

  /** A quiet queue changes no state and sends nothing but its own elements. */
  lemma {:induction false} DrainQuiet(w: World, s: State, work: seq<Send>, prompts: seq<Prompt>, io: Io)
    requires Quiet(work)
    ensures Drain(w, s, work, prompts, io).post == s
    ensures OnlyFrames(Drain(w, s, work, prompts, io).fx, work)
    decreases |work|
  {
    if work != [] {
      var h := Handle(w, s, work[0], prompts, io);
      HandleQuiet(w, s, work[0], prompts, io);
      assert forall e :: e in h.fx ==> e.Sent? && e.frame in FramesFor(work[0]);
      if h.result.Success? {
        var rest := Drain(w, s, work[1..], h.result.value, io);
        DrainQuiet(w, s, work[1..], h.result.value, io);
        forall e | e in rest.fx
          ensures e.Sent? && exists i :: 0 <= i < |work| && e.frame in FramesFor(work[i])
        {
          var i :| 0 <= i < |work[1..]| && e.frame in FramesFor(work[1..][i]);
          assert work[1..][i] == work[i + 1];
        }
      }
    }
  }

  lemma HandleQuiet(w: World, s: State, send: Send, prompts: seq<Prompt>, io: Io)
    requires !Commits(send)
    ensures Handle(w, s, send, prompts, io).post == s
    ensures forall e :: e in Handle(w, s, send, prompts, io).fx ==> e.Sent? && e.frame in FramesFor(send)
  {
    match send {
      case ToCoordinator(message) => PushSends(w, s, FromCore(message), prompts);
      case ToUser(NonceJobs(segments)) => PushSends(w, s, FromCore(NonceResponse(segments)), prompts);
      case ToUser(_) =>
    }
  }

  /** What `Run` has made of the state once it has persisted. */
  function Persisting(s: State, io: Io): State {
    var p := Persist(s.shares, s.signer.staged, io.share);
    s.(shares := Final(s.shares, p.steps), signer := s.signer.(staged := p.staged))
  }

  predicate PersistsWell(s: State, io: Io) {
    Persist(s.shares, s.signer.staged, io.share).result.Success?
  }

  /** A commit spends the pending name, whether or not it can be written, and touches only the name cells. */
  lemma CommitSpends(w: World, s: State, io: Io)
    ensures var t := CommitName(w, s, io).post; t == s.(pendingName := None, names := t.names)
  {
    if s.pendingName.Some? {
      var saved := SaveSteps(w.hash, s.names, s.pendingName.value, io.name);
      PushSends(w, s.(pendingName := None, names := Final(s.names, saved.steps)), SetName(s.pendingName.value), ());
    }
  }

  /** A commit writes the name's cells and then, if they took, says the name. */
  lemma CommitFx(w: World, s: State, io: Io)
    requires s.pendingName.Some?
    ensures var name := s.pendingName.value; var saved := SaveSteps(w.hash, s.names, name, io.name);
      CommitName(w, s, io).fx == NameEach(saved.steps)
        + if saved.result.Success? && w.encode[SetName(name)].Success? then [Sent(SetName(name))] else []
  {
    var name := s.pendingName.value;
    WholeFrame(w.encode, SetName(name));
    assert SentEach([SetName(name)]) == [Sent(SetName(name))];
  }

  /** A run over a quiet queue only persists; what it sends are its elements' frames, after the writes. */
  lemma RunQuiet(w: World, s: State, sends: seq<Send>, io: Io)
    requires Quiet(sends)
    ensures var r := Run(w, s, sends, io); var written := ShareEach(Persist(s.shares, s.signer.staged, io.share).steps);
      && r.post == Persisting(s, io)
      && written <= r.fx
      && OnlyFrames(r.fx[|written|..], sends)
      && (!PersistsWell(s, io) ==> r.fx == written)
  {
    DrainQuiet(w, Persisting(s, io), sends, [], io);
  }

  /** A run that commits: persist, then the name. */
  lemma RunCommits(w: World, s: State, keyName: Str, io: Io)
    ensures var r := Run(w, s, [ToUser(FinalizeKeyGen(keyName))], io);
      var written := ShareEach(Persist(s.shares, s.signer.staged, io.share).steps);
      if PersistsWell(s, io)
      then r.post == CommitName(w, Persisting(s, io), io).post
        && r.fx == written + CommitName(w, Persisting(s, io), io).fx
      else r.post == Persisting(s, io) && r.fx == written
  {
    if PersistsWell(s, io) {
      var t := Persisting(s, io);
      var work := [ToUser(FinalizeKeyGen(keyName))];
      var c := CommitName(w, t, io);
      assert work[1..] == [];
      assert c.fx + [] == c.fx;
      assert Drain(w, t, work, [], io).fx == c.fx;
    }
  }

  /** Only the coordinator's `FinalizeKeyGen`, for a ceremony the human has confirmed, commits. */
  lemma AnswersAreQuiet(s: Signer, m: CoreMessage)
    requires !m.VerifyAddress? && Receive(s, m).sends.Success?
    ensures var sends := Receive(s, m).sends.value;
      if m.KeyGen? && m.keygen.Finalize?
      then m.keygen.id in s.pending && sends == [ToUser(FinalizeKeyGen(s.pending[m.keygen.id].keyName))]
      else Quiet(sends)
  {
  }
}
