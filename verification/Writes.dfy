/** The flash as the effects of a call leave it, effect by effect. */
module Writes {
  import opened Wrappers
  import opened Wire
  import opened AbSlots
  import opened Storage
  import opened NameStores
  import opened Signers
  import opened ShareStores
  import opened SessionSpec
  import Quizzes
  import opened Steps

  /** The share cells after some effects. */
  function SharesAfter(cells: Cells<ShareRecord>, fx: seq<Effect>): Cells<ShareRecord>
    decreases |fx|
  {
    if fx == [] then cells
    else if fx[|fx| - 1].ShareCells? then fx[|fx| - 1].shares
    else SharesAfter(cells, fx[..|fx| - 1])
  }

  /** The name cells after some effects. */
  function NamesAfter(cells: Cells<NameRecord>, fx: seq<Effect>): Cells<NameRecord>
    decreases |fx|
  {
    if fx == [] then cells
    else if fx[|fx| - 1].NameCells? then fx[|fx| - 1].names
    else NamesAfter(cells, fx[..|fx| - 1])
  }

  lemma {:induction false} AfterBoth(shares: Cells<ShareRecord>, names: Cells<NameRecord>, a: seq<Effect>,
                                     b: seq<Effect>)
    ensures SharesAfter(shares, a + b) == SharesAfter(SharesAfter(shares, a), b)
    ensures NamesAfter(names, a + b) == NamesAfter(NamesAfter(names, a), b)
    decreases |b|
  {
    if b == [] {
      assert a + b == a;
    } else {
      assert (a + b)[..|a + b| - 1] == a + b[..|b| - 1];
      AfterBoth(shares, names, a, b[..|b| - 1]);
    }
  }

  lemma {:induction false} AfterShares(shares: Cells<ShareRecord>, names: Cells<NameRecord>,
                                       steps: seq<Cells<ShareRecord>>)
    ensures SharesAfter(shares, ShareEach(steps)) == Final(shares, steps)
    ensures NamesAfter(names, ShareEach(steps)) == names
  {
    ShareEachAre(steps);
    if steps != [] {
      var n := |steps| - 1;
      ShareEachAre(steps[..n]);
      assert ShareEach(steps)[..n] == ShareEach(steps[..n]);
      AfterShares(shares, names, steps[..n]);
    }
  }

  lemma {:induction false} AfterNames(shares: Cells<ShareRecord>, names: Cells<NameRecord>,
                                      steps: seq<Cells<NameRecord>>)
    ensures NamesAfter(names, NameEach(steps)) == Final(names, steps)
    ensures SharesAfter(shares, NameEach(steps)) == shares
  {
    NameEachAre(steps);
    if steps != [] {
      var n := |steps| - 1;
      NameEachAre(steps[..n]);
      assert NameEach(steps)[..n] == NameEach(steps[..n]);
      AfterNames(shares, names, steps[..n]);
    }
  }

  lemma {:induction false} AfterFrames(shares: Cells<ShareRecord>, names: Cells<NameRecord>, fx: seq<Effect>)
    requires forall e :: e in fx ==> e.Sent? || e.Drew?
    ensures SharesAfter(shares, fx) == shares && NamesAfter(names, fx) == names
  {
    if fx != [] {
      assert fx[|fx| - 1] in fx;
      AfterFrames(shares, names, fx[..|fx| - 1]);
    }
  }

  /** The flash a call leaves is the flash its effects leave. */
  predicate Tells(s: State, post: State, fx: seq<Effect>) {
    post.shares == SharesAfter(s.shares, fx) && post.names == NamesAfter(s.names, fx)
  }

  lemma RunTells(w: World, s: State, sends: seq<Send>, io: Io)
    requires Quiet(sends)
    ensures var r := Run(w, s, sends, io); Tells(s, r.post, r.fx)
  {
    var steps := Persist(s.shares, s.signer.staged, io.share).steps;
    var written, r := ShareEach(steps), Run(w, s, sends, io);
    RunQuiet(w, s, sends, io);
    AfterShares(s.shares, s.names, steps);
    assert r.fx == written + r.fx[|written|..];
    AfterBoth(s.shares, s.names, written, r.fx[|written|..]);
    AfterFrames(SharesAfter(s.shares, written), s.names, r.fx[|written|..]);
  }

  lemma CommitTells(w: World, s: State, io: Io)
    ensures var c := CommitName(w, s, io); Tells(s, c.post, c.fx)
  {
    if s.pendingName.Some? {
      var name := s.pendingName.value;
      var saved := SaveSteps(w.hash, s.names, name, io.name);
      var t := s.(pendingName := None, names := Final(s.names, saved.steps));
      var said := PushOut(w, t, SetName(name), ()).fx;
      PushSends(w, t, SetName(name), ());
      AfterNames(s.shares, s.names, saved.steps);
      AfterBoth(s.shares, s.names, NameEach(saved.steps), said);
      AfterFrames(s.shares, t.names, said);
    }
  }

  lemma FinalizeTells(w: World, s: State, id: KeygenId, io: Io)
    ensures var r := Dispatch(w, s, KeyGen(Finalize(id)), io); Tells(s, r.post, r.fx)
  {
    if id in s.signer.pending {
      var t := s.(signer := ReceiveKeygen(s.signer, Finalize(id)).signer);
      var steps := Persist(t.shares, t.signer.staged, io.share).steps;
      RunCommits(w, t, s.signer.pending[id].keyName, io);
      AfterShares(s.shares, s.names, steps);
      if PersistsWell(t, io) {
        var p := Persisting(t, io);
        CommitTells(w, p, io);
        AfterBoth(s.shares, s.names, ShareEach(steps), CommitName(w, p, io).fx);
      }
    }
  }

  lemma RecvTells(w: World, s: State, body: CoordinatorBody, io: Io)
    ensures var r := Recv(w, s, body, io); Tells(s, r.post, r.fx)
  {
    if body.Core? {
      var core := body.core;
      if core.VerifyAddress? {
        RunTells(w, s, [ToUser(ShowAddress(core.key, core.derivationIndex))], io);
      } else if core.KeyGen? && core.keygen.Finalize? {
        FinalizeTells(w, s, core.keygen.id, io);
      } else {
        var answer := Receive(s.signer, core);
        if answer.sends.Success? {
          AnswersAreQuiet(s.signer, core);
          RunTells(w, s.(signer := answer.signer), answer.sends.value, io);
        }
      }
    }
  }

  lemma GrantedTells(w: World, s: State, prompt: Prompt, choice: Choice, io: Io)
    ensures var r := Granted(w, s, prompt, choice, io); Tells(s, r.post, r.fx)
  {
    var acted := Acts(s.signer, prompt, choice);
    if acted.Some? {
      RunTells(w, s.(signer := acted.value.signer), acted.value.sends, io);
    }
  }

  lemma EntryTells(w: World, s: State, step: EntryStep, io: Io)
    ensures var r := EntryKey(w, s, step, io); Tells(s, r.post, r.fx)
  {
    if s.entry.Some? && step.Entered? {
      var acting := LoadTyped(s.signer, s.entry.value.id, step.image);
      RunTells(w, s.(entry := None, signer := acting.signer), acting.sends, io);
    }
  }

  predicate OnlySays(s: State, post: State, fx: seq<Effect>) {
    post.shares == s.shares && post.names == s.names && post.signer == s.signer
    && forall e :: e in fx ==> e.Sent? || e.Drew?
  }

  lemma QuizOnlySays(w: World, s: State, key: char, redraw: Option<seq<string>>)
    ensures var r := QuizKey(w, s, key, redraw); OnlySays(s, r.post, r.fx)
  {
    if s.check.Some? {
      var body := BackupChecked(s.check.value.ref, s.check.value.index);
      PushSends(w, s.(check := None), body, CheckedEnded(Some(Quizzes.QUIZ_POSITIONS)));
    }
  }

  lemma AnnounceOnlySays(w: World, s: State, digest: nat)
    ensures var r := AnnounceOut(w, s, digest); OnlySays(s, r.post, r.fx)
  {
    PushSends(w, s, Announce(digest), ());
    var body := NameToSay(w, s);
    PushSends(w, s, body, ());
  }

  lemma SaysOnly(w: World, s: State, op: Op, io: Io)
    requires op.OpShow? || op.OpRecorded? || op.OpQuiz? || op.OpAnnounce?
    ensures OnlySays(s, Exec(w, s, op, io).post, Exec(w, s, op, io).fx)
  {
    match op {
      case OpRecorded => PushSends(w, s.(recordPending := false), BackupRecorded, ());
      case OpQuiz(key, redraw) => QuizOnlySays(w, s, key, redraw);
      case OpAnnounce(digest) => AnnounceOnlySays(w, s, digest);
      case _ =>
    }
  }

  /** A cut after a call's last effect finds exactly the flash the call left. */
  lemma FlashIsWhatWasWritten(w: World, s: State, op: Op, io: Io)
    ensures Tells(s, Exec(w, s, op, io).post, Exec(w, s, op, io).fx)
  {
    match op {
      case OpRecv(body) => RecvTells(w, s, body, io);
      case OpConfirm(prompt, page, choice) => GrantedTells(w, s, prompt, choice, io);
      case OpEntry(step) => EntryTells(w, s, step, io);
      case _ =>
        SaysOnly(w, s, op, io);
        AfterFrames(s.shares, s.names, Exec(w, s, op, io).fx);
    }
  }
}
