/** The session itself: the fields, updated in place, and each call against its specification. */
module Sessions {
  import opened Wrappers
  import opened Wire
  import opened AbSlots
  import opened Storage
  import opened NameStores
  import opened Signers
  import opened ShareStores
  import opened Outboxes
  import opened RandomDraws
  import opened Quizzes
  import opened BackupPages
  import opened Glass
  import opened PageBits
  import opened Screens
  import Entries
  import S = SessionSpec

  /** The frames among a run of effects. */
  ghost function SentIn(fx: seq<S.Effect>): seq<Body> {
    if fx == [] then []
    else (if fx[0].Sent? then [fx[0].frame] else []) + SentIn(fx[1..])
  }

  lemma {:induction false} SentInAppend(a: seq<S.Effect>, b: seq<S.Effect>)
    ensures SentIn(a + b) == SentIn(a) + SentIn(b)
  {
    if a == [] {
      assert a + b == b;
    } else {
      var first := if a[0].Sent? then [a[0].frame] else [];
      SentInAppend(a[1..], b);
      calc {
        SentIn(a + b);
        { assert (a + b)[0] == a[0] && (a + b)[1..] == a[1..] + b; }
        first + (SentIn(a[1..]) + SentIn(b));
        first + SentIn(a[1..]) + SentIn(b);
        SentIn(a) + SentIn(b);
      }
    }
  }

  lemma {:induction false} SentInFrames(frames: seq<Body>)
    ensures SentIn(S.SentEach(frames)) == frames
  {
    if frames != [] {
      assert S.SentEach(frames)[1..] == S.SentEach(frames[1..]);
      SentInFrames(frames[1..]);
    }
  }

  lemma {:induction false} NamesSendNothing(steps: seq<Cells<NameRecord>>, sent0: seq<Body>)
    ensures sent0 + SentIn(S.NameEach(steps)) == sent0
  {
    if steps != [] {
      assert S.NameEach(steps)[1..] == S.NameEach(steps[1..]);
      NamesSendNothing(steps[1..], sent0);
    }
  }

  lemma {:induction false} SharesSendNothing(steps: seq<Cells<ShareRecord>>, sent0: seq<Body>)
    ensures sent0 + SentIn(S.ShareEach(steps)) == sent0
  {
    if steps != [] {
      assert S.ShareEach(steps)[1..] == S.ShareEach(steps[1..]);
      SharesSendNothing(steps[1..], sent0);
    }
  }

  lemma NothingHappens(journal0: seq<S.Effect>, sent0: seq<Body>)
    ensures journal0 + [] == journal0 && sent0 + SentIn([]) == sent0
  {
  }

  /** Going on: `a` and then `b`, on top of what had already happened. */
  lemma Continues(journal0: seq<S.Effect>, sent0: seq<Body>, a: seq<S.Effect>, b: seq<S.Effect>)
    ensures journal0 + (a + b) == (journal0 + a) + b
    ensures sent0 + SentIn(a + b) == (sent0 + SentIn(a)) + SentIn(b)
  {
    SentInAppend(a, b);
  }

  lemma CommitSays(w: S.World, s: S.State, io: S.Io, t: S.State)
    requires s.pendingName.Some? && SaveSteps(w.hash, s.names, s.pendingName.value, io.name).result.Success?
    requires var steps := SaveSteps(w.hash, s.names, s.pendingName.value, io.name).steps;
      t == s.(pendingName := None, names := Final(s.names, steps))
    ensures var steps := SaveSteps(w.hash, s.names, s.pendingName.value, io.name).steps;
      var named := S.PushOut(w, t, SetName(s.pendingName.value), ());
      S.CommitName(w, s, io) == S.Out(named.post, S.NameEach(steps) + named.fx, named.result)
  {
  }

  class Session {
    const device: S.Device
    const flash: Flash
    const shares: ShareStore
    const names: NameStore
    var signer: Signer
    var acked: bool
    var pendingName: Option<DeviceName>
    var revealing: Option<BackupPhase>
    var recordPending: bool
    var seenPages: nat
    var entry: Option<S.Entry>
    var check: Option<S.Checking>
    /** Every durable write, frame and drawn page, in order. */
    ghost var journal: seq<S.Effect>

    ghost predicate Valid() {
      shares.flash == flash && names.flash == flash
    }

    ghost function Now(): S.State
      reads this, flash
    {
      S.State(signer, acked, pendingName, revealing, recordPending, seenPages, entry, check, flash.shares, flash.names)
    }

    ghost function With(out: Outbox): S.World {
      S.World(device, names.hash, out.encode)
    }

    /** A call did exactly what `o` says, starting from `journal0` and `sent0`. */
    ghost predicate Did<T>(o: S.Out<T>, journal0: seq<S.Effect>, out: Outbox, sent0: seq<Body>)
      reads this, flash, out
    {
      && Now() == o.post
      && journal == journal0 + o.fx
      && out.sent == sent0 + SentIn(o.fx)
    }

    constructor Open(device: S.Device, hash: Hash, flash: Flash)
      ensures Valid() && this.device == device && this.flash == flash && names.hash == hash && journal == []
      ensures Now() == S.Open(flash.shares, flash.names)
    {
      this.device := device;
      this.flash := flash;
      var shareStore := new ShareStore(flash);
      this.shares := shareStore;
      var nameStore := new NameStore(flash, hash);
      this.names := nameStore;
      var reading := shareStore.Load();
      signer := match reading
                case Holds(record) => Replay(BLANK_SIGNER, Mutations(record))
                case _ => BLANK_SIGNER;
      acked := false;
      pendingName := None;
      revealing := None;
      recordPending := false;
      seenPages := 0;
      entry := None;
      check := None;
      journal := [];
    }

    /** `out.push(body)?`. */
    method Push(out: Outbox, body: Body) returns (r: Result<(), Fault>)
      requires Valid() && out.Valid()
      modifies `journal, out
      ensures out.Valid()
      ensures Did(S.PushOut(With(out), old(Now()), body, ()), old(journal), out, old(out.sent))
      ensures r == S.PushOut(With(out), old(Now()), body, ()).result
    {
      ghost var fx := S.SentEach(Pushed(out.encode, body));
      SentInFrames(Pushed(out.encode, body));
      var pushed := out.Push(body);
      journal := journal + fx;
      r := match pushed case Success(_) => Success(()) case Failure(e) => Failure(Comms(e));
    }

    /** The name write of a commit: every state of the cells is journalled. */
    method SaveName(name: DeviceName, io: S.Io) returns (r: Result<(), StoreFault>)
      requires Valid()
      modifies `journal, flash`names
      ensures var saved := SaveSteps(names.hash, old(flash.names), name, io.name);
        && Now() == old(Now()).(names := Final(old(flash.names), saved.steps))
        && journal == old(journal) + S.NameEach(saved.steps)
        && r == saved.result
    {
      ghost var steps := SaveSteps(names.hash, flash.names, name, io.name).steps;
      r := names.Save(name, io.name);
      journal := journal + S.NameEach(steps);
    }

    method CommitName(io: S.Io, out: Outbox) returns (r: Result<(), Fault>)
      requires Valid() && out.Valid()
      modifies this, flash, out
      ensures out.Valid()
      ensures var o := S.CommitName(With(out), old(Now()), io);
        Did(o, old(journal), out, old(out.sent)) && r == o.result
    {
      NothingHappens(journal, out.sent);
      if pendingName.None? {
        return Success(());
      }
      var name := pendingName.value;
      pendingName := None;
      ghost var steps := SaveSteps(names.hash, flash.names, name, io.name).steps;
      NamesSendNothing(steps, out.sent);
      var saved := SaveName(name, io);
      if saved.Failure? {
        return Failure(Store(saved.error));
      }
      ghost var w, s, t := With(out), old(Now()), Now();
      ghost var named := S.PushOut(w, t, SetName(name), ());
      CommitSays(w, s, io, t);
      Continues(old(journal), out.sent, S.NameEach(steps), named.fx);
      r := Push(out, SetName(name));
      assert With(out) == w && S.CommitName(w, s, io).fx == S.NameEach(steps) + named.fx;
    }

    /** Persist what is staged: every state of the cells is journalled. */
    method PersistStaged(io: S.Io) returns (r: Result<(), StoreFault>)
      requires Valid()
      modifies this, flash
      ensures var p := Persist(old(flash.shares), old(signer).staged, io.share);
        && Now() == old(Now()).(shares := Final(old(flash.shares), p.steps), signer := old(signer).(staged := p.staged))
        && journal == old(journal) + S.ShareEach(p.steps)
        && r == p.result
    {
      ghost var p := Persist(flash.shares, signer.staged, io.share);
      var left;
      left, r := shares.PersistStaged(signer.staged, io.share);
      signer := signer.(staged := left);
      journal := journal + S.ShareEach(p.steps);
    }

    /** Persist first; then run the queue to quiescence. */
    method Run(sends: seq<Send>, io: S.Io, out: Outbox) returns (r: Result<seq<Prompt>, Fault>)
      requires Valid() && out.Valid()
      modifies this, flash, out
      ensures out.Valid()
      ensures var o := S.Run(With(out), old(Now()), sends, io);
        Did(o, old(journal), out, old(out.sent)) && r == o.result
    {
      ghost var steps := Persist(flash.shares, signer.staged, io.share).steps;
      SharesSendNothing(steps, out.sent);
      var saved := PersistStaged(io);
      if saved.Failure? {
        return Failure(Store(saved.error));
      }
      Continues(old(journal), out.sent, S.ShareEach(steps), S.Drain(With(out), Now(), sends, [], io).fx);
      r := Drained(sends, io, out);
    }

    /** The loop of `Run`. */
    method Drained(sends: seq<Send>, io: S.Io, out: Outbox) returns (r: Result<seq<Prompt>, Fault>)
      requires Valid() && out.Valid()
      modifies this, flash, out
      ensures out.Valid()
      ensures var o := S.Drain(With(out), old(Now()), sends, [], io);
        Did(o, old(journal), out, old(out.sent)) && r == o.result
    {
      ghost var whole := S.Drain(With(out), Now(), sends, [], io);
      NothingHappens(journal, out.sent);
      var work := sends;
      r := Success([]);
      while work != []
        invariant out.Valid() && r.Success?
        invariant Ends(S.Drain(With(out), Now(), work, r.value, io), whole, old(journal), out, old(out.sent))
        decreases |work|
      {
        ghost var h := S.Handle(With(out), Now(), work[0], r.value, io);
        ghost var rest := S.Drain(With(out), Now(), work, r.value, io);
        ghost var before, sent := journal, out.sent;
        r := Handled(work[0], r.value, io, out);
        if r.Failure? {
          return;
        }
        work := work[1..];
        Continues(before, sent, h.fx, S.Drain(With(out), Now(), work, r.value, io).fx);
      }
      NothingHappens(journal, out.sent);
    }

    /** What is left to happen, on top of what has, is what the whole call does. */
    ghost predicate Ends<T>(rest: S.Out<T>, whole: S.Out<T>, journal0: seq<S.Effect>, out: Outbox, sent0: seq<Body>)
      reads this, out
    {
      && rest.post == whole.post
      && rest.result == whole.result
      && journal + rest.fx == journal0 + whole.fx
      && out.sent + SentIn(rest.fx) == sent0 + SentIn(whole.fx)
    }

    /** One element of the queue. */
    method Handled(send: Send, prompts: seq<Prompt>, io: S.Io, out: Outbox) returns (r: Result<seq<Prompt>, Fault>)
      requires Valid() && out.Valid()
      modifies this, flash, out
      ensures out.Valid()
      ensures var o := S.Handle(With(out), old(Now()), send, prompts, io);
        Did(o, old(journal), out, old(out.sent)) && r == o.result
    {
      NothingHappens(journal, out.sent);
      if send.ToUser? && send.prompt.FinalizeKeyGen? {
        var committed := CommitName(io, out);
        return match committed case Failure(f) => Failure(f) case Success(_) => Success(prompts + [send.prompt]);
      }
      var body := match send
        case ToCoordinator(message) => Some(FromCore(message))
        case ToUser(NonceJobs(segments)) => Some(FromCore(NonceResponse(segments)))
        case ToUser(_) => None;
      if body.None? {
        return Success(prompts + [send.prompt]);
      }
      var pushed := Push(out, body.value);
      r := match pushed case Failure(f) => Failure(f) case Success(_) => Success(prompts);
    }

    /** `Cancel`: no grant, no unanswered question and no previewed name outlives it. */
    method DropEverything()
      modifies this
      ensures Now() == S.Cancelled(old(Now())) && journal == old(journal)
    {
      signer := ClearTmp(signer);
      pendingName := None;
      revealing := None;
      recordPending := false;
      entry := None;
      check := None;
    }

    method Recv(body: CoordinatorBody, io: S.Io, out: Outbox) returns (r: Result<seq<Prompt>, Fault>)
      requires Valid() && out.Valid()
      modifies this, flash, out
      ensures out.Valid()
      ensures var o := S.Recv(With(out), old(Now()), body, io);
        Did(o, old(journal), out, old(out.sent)) && r == o.result
    {
      NothingHappens(journal, out.sent);
      match body {
        case Core(core) => r := RecvCore(core, io, out);
        case Preview(name) =>
          pendingName := Some(name);
          r := Success([]);
        case RetiredPrompt(_) => r := Success([]);
        case AnnounceAck =>
          acked := true;
          r := Success([]);
        case Cancel =>
          DropEverything();
          r := Success([]);
        case Upgrade => r := Failure(Refused(FirmwareUpgrade));
        case DataErase => r := Failure(Refused(Refusal.EraseRefused));
        case Challenge => r := Failure(Refused(GenuineChallenge));
      }
    }

    method RecvCore(core: CoreMessage, io: S.Io, out: Outbox) returns (r: Result<seq<Prompt>, Fault>)
      requires Valid() && out.Valid()
      modifies this, flash, out
      ensures out.Valid()
      ensures var o := S.RecvCore(With(out), old(Now()), core, io);
        Did(o, old(journal), out, old(out.sent)) && r == o.result
    {
      NothingHappens(journal, out.sent);
      match core {
        case KeyGen(Begin(_, devices, threshold, _, _, _, _)) =>
          if devices > S.MAX_PARTIES || threshold == 0 || threshold > devices {
            return Failure(Refused(GroupTooLarge));
          }
          r := Dispatch(core, io, out);
        case VerifyAddress(key, derivationIndex) =>
          if key !in signer.keys || !signer.keys[key].purpose.Bitcoin? {
            return Failure(Refused(AddressVerify));
          }
          r := Run([ToUser(ShowAddress(key, derivationIndex))], io, out);
        case _ =>
          r := Dispatch(core, io, out);
      }
    }

    method Dispatch(core: CoreMessage, io: S.Io, out: Outbox) returns (r: Result<seq<Prompt>, Fault>)
      requires Valid() && out.Valid() && !core.VerifyAddress?
      modifies this, flash, out
      ensures out.Valid()
      ensures var o := S.Dispatch(With(out), old(Now()), core, io);
        Did(o, old(journal), out, old(out.sent)) && r == o.result
    {
      NothingHappens(journal, out.sent);
      var answer := Receive(signer, core);
      signer := answer.signer;
      if answer.sends.Failure? {
        return Failure(SignerFault);
      }
      r := Run(answer.sends.value, io, out);
    }

    method ConfirmAt(prompt: Prompt, page: nat, chance: S.Chance, io: S.Io, out: Outbox)
      returns (r: Result<seq<Prompt>, Fault>)
      requires Valid() && out.Valid()
      modifies this, flash, out
      ensures out.Valid()
      ensures var o := S.ConfirmAt(With(out), old(Now()), prompt, page, S.ChoiceOf(device, prompt, chance), io);
        Did(o, old(journal), out, old(out.sent)) && r == o.result
    {
      NothingHappens(journal, out.sent);
      match PromptScreen(prompt, page) {
        case Success(Page(true)) =>
        case Success(_) => return Failure(NotConfirmable);
        case Failure(refusal) => return Failure(Refused(refusal));
      }
      r := Granted(prompt, S.ChoiceOf(device, prompt, chance), io, out);
    }

    /** A new reveal grant starts with nothing seen and no question outstanding. */
    method GrantReveal(phase: BackupPhase) returns (r: Result<seq<Prompt>, Fault>)
      modifies this
      ensures var o := S.GrantReveal(device, old(Now()), phase);
        Now() == o.post && journal == old(journal) && r == o.result
    {
      var pages := S.RevealPages(device, phase);
      if pages.Failure? {
        return Failure(pages.error);
      }
      recordPending := false;
      seenPages := 0;
      revealing := Some(phase);
      r := Success([]);
    }

    method GrantCheck(phase: BackupPhase, draw: Draw) returns (r: Result<seq<Prompt>, Fault>)
      modifies this
      ensures var o := S.GrantCheck(device, old(Now()), phase, draw);
        Now() == o.post && journal == old(journal) && r == o.result
    {
      var words := device.decrypt[phase];
      if words.None? {
        return Failure(ActionFault);
      }
      var quiz := NewQuiz(words.value, device.list, draw);
      if quiz.None? {
        return Failure(Refused(Refusal.PhysicalBackup));
      }
      check := Some(S.Checking(quiz.value, phase.ref, phase.index));
      r := Success([]);
    }

    method Granted(prompt: Prompt, choice: S.Choice, io: S.Io, out: Outbox)
      returns (r: Result<seq<Prompt>, Fault>)
      requires Valid() && out.Valid()
      modifies this, flash, out
      ensures out.Valid()
      ensures var o := S.Granted(With(out), old(Now()), prompt, choice, io);
        Did(o, old(journal), out, old(out.sent)) && r == o.result
    {
      var acted := S.Acts(signer, prompt, choice);
      if acted.Some? {
        r := RunOn(acted.value, io, out);
      } else {
        NothingHappens(journal, out.sent);
        r := Opens(prompt, choice);
      }
    }

    method Opens(prompt: Prompt, choice: S.Choice) returns (r: Result<seq<Prompt>, Fault>)
      modifies this
      ensures var o := S.Opens(device, old(Now()), prompt, choice);
        Now() == o.post && o.fx == [] && journal == old(journal) && r == o.result
    {
      match prompt {
        case SignatureRequest(_) =>
          r := Failure(ActionFault);
        case AskReveal(phase) =>
          r := GrantReveal(phase);
        case AskEntry(id) =>
          entry := Some(S.Entry(id, Entries.Fresh(device.list)));
          r := Success([]);
        case AskCheck(phase) =>
          r := GrantCheck(phase, choice.draw);
        case _ =>
          r := Failure(NotConfirmable);
      }
    }

    /** The signer has acted: run what it sends. */
    method RunOn(acted: Acted, io: S.Io, out: Outbox) returns (r: Result<seq<Prompt>, Fault>)
      requires Valid() && out.Valid()
      modifies this, flash, out
      ensures out.Valid()
      ensures var o := S.RunOn(With(out), old(Now()), acted, io);
        Did(o, old(journal), out, old(out.sent)) && r == o.result
    {
      signer := acted.signer;
      r := Run(acted.sends, io, out);
    }

    /** The grant is taken at entry and put back only while pages remain; `frame` is what was drawn. */
    method ShowBackup(page: nat, noise: PageNoise) returns (r: Result<bool, Fault>, frame: Option<Frame>)
      requires Valid()
      modifies this
      ensures var o := S.ShowBackup(device, old(Now()), page);
        Now() == o.post && journal == old(journal) + o.fx && r == o.result
      ensures r == Success(true) ==> frame == S.Drawing(device, old(revealing).value, page, noise)
      ensures r != Success(true) ==> frame.None?
    {
      var taken := revealing;
      revealing := None;
      frame := None;
      if taken.None? {
        return Failure(Refused(DisplayRefused)), None;
      }
      var phase := taken.value;
      var pages := S.RevealPages(device, phase);
      if pages.Failure? {
        return Failure(pages.error), None;
      }
      var drawn := Draws(page);
      if drawn {
        frame := Some(Rendered(phase.index, pages.value, page, noise));
        var bit := PageBit(page);
        seenPages := if bit.Some? then Or(seenPages, bit.value) else seenPages;
        revealing := Some(phase);
        journal := journal + [S.Drew(phase, page)];
      } else {
        var all := AllPages(PAGE_COUNT);
        recordPending := all.Some? && all.value == seenPages;
      }
      r := Success(drawn);
    }

    method BackupRecorded(out: Outbox) returns (r: Result<(), Fault>)
      requires Valid() && out.Valid()
      modifies this, out
      ensures out.Valid()
      ensures var o := S.Recorded(With(out), old(Now()));
        Did(o, old(journal), out, old(out.sent)) && r == o.result
    {
      NothingHappens(journal, out.sent);
      var pending := recordPending;
      recordPending := false;
      if !pending {
        return Failure(Refused(DisplayRefused));
      }
      r := Push(out, Body.BackupRecorded);
    }

    method EntryKey(key: char, io: S.Io, out: Outbox) returns (r: Result<S.Typed, Fault>)
      requires Valid() && out.Valid()
      modifies this, flash, out
      ensures out.Valid()
      ensures var o := S.EntryKey(With(out), old(Now()), S.Typing(device, old(Now()), key), io);
        Did(o, old(journal), out, old(out.sent)) && r == o.result
    {
      NothingHappens(journal, out.sent);
      var taken := entry;
      entry := None;
      if taken.None? {
        return Failure(Refused(Refusal.PhysicalBackup));
      }
      var step := S.Keying(device, taken.value, key);
      match step {
        case EntryUnchanged =>
          entry := taken;
          r := Success(S.TypedUnchanged);
        case EntryRedraw(next) =>
          entry := Some(next.(id := taken.value.id));
          r := Success(S.TypedRedraw);
        case EntryAbort =>
          r := Success(S.TypedEnded([]));
        case Entered(image) =>
          var ran := RunOn(LoadTyped(signer, taken.value.id, image), io, out);
          r := match ran case Failure(f) => Failure(f) case Success(prompts) => Success(S.TypedEnded(prompts));
      }
    }

    method QuizKey(key: char, rng: Entropy, out: Outbox) returns (r: Result<S.Checked, Fault>)
      requires Valid() && out.Valid()
      modifies this, out
      ensures out.Valid()
      ensures var o := S.QuizKey(With(out), old(Now()), key, S.RedrawFor(device, old(Now()), key, rng));
        Did(o, old(journal), out, old(out.sent)) && r == o.result
    {
      NothingHappens(journal, out.sent);
      var taken := check;
      check := None;
      if taken.None? {
        return Failure(Refused(Refusal.PhysicalBackup));
      }
      var live := taken.value;
      var (quiz, step) := Press(live.quiz, key, Redrawn(live.quiz, key, device.list, rng));
      match step {
        case Unchanged =>
          check := Some(live.(quiz := quiz));
          r := Success(S.CheckedUnchanged);
        case Redraw =>
          check := Some(live.(quiz := quiz));
          r := Success(S.CheckedRedraw);
        case Abort =>
          r := Success(S.CheckedEnded(None));
        case Passed =>
          var pushed := Push(out, BackupChecked(live.ref, live.index));
          if pushed.Failure? {
            return Failure(pushed.error);
          }
          r := Success(S.CheckedEnded(Some(QUIZ_POSITIONS)));
      }
    }

    /** Hello: the announce first, then the name on flash or the lack of one. */
    method Announce(digest: nat, out: Outbox) returns (r: Result<(), Fault>)
      requires Valid() && out.Valid()
      modifies `journal, out
      ensures out.Valid()
      ensures var o := S.AnnounceOut(With(out), old(Now()), digest);
        Did(o, old(journal), out, old(out.sent)) && r == o.result
    {
      ghost var hello := S.PushOut(With(out), Now(), Body.Announce(digest), ());
      r := Push(out, Body.Announce(digest));
      if r.Failure? {
        return;
      }
      var name := names.Load();
      var body := match name case Some(stored) => SetName(S.CutName(stored)) case None => NeedName;
      ghost var named := S.PushOut(With(out), Now(), body, ());
      Continues(old(journal), old(out.sent), hello.fx, named.fx);
      r := Push(out, body);
    }
  }
}
