/**
 The device session as functions on values: what each call does to the state, what it writes and
 sends on the way, in order, and what it answers. The class `Sessions.Session` carries it out in place; the run theorems
 are proved about these functions.
 */
module SessionSpec {
  import opened Wrappers
  import opened Utf8
  import opened Wire
  import opened AbSlots
  import opened Storage
  import opened NameStores
  import opened Signers
  import opened ShareStores
  import opened Outboxes
  import opened Screens
  import E = Entries
  import opened RandomDraws
  import opened Quizzes
  import opened BackupPages
  import opened Glass
  import opened PageBits

  const MAX_PARTIES: nat := 12

  /** What each consented phase decrypts to, if it decrypts. */
  type Decryption = d: imap<BackupPhase, Option<seq<string>>> | forall p :: p in d
    ghost witness imap p: BackupPhase :: None

  /** What does not change while a device lives: its key derivation, its word list and the checksum of a share. */
  datatype Device = Device(decrypt: Decryption, list: seq<string>, checks: E.Checksum)

  /** The device, the hash its name store checks with, and the framing of the outbox it is handed. */
  datatype World = World(device: Device, hash: Hash, encode: Encoder)

  /** A transcription under way, and what has been typed so far. */
  datatype Entry = Entry(id: EnterId, typing: E.Held)

  datatype Checking = Checking(quiz: Quiz, ref: AccessRef, index: ShareIndex)

  datatype State = State(
    signer: Signer,
    acked: bool,
    pendingName: Option<DeviceName>,
    revealing: Option<BackupPhase>,
    recordPending: bool,
    seenPages: nat,
    entry: Option<Entry>,
    check: Option<Checking>,
    shares: Cells<ShareRecord>,
    names: Cells<NameRecord>)

  /** One thing a call does to the world outside its own memory. */
  datatype Effect =
    | ShareCells(shares: Cells<ShareRecord>)
    | NameCells(names: Cells<NameRecord>)
    | Sent(frame: Body)
    | Drew(backup: BackupPhase, page: nat)

  /** How this call's flash writes go. */
  datatype Io = Io(share: WritePlan, name: WritePlan)

  datatype Out<T> = Out(post: State, fx: seq<Effect>, result: Result<T, Fault>)

  function ShareEach(steps: seq<Cells<ShareRecord>>): seq<Effect> {
    if steps == [] then [] else [ShareCells(steps[0])] + ShareEach(steps[1..])
  }

  function NameEach(steps: seq<Cells<NameRecord>>): seq<Effect> {
    if steps == [] then [] else [NameCells(steps[0])] + NameEach(steps[1..])
  }

  function SentEach(frames: seq<Body>): seq<Effect> {
    if frames == [] then [] else [Sent(frames[0])] + SentEach(frames[1..])
  }

  /** `out.push(body)?`: the frames it leaves, and the fault it returns. */
  function PushOut<T>(w: World, s: State, body: Body, value: T): Out<T> {
    Out(s, SentEach(Pushed(w.encode, body)),
        match PushResult(w.encode, body) case Success(_) => Success(value) case Failure(e) => Failure(Comms(e)))
  }

  // ---- boot

  /** `Session::open`: a signer replayed from the share record, and no grant of any kind. */
  function Open(shares: Cells<ShareRecord>, names: Cells<NameRecord>): State {
    State(Reloaded(shares), false, None, None, false, 0, None, None, shares, names)
  }

  // ---- the work queue

  function CommitName(w: World, s: State, io: Io): Out<()> {
    match s.pendingName
    case None => Out(s, [], Success(()))
    case Some(name) =>
      var saved := SaveSteps(w.hash, s.names, name, io.name);
      var t := s.(pendingName := None, names := Final(s.names, saved.steps));
      match saved.result {
        case Failure(e) => Out(t, NameEach(saved.steps), Failure(Store(e)))
        case Success(_) =>
          var p := PushOut(w, t, SetName(name), ());
          p.(fx := NameEach(saved.steps) + p.fx)
      }
  }

  /** One element of the queue. */
  function Handle(w: World, s: State, send: Send, prompts: seq<Prompt>, io: Io): Out<seq<Prompt>> {
    match send
    case ToCoordinator(message) => PushOut(w, s, FromCore(message), prompts)
    case ToUser(prompt) =>
      match prompt
      case NonceJobs(segments) => PushOut(w, s, FromCore(NonceResponse(segments)), prompts)
      case FinalizeKeyGen(_) =>
        var c := CommitName(w, s, io);
        Out(c.post, c.fx,
            match c.result case Failure(f) => Failure(f) case Success(_) => Success(prompts + [prompt]))
      case _ => Out(s, [], Success(prompts + [prompt]))
  }

  /** The loop of `run`, from some point of its queue. */
  function Drain(w: World, s: State, work: seq<Send>, prompts: seq<Prompt>, io: Io): Out<seq<Prompt>>
    decreases |work|
  {
    if work == [] then Out(s, [], Success(prompts))
    else
      var h := Handle(w, s, work[0], prompts, io);
      match h.result {
        case Failure(f) => h
        case Success(prompts') =>
          var rest := Drain(w, h.post, work[1..], prompts', io);
          rest.(fx := h.fx + rest.fx)
      }
  }

  /** `run`: persist what is staged, and only then let the queue reach the outbox. */
  function Run(w: World, s: State, sends: seq<Send>, io: Io): Out<seq<Prompt>> {
    var p := Persist(s.shares, s.signer.staged, io.share);
    var t := s.(shares := Final(s.shares, p.steps), signer := s.signer.(staged := p.staged));
    match p.result {
      case Failure(e) => Out(t, ShareEach(p.steps), Failure(Store(e)))
      case Success(_) =>
        var d := Drain(w, t, sends, [], io);
        d.(fx := ShareEach(p.steps) + d.fx)
    }
  }

  /** The signer has acted: run what it sends. */
  function RunOn(w: World, s: State, acted: Acted, io: Io): Out<seq<Prompt>> {
    Run(w, s.(signer := acted.signer), acted.sends, io)
  }

  // ---- coordinator messages

  function Refuse<T>(s: State, refusal: Refusal): Out<T> {
    Out(s, [], Failure(Refused(refusal)))
  }

  function Cancelled(s: State): State {
    s.(signer := ClearTmp(s.signer), pendingName := None, revealing := None, recordPending := false,
       entry := None, check := None)
  }

  function Recv(w: World, s: State, body: CoordinatorBody, io: Io): Out<seq<Prompt>> {
    match body
    case Core(core) => RecvCore(w, s, core, io)
    case Preview(name) => Out(s.(pendingName := Some(name)), [], Success([]))
    case RetiredPrompt(_) => Out(s, [], Success([]))
    case AnnounceAck => Out(s.(acked := true), [], Success([]))
    case Cancel => Out(Cancelled(s), [], Success([]))
    case Upgrade => Refuse(s, FirmwareUpgrade)
    case DataErase => Refuse(s, Refusal.EraseRefused)
    case Challenge => Refuse(s, GenuineChallenge)
  }

  /** The heap bound on a new group, and the thresholds no group can meet. */
  predicate GroupFits(devices: nat, threshold: nat) {
    devices <= MAX_PARTIES && 0 < threshold <= devices
  }

  function RecvCore(w: World, s: State, core: CoreMessage, io: Io): Out<seq<Prompt>> {
    match core
    case KeyGen(Begin(_, devices, threshold, _, _, _, _)) =>
      if GroupFits(devices, threshold) then Dispatch(w, s, core, io) else Refuse(s, GroupTooLarge)
    case VerifyAddress(key, derivationIndex) =>
      if key in s.signer.keys && s.signer.keys[key].purpose.Bitcoin?
      then Run(w, s, [ToUser(ShowAddress(key, derivationIndex))], io)
      else Refuse(s, AddressVerify)
    case _ => Dispatch(w, s, core, io)
  }

  function Dispatch(w: World, s: State, core: CoreMessage, io: Io): Out<seq<Prompt>>
    requires !core.VerifyAddress?
  {
    var answer := Receive(s.signer, core);
    var t := s.(signer := answer.signer);
    match answer.sends {
      case Failure(_) => Out(t, [], Failure(SignerFault))
      case Success(sends) => Run(w, t, sends, io)
    }
  }

  // ---- confirmations

  /** What the cryptography and the random draws behind one confirmation yield. */
  datatype Choice = Choice(ciphertext: nat, signature: Option<nat>, draw: Draw)

  /** The same, with the random words the draws are made of. */
  datatype Chance = Chance(ciphertext: nat, signature: Option<nat>, rng: Entropy)

  function ChoiceOf(d: Device, prompt: Prompt, chance: Chance): Choice {
    Choice(chance.ciphertext, chance.signature, DrawFor(d, prompt, chance.rng))
  }

  /** What a confirmation draws: a quiz's order and candidates, where it opens one. */
  function DrawFor(d: Device, prompt: Prompt, rng: Entropy): Draw {
    if prompt.AskCheck? && d.decrypt[prompt.backup].Some?
    then FreshDraw(d.decrypt[prompt.backup].value, d.list, rng) else Draw([], None)
  }

  /** `backup_pages`: the words of a backup this device can draw in full. */
  function RevealPages(d: Device, phase: BackupPhase): Result<seq<string>, Fault> {
    match d.decrypt[phase]
    case None => Failure(ActionFault)
    case Some(words) =>
      if phase.index < U32 && Renderable(words) then Success(words) else Failure(Refused(DisplayRefused))
  }

  function ConfirmAt(w: World, s: State, prompt: Prompt, page: nat, choice: Choice, io: Io): Out<seq<Prompt>> {
    match PromptScreen(prompt, page)
    case Failure(refusal) => Refuse(s, refusal)
    case Success(shown) =>
      if shown != Page(true) then Out(s, [], Failure(NotConfirmable)) else Granted(w, s, prompt, choice, io)
  }

  function GrantReveal(d: Device, s: State, phase: BackupPhase): Out<seq<Prompt>> {
    match RevealPages(d, phase)
    case Failure(f) => Out(s, [], Failure(f))
    case Success(_) =>
      Out(s.(recordPending := false, seenPages := 0, revealing := Some(phase)), [], Success([]))
  }

  function GrantCheck(d: Device, s: State, phase: BackupPhase, draw: Draw): Out<seq<Prompt>> {
    match d.decrypt[phase]
    case None => Out(s, [], Failure(ActionFault))
    case Some(words) =>
      match NewQuiz(words, d.list, draw)
      case None => Refuse(s, Refusal.PhysicalBackup)
      case Some(quiz) => Out(s.(check := Some(Checking(quiz, phase.ref, phase.index))), [], Success([]))
  }

  /** The consents the signer acts on at once, and what it then has to send. */
  function Acts(signer: Signer, prompt: Prompt, choice: Choice): Option<Acted> {
    match prompt
    case CheckKeyGen(phase) => Some(AckKeygen(signer, phase, choice.ciphertext))
    case AskConsolidate(phase) => Some(FinishConsolidation(signer, phase, choice.ciphertext))
    case SignatureRequest(phase) =>
      (match choice.signature
       case None => None
       case Some(signatures) => Some(Acted(signer, [ToCoordinator(SignatureShare(phase.session, signatures))])))
    case _ => None
  }

  /** The consents that only open a flow, and the prompts no press can answer. */
  function Opens(d: Device, s: State, prompt: Prompt, choice: Choice): Out<seq<Prompt>> {
    match prompt
    case AskReveal(phase) => GrantReveal(d, s, phase)
    case AskEntry(id) => Out(s.(entry := Some(Entry(id, E.Fresh(d.list)))), [], Success([]))
    case AskCheck(phase) => GrantCheck(d, s, phase, choice.draw)
    case SignatureRequest(_) => Out(s, [], Failure(ActionFault))
    case _ => Out(s, [], Failure(NotConfirmable))
  }

  /** What a yes on the authorising page buys. */
  function Granted(w: World, s: State, prompt: Prompt, choice: Choice, io: Io): Out<seq<Prompt>> {
    match Acts(s.signer, prompt, choice)
    case Some(acted) => RunOn(w, s, acted, io)
    case None => Opens(w.device, s, prompt, choice)
  }

  // ---- the granted flows

  function ShowBackup(d: Device, s: State, page: nat): Out<bool> {
    match s.revealing
    case None => Refuse(s, DisplayRefused)
    case Some(phase) =>
      match RevealPages(d, phase)
      case Failure(f) => Out(s.(revealing := None), [], Failure(f))
      case Success(_) =>
        if Draws(page) then
          Out(s.(seenPages := Mark(s.seenPages, page)), [Drew(phase, page)], Success(true))
        else
          Out(s.(revealing := None, recordPending := AllPages(PAGE_COUNT) == Some(s.seenPages)), [], Success(false))
  }

  /** What a drawn page of a backup puts on the glass. */
  function Drawing(d: Device, phase: BackupPhase, page: nat, noise: PageNoise): Option<Frame> {
    if RevealPages(d, phase).Success? && Draws(page)
    then Some(Rendered(phase.index, RevealPages(d, phase).value, page, noise)) else None
  }

  function Recorded(w: World, s: State): Out<()> {
    if !s.recordPending then Refuse(s, DisplayRefused)
    else PushOut(w, s.(recordPending := false), BackupRecorded, ())
  }

  /** What the transcription makes of one key. */
  datatype EntryStep = EntryUnchanged | EntryRedraw(next: Entry) | EntryAbort | Entered(image: ShareImage)

  /** What the entry machine makes of a key. */
  function Keying(d: Device, entry: Entry, key: char): EntryStep {
    var (typing, step) := E.Keyed(d.list, d.checks, entry.typing, key);
    match step
    case Unchanged => EntryUnchanged
    case Redraw => EntryRedraw(entry.(typing := typing))
    case Abort => EntryAbort
    case Spelled(image) => Entered(image)
  }

  /** What the transcription under way, if there is one, makes of a key. */
  function Typing(d: Device, s: State, key: char): EntryStep {
    match s.entry case None => EntryUnchanged case Some(entry) => Keying(d, entry, key)
  }

  datatype Typed = TypedUnchanged | TypedRedraw | TypedEnded(prompts: seq<Prompt>)

  function EntryKey(w: World, s: State, step: EntryStep, io: Io): Out<Typed> {
    match s.entry
    case None => Refuse(s, Refusal.PhysicalBackup)
    case Some(entry) =>
      match step
      case EntryUnchanged => Out(s, [], Success(TypedUnchanged))
      case EntryRedraw(next) => Out(s.(entry := Some(next.(id := entry.id))), [], Success(TypedRedraw))
      case EntryAbort => Out(s.(entry := None), [], Success(TypedEnded([])))
      case Entered(image) =>
        var r := RunOn(w, s.(entry := None), LoadTyped(s.signer, entry.id, image), io);
        Out(r.post, r.fx,
            match r.result case Failure(f) => Failure(f) case Success(prompts) => Success(TypedEnded(prompts)))
  }

  datatype Checked = CheckedUnchanged | CheckedRedraw | CheckedEnded(checked: Option<nat>)

  /** What a key to a live check draws. */
  function RedrawFor(d: Device, s: State, key: char, rng: Entropy): Option<seq<string>> {
    match s.check case None => None case Some(check) => Redrawn(check.quiz, key, d.list, rng)
  }

  function QuizKey(w: World, s: State, key: char, redraw: Option<seq<string>>): Out<Checked> {
    match s.check
    case None => Refuse(s, Refusal.PhysicalBackup)
    case Some(check) =>
      var (quiz, step) := Press(check.quiz, key, redraw);
      match step {
        case Unchanged => Out(s.(check := Some(check.(quiz := quiz))), [], Success(CheckedUnchanged))
        case Redraw => Out(s.(check := Some(check.(quiz := quiz))), [], Success(CheckedRedraw))
        case Abort => Out(s.(check := None), [], Success(CheckedEnded(None)))
        case Passed =>
          PushOut(w, s.(check := None), BackupChecked(check.ref, check.index), CheckedEnded(Some(QUIZ_POSITIONS)))
      }
  }

  /** `DeviceName::truncate`. */
  function CutName(name: Str): DeviceName {
    TakeChars(name, DEVICE_NAME_MAX_LENGTH)
  }

  /** What is said of the name on flash. */
  function NameToSay(w: World, s: State): Body {
    match LoadedName(w.hash, s.names) case Some(name) => SetName(CutName(name)) case None => NeedName
  }

  function AnnounceOut(w: World, s: State, digest: nat): Out<()> {
    var hello := PushOut(w, s, Announce(digest), ());
    match hello.result {
      case Failure(_) => hello
      case Success(_) =>
        var named := PushOut(w, s, NameToSay(w, s), ());
        named.(fx := hello.fx + named.fx)
    }
  }

  // ---- any call

  datatype Op =
    | OpRecv(body: CoordinatorBody)
    | OpConfirm(prompt: Prompt, page: nat, choice: Choice)
    | OpShow(page: nat)
    | OpRecorded
    | OpEntry(step: EntryStep)
    | OpQuiz(key: char, redraw: Option<seq<string>>)
    | OpAnnounce(digest: nat)

  /** What any call leaves behind and did on the way; its answer goes to its caller alone. */
  datatype Turn = Turn(post: State, fx: seq<Effect>)

  function Told<T>(o: Out<T>): Turn {
    Turn(o.post, o.fx)
  }

  function Exec(w: World, s: State, op: Op, io: Io): Turn {
    match op
    case OpRecv(body) => Told(Recv(w, s, body, io))
    case OpConfirm(prompt, page, choice) => Told(ConfirmAt(w, s, prompt, page, choice, io))
    case OpShow(page) => Told(ShowBackup(w.device, s, page))
    case OpRecorded => Told(Recorded(w, s))
    case OpEntry(step) => Told(EntryKey(w, s, step, io))
    case OpQuiz(key, redraw) => Told(QuizKey(w, s, key, redraw))
    case OpAnnounce(digest) => Told(AnnounceOut(w, s, digest))
  }
}
