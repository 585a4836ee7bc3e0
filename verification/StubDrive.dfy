/** The scripted human's whole visit to one share: consent to a reveal, copy it down, consent to a check, pass it. */
module StubDrive {
  import opened Wrappers
  import opened Wire
  import opened Screens
  import opened BackupPages
  import opened Glass
  import opened QuizGlass
  import opened Quizzes
  import opened RandomDraws
  import opened Outboxes
  import opened Sessions
  import opened Stub
  import opened StubQuiz
  import opened WordLists
  import opened Entries
  import opened EntryGlass
  import opened StubEntry
  import opened Durability
  import S = SessionSpec

  datatype VisitDeath = NotGranted(fault: Fault) | RevealDied(death: Death) | QuizDied(why: QuizDeath)
    | TypingDied(cause: TypingDeath)

  // ---- what a yes on page 0 opens

  lemma RevealOpens(w: S.World, s: S.State, phase: BackupPhase, choice: S.Choice, io: S.Io)
    requires Authorises(AskReveal(phase), 0) && S.RevealPages(w.device, phase).Success?
    ensures S.ConfirmAt(w, s, AskReveal(phase), 0, choice, io)
         == S.Out(s.(recordPending := false, seenPages := 0, revealing := Some(phase)), [], Success([]))
  {
  }

  lemma CheckOpens(w: S.World, s: S.State, phase: BackupPhase, choice: S.Choice, io: S.Io)
    requires Authorises(AskCheck(phase), 0) && w.device.decrypt[phase].Some?
    requires NewQuiz(w.device.decrypt[phase].value, w.device.list, choice.draw).Some?
    ensures var quiz := NewQuiz(w.device.decrypt[phase].value, w.device.list, choice.draw).value;
      S.ConfirmAt(w, s, AskCheck(phase), 0, choice, io)
        == S.Out(s.(check := Some(S.Checking(quiz, phase.ref, phase.index))), [], Success([]))
  {
  }

  // ---- one consent and its walk

  /** The share decrypts, its question fits the glass, and everything said of it fits its frame. */
  ghost predicate Revealable(session: Session, out: Outbox, phase: BackupPhase, words: seq<string>)
    reads session, out
  {
    && Authorises(AskReveal(phase), 0) && S.RevealPages(session.device, phase) == Success(words)
    && AllSaid(out.encode, phase.index, words)
  }

  method ConsentToReveal(session: Session, out: Outbox, phase: BackupPhase, chance: S.Chance, io: S.Io, sheet0: Sheet,
                         noise: seq<PageNoise>, confirm: char, ghost words: seq<string>)
    returns (r: Result<Sheet, VisitDeath>)
    requires session.Valid() && out.Valid() && |noise| > PAGE_CAP
    modifies session, session.flash, out
    ensures out.Valid()
    ensures old(Revealable(session, out, phase, words)) ==>
      && r == Success(SheetBefore(sheet0, phase.index, words, PAGE_COUNT))
      && out.sent == (old(out.sent) + Reports(phase.index, words, PAGE_COUNT)) + [Body.BackupRecorded]
      && session.revealing.None? && !session.recordPending
  {
    if Revealable(session, out, phase, words) {
      RevealOpens(session.With(out), session.Now(), phase, S.ChoiceOf(session.device, AskReveal(phase), chance), io);
      NothingHappens(session.journal, out.sent);
    }
    var granted := session.ConfirmAt(AskReveal(phase), 0, chance, io, out);
    if granted.Failure? {
      return Failure(NotGranted(granted.error));
    }
    var walked := Reveal(session, out, sheet0, noise, confirm, phase, words);
    r := if walked.Failure? then Failure(RevealDied(walked.error)) else Success(walked.value);
  }

  /** The device knows every word of the share, and they are not all the same. */
  ghost predicate Quizzable(d: S.Device, phase: BackupPhase, words: seq<string>) {
    && Authorises(AskCheck(phase), 0) && d.decrypt[phase] == Some(words) && WordList(d.list)
    && |words| == BACKUP_WORDS && (forall w :: w in words ==> w in d.list) && !AllAlike(words)
  }

  lemma CheckIsReady(session: Session, out: Outbox, phase: BackupPhase, rng: Entropy, paper: map<nat, string>,
                     words: seq<string>)
    requires Quizzable(session.device, phase, words) && OnPaper(words, paper)
    requires out.encode[BackupChecked(phase.ref, phase.index)].Success?
    requires var made := NewQuiz(words, session.device.list, FreshDraw(words, session.device.list, rng));
      made.Some? && session.check == Some(S.Checking(made.value, phase.ref, phase.index))
    ensures Ready(session, out, phase.ref, phase.index, paper, 0)
  {
    NewQuizIff(words, session.device.list, rng);
  }

  /** A yes to the check of such a share grants it, with a quiz of its own. */
  lemma CheckGranted(w: S.World, s: S.State, phase: BackupPhase, words: seq<string>, chance: S.Chance, io: S.Io)
    requires Quizzable(w.device, phase, words)
    ensures var made := NewQuiz(words, w.device.list, FreshDraw(words, w.device.list, chance.rng));
      && made.Some?
      && S.ConfirmAt(w, s, AskCheck(phase), 0, S.ChoiceOf(w.device, AskCheck(phase), chance), io)
           == S.Out(s.(check := Some(S.Checking(made.value, phase.ref, phase.index))), [], Success([]))
  {
    NewQuizIff(words, w.device.list, chance.rng);
    CheckOpens(w, s, phase, S.ChoiceOf(w.device, AskCheck(phase), chance), io);
  }

  method ConsentToCheck(session: Session, out: Outbox, phase: BackupPhase, chance: S.Chance, io: S.Io,
                        paper: map<nat, string>, noise: seq<OptionNoise>, rngs: seq<Entropy>, ghost words: seq<string>)
    returns (r: Result<nat, VisitDeath>)
    requires session.Valid() && out.Valid() && |noise| > QUIZ_POSITIONS && |rngs| > QUIZ_POSITIONS
    modifies session, session.flash, out
    ensures out.Valid()
    ensures Quizzable(session.device, phase, words) && OnPaper(words, paper)
            && out.encode[BackupChecked(phase.ref, phase.index)].Success? ==>
      && r == Success(QUIZ_POSITIONS) && session.check.None?
      && session.revealing == old(session.revealing) && session.recordPending == old(session.recordPending)
      && out.sent == old(out.sent) + [BackupChecked(phase.ref, phase.index)]
  {
    ghost var askable := Quizzable(session.device, phase, words) && OnPaper(words, paper)
                         && out.encode[BackupChecked(phase.ref, phase.index)].Success?;
    if askable {
      CheckGranted(session.With(out), session.Now(), phase, words, chance, io);
      NothingHappens(session.journal, out.sent);
    }
    var granted := session.ConfirmAt(AskCheck(phase), 0, chance, io, out);
    if granted.Failure? {
      return Failure(NotGranted(granted.error));
    }
    if askable {
      CheckIsReady(session, out, phase, chance.rng, paper, words);
    }
    var passed := CheckQuiz(session, out, paper, noise, rngs, phase.ref, phase.index);
    r := if passed.Failure? then Failure(QuizDied(passed.error)) else Success(passed.value);
  }

  // ---- both

  /**
   Any session, whatever grants it holds: a yes to the reveal and then a yes to the check of the same share
   ends with the check passed from the sheet the reveal filled, and the coordinator has heard each page,
   that the backup was recorded, and that it was checked, once each and in that order.
   */
  method RevealThenCheck(session: Session, out: Outbox, phase: BackupPhase, chance: S.Chance, io: S.Io,
                         noise: seq<PageNoise>, confirm: char, options: seq<OptionNoise>,
                         rngs: seq<Entropy>, ghost words: seq<string>)
    returns (r: Result<nat, VisitDeath>)
    requires session.Valid() && out.Valid()
    requires |noise| > PAGE_CAP && |options| > QUIZ_POSITIONS && |rngs| > QUIZ_POSITIONS
    modifies session, session.flash, out
    ensures out.Valid()
    ensures old(Revealable(session, out, phase, words)
                && Quizzable(session.device, phase, words)
                && out.encode[BackupChecked(phase.ref, phase.index)].Success?) ==>
      && r == Success(QUIZ_POSITIONS)
      && session.revealing.None? && !session.recordPending && session.check.None?
      && out.sent == ((old(out.sent) + Reports(phase.index, words, PAGE_COUNT)) + [Body.BackupRecorded])
                     + [BackupChecked(phase.ref, phase.index)]
  {
    var sheet := ConsentToReveal(session, out, phase, chance, io, Sheet(None, map[]), noise, confirm, words);
    if sheet.Failure? {
      return Failure(sheet.error);
    }
    if |words| == BACKUP_WORDS {
      RevealedSheetIsPaper(Sheet(None, map[]), phase.index, words);
    }
    r := ConsentToCheck(session, out, phase, chance, io, sheet.value.words, options, rngs, words);
  }

  // ---- typing it back in

  lemma EntryOpens(w: S.World, s: S.State, id: EnterId, choice: S.Choice, io: S.Io)
    requires Staged(s) == []
    ensures var o := S.ConfirmAt(w, s, AskEntry(id), 0, choice, io);
      && o == S.Out(s.(entry := Some(S.Entry(id, Entries.Fresh(w.device.list)))), [], Success([]))
      && Waiting(o.post, id)
  {
  }

  /** A share the device can spell, and nothing there still to be stored. */
  ghost predicate Enterable(session: Session, out: Outbox, id: EnterId, share: TypedShare, image: ShareImage)
    reads session, session.flash, out
  {
    && Typeable(session.device.list, session.device.checks, share, image) && Staged(session.Now()) == []
    && out.encode[FromCore(PhysicalEntered(id, image))].Success?
  }

  method ConsentToType(session: Session, out: Outbox, id: EnterId, sheet: Sheet, chance: S.Chance, io: S.Io,
                       noise: seq<EntryNoise>, ghost share: TypedShare, ghost image: ShareImage)
    returns (r: Result<nat, VisitDeath>)
    requires session.Valid() && out.Valid() && |noise| > PRESS_CAP
    modifies session, session.flash, out
    ensures out.Valid()
    ensures old(Enterable(session, out, id, share, image))
            && sheet.index == Some(share.index) && OnPaper(share.words, sheet.words) ==>
      && r.Success? && r.value <= 636 && session.entry.None?
      && session.signer.loaded == old(session.signer.loaded) + {image}
      && out.sent == old(out.sent) + [FromCore(PhysicalEntered(id, image))]
  {
    if Staged(session.Now()) == [] {
      EntryOpens(session.With(out), session.Now(), id, S.ChoiceOf(session.device, AskEntry(id), chance), io);
      NothingHappens(session.journal, out.sent);
    }
    var granted := session.ConfirmAt(AskEntry(id), 0, chance, io, out);
    if granted.Failure? {
      return Failure(NotGranted(granted.error));
    }
    var typed := TypeBackup(session, out, sheet, noise, io, id, share, image);
    r := if typed.Failure? then Failure(TypingDied(typed.error)) else Success(typed.value.0);
  }

  /**
   A share revealed on one device and typed back in on another, through nothing but their screens and a sheet of
   paper: the second takes exactly the share that was revealed, and tells its coordinator so once.
   */
  method RevealThenType(here: Session, hereOut: Outbox, there: Session, thereOut: Outbox, phase: BackupPhase,
                        id: EnterId, chance: S.Chance, io: S.Io, pages: seq<PageNoise>, confirm: char,
                        noise: seq<EntryNoise>, ghost words: seq<string>, ghost image: ShareImage)
    returns (r: Result<nat, VisitDeath>)
    requires here.Valid() && hereOut.Valid() && there.Valid() && thereOut.Valid()
    requires here != there && here.flash != there.flash && hereOut != thereOut
    requires |pages| > PAGE_CAP && |noise| > PRESS_CAP
    modifies here, here.flash, hereOut, there, there.flash, thereOut
    ensures old(Revealable(here, hereOut, phase, words)
                && Enterable(there, thereOut, id, TypedShare(phase.index, words), image)) ==>
      && r.Success? && r.value <= 636
      && there.signer.loaded == old(there.signer.loaded) + {image}
      && thereOut.sent == old(thereOut.sent) + [FromCore(PhysicalEntered(id, image))]
      && hereOut.sent == (old(hereOut.sent) + Reports(phase.index, words, PAGE_COUNT)) + [Body.BackupRecorded]
  {
    var sheet := ConsentToReveal(here, hereOut, phase, chance, io, Sheet(None, map[]), pages, confirm, words);
    if sheet.Failure? {
      return Failure(sheet.error);
    }
    if |words| == BACKUP_WORDS {
      RevealedSheetIsPaper(Sheet(None, map[]), phase.index, words);
    }
    r := ConsentToType(there, thereOut, id, sheet.value, chance, io, noise, TypedShare(phase.index, words), image);
  }
}
