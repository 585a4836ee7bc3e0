/** The scripted human types a backup in: the index from the sheet, and each word off the glass, until it is taken. */
module StubEntry {
  import opened Wrappers
  import opened Text
  import opened Wire
  import opened BackupPages
  import opened WordLists
  import opened Entries
  import opened Glass
  import opened EntryGlass
  import opened Outboxes
  import opened Signers
  import opened Steps
  import opened Durability
  import opened DurableRuns
  import opened Sessions
  import opened Stub
  import opened StubQuiz
  import S = SessionSpec

  // ---- the index page

  /** `index_press`. */
  function IndexPress(typed: Option<nat>, want: nat): Option<char> {
    var all := Decimal(want);
    var so := match typed case None => "" case Some(n) => Decimal(n);
    if so == all then Some(OK_KEY) else if |so| < |all| then Some(all[|so|]) else None
  }

  function TypedIndex(t: Typing): Option<nat> {
    if t.index > 0 then Some(t.index) else None
  }

  /** So many digits of the index are in: none, or a beginning of its decimal. */
  predicate IndexBegun(t: Typing, want: nat) {
    t.index == 0 || Decimal(t.index) <= Decimal(want)
  }

  function DigitsIn(t: Typing): nat {
    if t.index == 0 then 0 else |Decimal(t.index)|
  }

  lemma {:induction false} LeadingDigit(n: nat)
    requires n > 0
    ensures Decimal(n)[0] != '0'
  {
    if n >= 10 {
      LeadingDigit(n / 10);
    }
  }

  /** A beginning of a decimal is a number no larger. */
  lemma {:induction false} BeginningIsNotLarger(m: nat, n: nat)
    requires Decimal(m) <= Decimal(n)
    ensures m <= n && (m < n ==> |Decimal(m)| < |Decimal(n)|) && (|Decimal(m)| < |Decimal(n)| ==> n >= 10)
    decreases n
  {
    var s, all := Decimal(m), Decimal(n);
    if |s| == |all| {
      DecimalValue(m);
      DecimalValue(n);
      assert s == all;
    } else {
      assert n >= 10 && all[..|all| - 1] == Decimal(n / 10);
      assert s <= Decimal(n / 10);
      BeginningIsNotLarger(m, n / 10);
    }
  }

  /** The next digit of the index is the key pressed, and the machine takes it. */
  lemma NextDigit(list: seq<string>, t: Typing, want: nat)
    requires Shaped(t) && 0 < want < U32 && IndexBegun(t, want) && DigitsIn(t) < |Decimal(want)|
    ensures var key := Decimal(want)[DigitsIn(t)]; var (t', step) := IndexKeyed(list, t, key);
      && step == Redraw && t' == t.(index := t'.index) && t'.index > 0
      && IndexBegun(t', want) && DigitsIn(t') == DigitsIn(t) + 1
  {
    var all, k := Decimal(want), DigitsIn(t);
    LongerByADigit(t.index, k, want);
    BeginningIsNotLarger(t.index * 10 + DigitValue(all[k]), want);
  }

  lemma LongerByADigit(m: nat, k: nat, n: nat)
    requires 0 < n && k < |Decimal(n)|
    requires if m == 0 then k == 0 else Decimal(m) <= Decimal(n) && k == |Decimal(m)|
    ensures var z := m * 10 + DigitValue(Decimal(n)[k]);
      z > 0 && Decimal(z) <= Decimal(n) && |Decimal(z)| == k + 1
  {
    var all := Decimal(n);
    var d := all[k];
    assert IsDigit(d) && DigitChar(DigitValue(d)) == d;
    var z := m * 10 + DigitValue(d);
    LeadingDigit(n);
    assert all[..k + 1] == all[..k] + [d];
    if m == 0 {
      assert Decimal(z) == [d] == all[..1];
    } else {
      assert z / 10 == m && z % 10 == DigitValue(d);
      assert Decimal(z) == Decimal(m) + [d] == all[..k + 1];
    }
  }

  /** An index of zero is never typed: its one digit does nothing, and the script gives up. */
  lemma ZeroIsNotTyped(list: seq<string>, checks: Checksum, t: Typing)
    requires Shaped(t) && t.stage.AtIndex? && t.index == 0
    ensures IndexPress(TypedIndex(t), 0).Some?
    ensures Keyed(list, checks, t, IndexPress(TypedIndex(t), 0).value) == (t, Unchanged)
  {
  }

  // ---- a word page

  /** Where a letter of the list of letters is. */
  function PlaceOf(letters: string, c: char): nat
    requires c in letters
  {
    FindLetter(letters, c);
    Find(letters, [c]).value
  }

  /** The next letter of a word is on this page or a later one. */
  predicate NotPast(t: Typing, word: string) {
    t.prefix <= word
    && if t.prefix == word then t.page == 0
       else word[|t.prefix|] in t.letters && t.page <= PlaceOf(t.letters, word[|t.prefix|]) / LETTERS_PER_PAGE
  }

  /** The letter above which a key is printed is the letter it types. */
  lemma KeyTypesItsLetter(letters: string, page: nat, c: char)
    requires page < Pages(letters) && Find(PageLetters(letters, page), [c]).Some?
    ensures LetterUnder(letters, page, KeyOf(letters, page, c)) == Some(c)
  {
    var shown := PageLetters(letters, page);
    FindLetter(shown, c);
    KeyIsItsSlot(Find(shown, [c]).value);
  }

  /** A letter not on this page, nor on an earlier one, is on a later one, and the page key turns towards it. */
  lemma PageTurnsTowards(letters: string, page: nat, c: char)
    requires c in letters && page < Pages(letters) && page <= PlaceOf(letters, c) / LETTERS_PER_PAGE
    requires Find(PageLetters(letters, page), [c]).None?
    ensures KeyOf(letters, page, c) == PAGE_KEY && LetterUnder(letters, page, PAGE_KEY).None?
    ensures Pages(letters) > 1 && page + 1 <= PlaceOf(letters, c) / LETTERS_PER_PAGE
    ensures (page + 1) % Pages(letters) == page + 1
  {
    var i, shown := PlaceOf(letters, c), PageLetters(letters, page);
    FindLetter(letters, c);
    FindLetter(shown, c);
    LetterIsOnAPage(letters, i);
    assert page != i / LETTERS_PER_PAGE;
    BelowIsItsRemainder(page + 1, Pages(letters));
  }

  lemma BelowIsItsRemainder(a: nat, n: nat)
    requires a < n
    ensures a % n == a
  {
  }

  /** The key read off a word page: the next letter, or one page nearer to it. */
  lemma LetterOrPage(list: seq<string>, checks: Checksum, t: Typing, word: string)
    requires Drawable(t) && NotPast(t, word) && t.prefix != word && |word| <= MAX_WORD_LEN && AllUpper(word)
    ensures var c := word[|t.prefix|]; var (t', step) := WordKeyed(list, checks, t, KeyFor(t, word));
      && step == Redraw
      && (t' == Refreshed(list, t.(prefix := t.prefix + [c]))
          || (t' == t.(page := t.page + 1) && t'.page <= PlaceOf(t.letters, c) / LETTERS_PER_PAGE))
  {
    var c := word[|t.prefix|];
    if Find(PageLetters(t.letters, t.page), [c]).Some? {
      KeyTypesItsLetter(t.letters, t.page, c);
      assert Entries.Pushed(t.prefix, c) == Some(t.prefix + [c]);
    } else {
      PageTurnsTowards(t.letters, t.page, c);
    }
  }

  lemma KeyIsItsSlot(slot: nat)
    requires slot < |LETTER_KEYS|
    ensures '1' <= LETTER_KEYS[slot] <= '9' && LETTER_KEYS[slot] as int - '1' as int == slot
  {
  }

  // ---- the whole of it

  /** A share that can be typed: an index the pad can say, listed words, and a checksum that passes. */
  ghost predicate Typeable(list: seq<string>, checks: Checksum, share: TypedShare, image: ShareImage) {
    && WordList(list) && 0 < share.index < U32
    && |share.words| == BACKUP_WORDS && (forall i :: 0 <= i < BACKUP_WORDS ==> share.words[i] in list)
    && checks[share] == Some(image)
  }

  lemma ListedWord(list: seq<string>, word: string)
    requires WordList(list) && word in list
    ensures AllUpper(word) && 0 < |word| <= MAX_WORD_LEN
  {
    var i :| 0 <= i < |list| && list[i] == word;
  }

  /** The words before the cursor are in, and none from it on. */
  predicate WordsIn(t: Typing, words: seq<string>) {
    && Shaped(t) && |words| == BACKUP_WORDS
    && forall i :: 0 <= i < BACKUP_WORDS ==> t.words[i] == if i < t.cursor then Some(words[i]) else None
  }

  /** What has been typed is a beginning of the share. */
  ghost predicate OnTrack(list: seq<string>, share: TypedShare, t: Typing) {
    && Sound(list, t) && WordsIn(t, share.words)
    && match t.stage
       case AtIndex => t.cursor == 0 && IndexBegun(t, share.index)
       case AtWord => t.index == share.index && NotPast(t, share.words[t.cursor])
       case AtFailed => false
  }

  /** A bound on the keys still to be pressed: a digit each and one for the index, three a letter and one a word. */
  function KeysLeft(share: TypedShare, t: Typing): int
    requires |share.words| == BACKUP_WORDS && Shaped(t)
  {
    match t.stage
    case AtIndex => |Decimal(share.index)| - DigitsIn(t) + 1 + 25 * BACKUP_WORDS
    case AtWord => 25 * (BACKUP_WORDS - 1 - t.cursor) + 3 * (|share.words[t.cursor]| - |t.prefix|) - t.page + 1
    case AtFailed => 0
  }

  /** The key the script presses. */
  function KeyNow(share: TypedShare, t: Typing): Option<char>
    requires |share.words| == BACKUP_WORDS && Shaped(t)
  {
    match t.stage
    case AtIndex => IndexPress(TypedIndex(t), share.index)
    case AtWord =>
      if Drawable(t) && t.prefix <= share.words[t.cursor] then Some(KeyFor(t, share.words[t.cursor])) else None
    case AtFailed => None
  }

  /** What one press must do. */
  ghost predicate Nearer(list: seq<string>, checks: Checksum, share: TypedShare, t: Typing, image: ShareImage)
    requires Shaped(t) && |share.words| == BACKUP_WORDS
  {
    && KeyNow(share, t).Some?
    && KeysLeft(share, t) > 0
    && var (t', step) := Keyed(list, checks, t, KeyNow(share, t).value);
       step == Spelled(image)
       || (step == Redraw && OnTrack(list, share, t') && KeysLeft(share, t') < KeysLeft(share, t))
  }

  lemma ArrivesAtWord(list: seq<string>, share: TypedShare, t: Typing, cursor: nat)
    requires WordList(list) && Shaped(t) && t.stage.AtWord? && 0 < t.index == share.index < U32
    requires cursor < BACKUP_WORDS && |share.words| == BACKUP_WORDS
    requires forall i :: 0 <= i < BACKUP_WORDS ==> share.words[i] in list
    requires forall i :: 0 <= i < BACKUP_WORDS ==> t.words[i] == if i < cursor then Some(share.words[i]) else None
    ensures var u := GoneTo(list, t, cursor);
      OnTrack(list, share, u) && u.cursor == cursor && u.prefix == [] && u.page == 0 && u.stage.AtWord?
  {
    GoneToIsSound(list, t, cursor);
    ListedWord(list, share.words[cursor]);
    NextLetterIsOffered(list, [], share.words[cursor]);
  }

  /** A digit, or the key that ends the index. */
  lemma IndexStep(list: seq<string>, checks: Checksum, share: TypedShare, t: Typing, image: ShareImage)
    requires Typeable(list, checks, share, image) && OnTrack(list, share, t) && t.stage.AtIndex?
    ensures Nearer(list, checks, share, t, image)
  {
    if t.index > 0 {
      BeginningIsNotLarger(t.index, share.index);
    }
    if DigitsIn(t) < |Decimal(share.index)| {
      NextDigit(list, t, share.index);
    } else {
      ArrivesAtWord(list, share, t.(stage := AtWord), 0);
      ListedWord(list, share.words[0]);
    }
  }

  lemma CommitGoesOn(list: seq<string>, checks: Checksum, t: Typing, word: string)
    requires Shaped(t) && t.stage.AtWord? && Entries.Accepted(list, t.prefix) == Some(word)
    ensures var t' := t.(words := t.words[t.cursor := Some(word)]);
      Keyed(list, checks, t, OK_KEY)
        == if t.cursor + 1 < BACKUP_WORDS then (GoneTo(list, t', t.cursor + 1), Redraw) else Submitted(list, checks, t')
  {
    assert LetterUnder(t.letters, t.page, OK_KEY).None?;
    assert Keyed(list, checks, t, OK_KEY) == Committed(list, checks, t);
  }

  lemma LastWordSpells(list: seq<string>, checks: Checksum, share: TypedShare, t: Typing, image: ShareImage)
    requires Typeable(list, checks, share, image) && Shaped(t) && t.index == share.index
    requires forall i :: 0 <= i < BACKUP_WORDS ==> t.words[i] == Some(share.words[i])
    ensures Submitted(list, checks, t) == (t, Spelled(image))
  {
    assert Filled(t.words) == share.words;
    assert TypedShare(t.index, Filled(t.words)) == share;
  }

  /** A word typed in full is accepted, and the next one begun; after the last, the share is spelled. */
  lemma AcceptStep(list: seq<string>, checks: Checksum, share: TypedShare, t: Typing, image: ShareImage)
    requires Typeable(list, checks, share, image) && OnTrack(list, share, t) && t.stage.AtWord?
    requires Drawable(t) && t.prefix == share.words[t.cursor]
    ensures Nearer(list, checks, share, t, image)
  {
    var word := share.words[t.cursor];
    var t' := t.(words := t.words[t.cursor := Some(word)]);
    WholeWordIsAccepted(list, word);
    CommitGoesOn(list, checks, t, word);
    assert KeyNow(share, t) == Some(OK_KEY);
    assert KeysLeft(share, t) == 25 * (BACKUP_WORDS - 1 - t.cursor) + 1;
    if t.cursor + 1 < BACKUP_WORDS {
      NextWordBegins(list, share, t, word);
    } else {
      LastWordSpells(list, checks, share, t', image);
    }
  }

  lemma SlotFilled(t: Typing, words: seq<string>, filled: seq<Option<string>>)
    requires WordsIn(t, words) && filled == t.words[t.cursor := Some(words[t.cursor])]
    ensures |filled| == BACKUP_WORDS
    ensures forall i :: 0 <= i < BACKUP_WORDS ==> filled[i] == if i < t.cursor + 1 then Some(words[i]) else None
  {
  }

  lemma FreshWordKeys(share: TypedShare, u: Typing)
    requires |share.words| == BACKUP_WORDS && Shaped(u) && u.stage.AtWord? && u.prefix == [] && u.page == 0
    requires |share.words[u.cursor]| <= MAX_WORD_LEN
    ensures KeysLeft(share, u) <= 25 * (BACKUP_WORDS - u.cursor)
  {
  }

  /** A word just begun: 25 keys are enough for it, and for each after it. */
  ghost predicate AtItsStart(list: seq<string>, share: TypedShare, t: Typing) {
    OnTrack(list, share, t) && KeysLeft(share, t) <= 25 * (BACKUP_WORDS - t.cursor)
  }

  /** The next word, however long, takes fewer keys than were left for it. */
  lemma NextWordBegins(list: seq<string>, share: TypedShare, t: Typing, word: string)
    requires WordList(list) && OnTrack(list, share, t) && t.stage.AtWord? && t.cursor + 1 < BACKUP_WORDS
    requires word == share.words[t.cursor]
    requires forall i :: 0 <= i < BACKUP_WORDS ==> share.words[i] in list
    ensures AtItsStart(list, share, GoneTo(list, t.(words := t.words[t.cursor := Some(word)]), t.cursor + 1))
  {
    var t' := t.(words := t.words[t.cursor := Some(word)]);
    SlotFilled(t, share.words, t'.words);
    WordBegins(list, share, t', t.cursor + 1);
  }

  lemma WordBegins(list: seq<string>, share: TypedShare, t: Typing, cursor: nat)
    requires WordList(list) && Shaped(t) && t.stage.AtWord? && 0 < t.index == share.index < U32
    requires cursor < BACKUP_WORDS && |share.words| == BACKUP_WORDS
    requires forall i :: 0 <= i < BACKUP_WORDS ==> share.words[i] in list
    requires forall i :: 0 <= i < BACKUP_WORDS ==> t.words[i] == if i < cursor then Some(share.words[i]) else None
    ensures AtItsStart(list, share, GoneTo(list, t, cursor))
  {
    ArrivesAtWord(list, share, t, cursor);
    ListedWord(list, share.words[cursor]);
    FreshWordKeys(share, GoneTo(list, t, cursor));
  }

  lemma ThreePages(list: seq<string>, t: Typing)
    requires Sound(list, t)
    ensures t.page <= 2
  {
  }

  /** With one more letter typed, the word is still begun, and its next letter still to come. */
  lemma LetterTyped(list: seq<string>, t: Typing, word: string)
    requires WordList(list) && word in list && t.prefix <= word && t.prefix != word
    ensures NotPast(Refreshed(list, t.(prefix := t.prefix + [word[|t.prefix|]])), word)
  {
    var prefix := t.prefix + [word[|t.prefix|]];
    assert prefix == word[..|prefix|];
    if prefix != word {
      NextLetterIsOffered(list, prefix, word);
    }
  }

  /** A letter of a word, or a page nearer to it. */
  lemma LetterStep(list: seq<string>, checks: Checksum, share: TypedShare, t: Typing, image: ShareImage)
    requires Typeable(list, checks, share, image) && OnTrack(list, share, t) && t.stage.AtWord?
    requires Drawable(t) && t.prefix != share.words[t.cursor]
    ensures Nearer(list, checks, share, t, image)
  {
    var word := share.words[t.cursor];
    var key := KeyFor(t, word);
    ListedWord(list, word);
    ThreePages(list, t);
    LetterOrPage(list, checks, t, word);
    KeysKeepSound(list, checks, t, key);
    LetterTyped(list, t, word);
    var t' := Keyed(list, checks, t, key).0;
    assert KeyNow(share, t) == Some(key);
    assert OnTrack(list, share, t');
    assert 0 < KeysLeft(share, t) && KeysLeft(share, t') < KeysLeft(share, t);
  }

  lemma EachStepIsNearer(list: seq<string>, checks: Checksum, share: TypedShare, t: Typing, image: ShareImage)
    requires Typeable(list, checks, share, image) && OnTrack(list, share, t)
    ensures Nearer(list, checks, share, t, image)
  {
    match t.stage {
      case AtIndex => IndexStep(list, checks, share, t, image);
      case AtWord =>
        SoundIsDrawable(list, t);
        if t.prefix == share.words[t.cursor] {
          AcceptStep(list, checks, share, t, image);
        } else {
          LetterStep(list, checks, share, t, image);
        }
    }
  }

  // ---- against the session

  /** A session waiting for a share to be typed, with nothing unstored. */
  ghost predicate Waiting(s: S.State, id: EnterId) {
    s.entry.Some? && s.entry.value.id == id && Staged(s) == []
  }

  lemma SessionRedraws(w: S.World, s: S.State, id: EnterId, key: char, io: S.Io)
    requires Waiting(s, id)
    requires Keyed(w.device.list, w.device.checks, s.entry.value.typing, key).1.Redraw?
    ensures var o := S.EntryKey(w, s, S.Typing(w.device, s, key), io);
      o.result == Success(S.TypedRedraw) && o.fx == []
      && o.post == s.(entry := Some(S.Entry(id, Keyed(w.device.list, w.device.checks, s.entry.value.typing, key).0)))
  {
  }

  /** The share taken: the grant is spent, its image is loaded, and the coordinator hears of it once. */
  lemma SessionTakes(w: S.World, s: S.State, id: EnterId, image: ShareImage, io: S.Io)
    requires Waiting(s, id) && w.encode[FromCore(PhysicalEntered(id, image))].Success?
    ensures var o := S.EntryKey(w, s, S.Entered(image), io);
      && o.result == Success(S.TypedEnded([])) && SentIn(o.fx) == [FromCore(PhysicalEntered(id, image))]
      && o.post.entry.None? && o.post.signer.loaded == s.signer.loaded + {image}
  {
    var message := PhysicalEntered(id, image);
    var t := s.(entry := None, signer := LoadTyped(s.signer, id, image).signer);
    OnlyReply(w, t, message, io);
    SentInFrames([FromCore(message)]);
  }

  /** A key that spells a share hands it over. */
  lemma SessionSpells(w: S.World, s: S.State, id: EnterId, key: char, image: ShareImage, io: S.Io)
    requires Waiting(s, id) && w.encode[FromCore(PhysicalEntered(id, image))].Success?
    requires Keyed(w.device.list, w.device.checks, s.entry.value.typing, key).1 == Spelled(image)
    ensures var o := S.EntryKey(w, s, S.Typing(w.device, s, key), io);
      && o.result == Success(S.TypedEnded([])) && SentIn(o.fx) == [FromCore(PhysicalEntered(id, image))]
      && o.post.entry.None? && o.post.signer.loaded == s.signer.loaded + {image}
  {
    assert S.Typing(w.device, s, key) == S.Entered(image);
    SessionTakes(w, s, id, image, io);
  }

  lemma OnlyReply(w: S.World, s: S.State, message: DeviceMessage, io: S.Io)
    requires Staged(s) == [] && !message.NonceResponse? && w.encode[FromCore(message)].Success?
    ensures var o := S.Run(w, s, [ToCoordinator(message)], io);
      && o.result == Success([]) && o.fx == [S.Sent(FromCore(message))]
      && o.post.entry == s.entry && o.post.signer.loaded == s.signer.loaded
  {
    NothingStagedOneReply(w, s, message, io);
    var t, work := Persisting(s, io), [ToCoordinator(message)];
    PushWhole<seq<Prompt>>(w, t, FromCore(message), []);
    var h := S.Handle(w, t, work[0], [], io);
    assert work[1..] == [] && h.result == Success([]) && h.post == t;
    assert S.Drain(w, t, work, [], io).result == Success([]);
  }

  // ---- the script

  datatype TypingDeath =
    | NoEntry | NoSheetIndex | NotADigit | NotDrawn | Unread(why: EntryGlass.Unread) | ChecksumFailed
    | TooManyPresses | DidNothing | Refused

  /** More keys than any share takes. */
  const PRESS_CAP: nat := 1024

  /** The share being typed, from a sheet that has it. */
  ghost predicate Going(d: S.Device, t: Typing, share: TypedShare, image: ShareImage, index: nat,
                        paper: map<nat, string>)
  {
    && Typeable(d.list, d.checks, share, image) && OnTrack(d.list, share, t)
    && index == share.index && OnPaper(share.words, paper)
  }

  /** On a word page the key read off the glass is the one the script presses. */
  lemma WordKeyIsRead(list: seq<string>, checks: Checksum, share: TypedShare, t: Typing, image: ShareImage,
                      noise: EntryNoise, paper: map<nat, string>)
    requires Typeable(list, checks, share, image) && OnTrack(list, share, t) && t.stage.AtWord?
    requires OnPaper(share.words, paper)
    ensures Drawable(t) && KeyNow(share, t).Some?
    ensures EntryPress(EntryPage(t, Entries.Accepted(list, t.prefix).Some?, noise), paper)
         == Success(KeyNow(share, t).value)
  {
    SoundIsDrawable(list, t);
    assert KeyNow(share, t) == Some(KeyFor(t, share.words[t.cursor]));
    ReadKeyTypesTheWord(list, t, noise, paper, share.words[t.cursor]);
  }

  /** What a human reading the sheet and the glass presses next. */
  method NextKey(d: S.Device, t: Held, index: nat, paper: map<nat, string>, noise: EntryNoise,
                 ghost share: TypedShare, ghost image: ShareImage)
    returns (r: Result<char, TypingDeath>)
    ensures Going(d, t, share, image, index, paper) ==>
      KeyNow(share, t).Some? && r == Success(KeyNow(share, t).value)
  {
    ghost var going := Going(d, t, share, image, index, paper);
    match t.stage {
      case AtIndex =>
        if going {
          IndexStep(d.list, d.checks, share, t, image);
        }
        var key := IndexPress(TypedIndex(t), index);
        r := match key case None => Failure(NotADigit) case Some(k) => Success(k);
      case AtFailed =>
        r := Failure(ChecksumFailed);
      case AtWord =>
        if going {
          WordKeyIsRead(d.list, d.checks, share, t, image, noise, paper);
        }
        if !Drawable(t) {
          return Failure(TypingDeath.NotDrawn);
        }
        var key := EntryPress(EntryPage(t, Entries.Accepted(d.list, t.prefix).Some?, noise), paper);
        r := match key case Failure(why) => Failure(TypingDeath.Unread(why)) case Success(k) => Success(k);
    }
  }

  /** What the session makes of a key. */
  method PressKey(session: Session, out: Outbox, key: char, io: S.Io, ghost id: EnterId)
    returns (r: Result<Option<seq<Prompt>>, TypingDeath>)
    requires session.Valid() && out.Valid() && session.entry.Some?
    modifies session, session.flash, out
    ensures out.Valid()
    ensures var (t, step) := Keyed(session.device.list, session.device.checks, old(session.entry).value.typing, key);
      old(Waiting(session.Now(), id)) && step.Redraw? ==>
        && r == Success(None) && Waiting(session.Now(), id) && session.entry.value.typing == t
        && out.sent == old(out.sent) && session.signer.loaded == old(session.signer.loaded)
    ensures var step := Keyed(session.device.list, session.device.checks, old(session.entry).value.typing, key).1;
      old(Waiting(session.Now(), id)) && step.Spelled?
      && out.encode[FromCore(PhysicalEntered(id, step.image))].Success? ==>
        && r == Success(Some([])) && session.entry.None?
        && session.signer.loaded == old(session.signer.loaded) + {step.image}
        && out.sent == old(out.sent) + [FromCore(PhysicalEntered(id, step.image))]
  {
    ghost var step := Keyed(session.device.list, session.device.checks, session.entry.value.typing, key).1;
    if Waiting(session.Now(), id) {
      if step.Redraw? {
        SessionRedraws(session.With(out), session.Now(), id, key, io);
        NothingHappens(session.journal, out.sent);
      }
      if step.Spelled? && out.encode[FromCore(PhysicalEntered(id, step.image))].Success? {
        SessionSpells(session.With(out), session.Now(), id, key, step.image, io);
      }
    }
    var typed := session.EntryKey(key, io, out);
    if typed.Failure? {
      return Failure(TypingDeath.Refused);
    }
    match typed.value {
      case TypedUnchanged => r := Failure(DidNothing);
      case TypedRedraw => r := Success(None);
      case TypedEnded(prompts) => r := Success(Some(prompts));
    }
  }

  /** A share on its way into a session. */
  ghost predicate Underway(session: Session, out: Outbox, id: EnterId, share: TypedShare, image: ShareImage, index: nat,
                           paper: map<nat, string>)
    reads session, session.flash, out
  {
    && Waiting(session.Now(), id)
    && Going(session.device, session.entry.value.typing, share, image, index, paper)
    && out.encode[FromCore(PhysicalEntered(id, image))].Success?
  }

  /** One key: read, pressed and reported. `None` while the typing goes on. */
  method OneKey(session: Session, out: Outbox, index: nat, paper: map<nat, string>, noise: EntryNoise,
                presses: nat, io: S.Io, ghost id: EnterId, ghost share: TypedShare, ghost image: ShareImage)
    returns (r: Result<Option<seq<Prompt>>, TypingDeath>)
    requires session.Valid() && out.Valid()
    modifies session, session.flash, out
    ensures out.Valid() && (r.Success? ==> presses < PRESS_CAP)
    ensures old(Underway(session, out, id, share, image, index, paper)) && presses < PRESS_CAP ==>
      match r
      case Failure(_) => false
      case Success(None) =>
        && Underway(session, out, id, share, image, index, paper)
        && out.sent == old(out.sent) && session.signer.loaded == old(session.signer.loaded)
        && KeysLeft(share, session.entry.value.typing) < KeysLeft(share, old(session.entry).value.typing)
      case Success(Some(prompts)) =>
        && prompts == [] && session.entry.None? && session.signer.loaded == old(session.signer.loaded) + {image}
        && out.sent == old(out.sent) + [FromCore(PhysicalEntered(id, image))]
  {
    if session.entry.None? {
      return Failure(NoEntry);
    }
    var t := session.entry.value.typing;
    var key := NextKey(session.device, t, index, paper, noise, share, image);
    if key.Failure? {
      return Failure(key.error);
    }
    if presses + 1 > PRESS_CAP {
      return Failure(TooManyPresses);
    }
    if Underway(session, out, id, share, image, index, paper) {
      EachStepIsNearer(session.device.list, session.device.checks, share, t, image);
    }
    r := PressKey(session, out, key.value, io, id);
  }

  /**
   `type_backup`: from a fresh entry, and a sheet that has a share this device can spell, the typing ends within
   its cap, and the coordinator hears once of exactly that share's image.
   */
  method TypeBackup(session: Session, out: Outbox, sheet: Sheet, noise: seq<EntryNoise>, io: S.Io,
                    ghost id: EnterId, ghost share: TypedShare, ghost image: ShareImage)
    returns (r: Result<(nat, seq<Prompt>), TypingDeath>)
    requires session.Valid() && out.Valid() && |noise| > PRESS_CAP
    modifies session, session.flash, out
    ensures out.Valid()
    ensures old(Starting(session, out, id, sheet, share, image)) ==>
      && r.Success? && r.value.0 <= 636 && r.value.1 == []
      && out.sent == old(out.sent) + [FromCore(PhysicalEntered(id, image))]
      && session.entry.None? && session.signer.loaded == old(session.signer.loaded) + {image}
  {
    if sheet.index.None? {
      return Failure(NoSheetIndex);
    }
    ghost var starting := Starting(session, out, id, sheet, share, image);
    if starting {
      StartIsOnTrack(session.device.list, share);
    }
    var index, presses := sheet.index.value, 0;
    while true
      invariant session.Valid() && out.Valid() && presses <= PRESS_CAP
      invariant starting ==>
        && Underway(session, out, id, share, image, index, sheet.words)
        && presses + KeysLeft(share, session.entry.value.typing) <= 636
        && out.sent == old(out.sent) && session.signer.loaded == old(session.signer.loaded)
      decreases PRESS_CAP - presses
    {
      if starting {
        EachStepIsNearer(session.device.list, session.device.checks, share, session.entry.value.typing, image);
      }
      var taken := OneKey(session, out, index, sheet.words, noise[presses], presses, io, id, share, image);
      if taken.Failure? {
        return Failure(taken.error);
      }
      presses := presses + 1;
      if taken.value.Some? {
        return Success((presses, taken.value.value));
      }
    }
  }

  /** A fresh transcription, and a sheet with a share it can spell. */
  ghost predicate Starting(session: Session, out: Outbox, id: EnterId, sheet: Sheet, share: TypedShare,
                           image: ShareImage)
    reads session, session.flash, out
  {
    && Typeable(session.device.list, session.device.checks, share, image)
    && Waiting(session.Now(), id) && session.entry.value.typing == Entries.Fresh(session.device.list)
    && sheet.index == Some(share.index) && OnPaper(share.words, sheet.words)
    && out.encode[FromCore(PhysicalEntered(id, image))].Success?
  }

  lemma StartIsOnTrack(list: seq<string>, share: TypedShare)
    requires WordList(list) && |share.words| == BACKUP_WORDS && share.index < U32
    ensures OnTrack(list, share, Entries.Fresh(list)) && KeysLeft(share, Entries.Fresh(list)) <= 636
  {
    FreshIsSound(list);
    DecimalLength(share.index, 10);
    TenDigits();
  }

  lemma TenDigits()
    ensures Power10(10) >= U32
  {
    assert Power10(3) == 1000;
    assert Power10(6) == 1000 * Power10(3);
    assert Power10(9) == 1000 * Power10(6);
  }
}
