/** What the keys of the entry screen undo, where each of them leads, and when one does nothing. */
module EntryLaws {
  import opened Wrappers
  import opened BackupPages
  import opened WordLists
  import opened Entries

  /** What a slot has in it, as the field shows it. */
  function Shown(slot: Option<string>): string {
    match slot case None => [] case Some(word) => word
  }

  /** On word `n`, with what its slot has in it, and all the words and the index as they were. */
  ghost predicate OnWord(list: seq<string>, t: Typing, n: nat, words: seq<Option<string>>, index: nat) {
    && t.stage.AtWord? && t.cursor == n < |words| && t.words == words && t.index == index
    && t.prefix == Shown(words[n]) && t.letters == Following(list, t.prefix) && t.page == 0
  }

  lemma ListedIsLoadedWhole(list: seq<string>, word: string)
    requires WordList(list) && word in list
    ensures Loaded(word) == word
  {
    var i :| 0 <= i < |list| && list[i] == word;
  }

  lemma GoingShowsTheSlot(list: seq<string>, t: Typing, n: nat)
    requires WordList(list) && Sound(list, t) && n < BACKUP_WORDS
    ensures OnWord(list, GoneTo(list, t.(stage := AtWord), n), n, t.words, t.index)
  {
    if t.words[n].Some? {
      ListedIsLoadedWhole(list, t.words[n].value);
    }
  }

  // ---- undoing

  /** A delete takes back the letter just typed, and that letter alone; the page goes back to the first. */
  lemma DeleteUndoesALetter(list: seq<string>, checks: Checksum, t: Typing, key: char)
    requires Sound(list, t) && t.stage.AtWord? && '1' <= key <= '9' && Keyed(list, checks, t, key).1 == Redraw
    ensures Keyed(list, checks, Keyed(list, checks, t, key).0, 'x') == (t.(page := 0), Redraw)
  {
    var letter := LetterUnder(t.letters, t.page, key).value;
    var u := Keyed(list, checks, t, key).0;
    assert u.prefix == t.prefix + [letter];
    assert u.prefix[..|u.prefix| - 1] == t.prefix;
  }

  /** With the field empty, it goes back to the word before, which is still there. */
  lemma DeleteGoesBackAWord(list: seq<string>, checks: Checksum, t: Typing)
    requires WordList(list) && Sound(list, t) && t.stage.AtWord? && t.prefix == [] && t.cursor > 0
    ensures var (u, step) := Keyed(list, checks, t, 'x');
      step == Redraw && OnWord(list, u, t.cursor - 1, t.words, t.index) && u.prefix != []
  {
    GoingShowsTheSlot(list, t, t.cursor - 1);
    assert t.words[t.cursor - 1].Some?;
    var word := t.words[t.cursor - 1].value;
    var i :| 0 <= i < |list| && list[i] == word;
    assert CheckWord(list[i]);
  }

  /** With the field of the first word empty, it goes back to the index, and no word is lost. */
  lemma DeleteGoesBackToTheIndex(list: seq<string>, checks: Checksum, t: Typing)
    requires Sound(list, t) && t.stage.AtWord? && t.prefix == [] && t.cursor == 0
    ensures Keyed(list, checks, t, 'x') == (t.(stage := AtIndex), Redraw)
  {
  }

  /** On the index page it takes back the digit just typed. */
  lemma DeleteUndoesADigit(list: seq<string>, checks: Checksum, t: Typing, key: char)
    requires Shaped(t) && t.stage.AtIndex? && '0' <= key <= '9' && Keyed(list, checks, t, key).1 == Redraw
    ensures Keyed(list, checks, Keyed(list, checks, t, key).0, 'x') == (t, Redraw)
  {
    var digit := key as int - '0' as int;
    assert (t.index * 10 + digit) / 10 == t.index;
  }

  /** After an accept into a slot that had nothing behind it, it comes back to the word accepted, spelled in full. */
  lemma DeleteReturnsToTheAccepted(list: seq<string>, checks: Checksum, t: Typing)
    requires WordList(list) && Sound(list, t) && t.stage.AtWord? && t.cursor + 1 < BACKUP_WORDS
    requires Accepted(list, t.prefix).Some? && t.words[t.cursor + 1].None?
    ensures var words := t.words[t.cursor := Accepted(list, t.prefix)];
      OnWord(list, Keyed(list, checks, Keyed(list, checks, t, 'y').0, 'x').0, t.cursor, words, t.index)
  {
    AcceptGoesOn(list, checks, t);
    KeysKeepSound(list, checks, t, 'y');
    var u := Keyed(list, checks, t, 'y').0;
    DeleteGoesBackAWord(list, checks, u);
  }

  /** After a failed checksum any key at all goes back to the last word, with every word still in. */
  lemma AnyKeyAfterAFailure(list: seq<string>, checks: Checksum, t: Typing, key: char)
    requires WordList(list) && Sound(list, t) && t.stage.AtFailed?
    ensures var (u, step) := Keyed(list, checks, t, key);
      && step == Redraw && OnWord(list, u, BACKUP_WORDS - 1, t.words, t.index)
      && Some(u.prefix) == t.words[BACKUP_WORDS - 1]
  {
    assert t.words[BACKUP_WORDS - 1].Some?;
    ListedIsLoadedWhole(list, t.words[BACKUP_WORDS - 1].value);
  }

  // ---- going on

  /** An accept with words to come goes on to the next, and shows what its slot has. */
  lemma AcceptGoesOn(list: seq<string>, checks: Checksum, t: Typing)
    requires WordList(list) && Sound(list, t) && t.stage.AtWord? && t.cursor + 1 < BACKUP_WORDS
    requires Accepted(list, t.prefix).Some?
    ensures var (u, step) := Keyed(list, checks, t, 'y');
      step == Redraw && OnWord(list, u, t.cursor + 1, t.words[t.cursor := Accepted(list, t.prefix)], t.index)
  {
    var word := Accepted(list, t.prefix);
    AcceptIsUnambiguous(list, t.prefix);
    SlotIsSound(list, t, word.value);
    GoingShowsTheSlot(list, t.(words := t.words[t.cursor := word]), t.cursor + 1);
  }

  /** A non-zero index is accepted, and the first word comes up with what its slot has. */
  lemma IndexGoesOn(list: seq<string>, checks: Checksum, t: Typing)
    requires WordList(list) && Sound(list, t) && t.stage.AtIndex? && t.index > 0
    ensures var (u, step) := Keyed(list, checks, t, 'y'); step == Redraw && OnWord(list, u, 0, t.words, t.index)
  {
    GoingShowsTheSlot(list, t, 0);
  }

  /** The letters turn a page at a time, and from the last page to the first. */
  lemma PagesTurnRound(list: seq<string>, checks: Checksum, t: Typing)
    requires Sound(list, t) && t.stage.AtWord?
    ensures Keyed(list, checks, t, '0').0 == t.(page := if 9 * (t.page + 1) < |t.letters| then t.page + 1 else 0)
  {
  }

  // ---- doing nothing

  /** The key the whole flow is given up by: a delete with nothing typed at all. */
  lemma AbortIff(list: seq<string>, checks: Checksum, t: Typing, key: char)
    requires Shaped(t)
    ensures Keyed(list, checks, t, key).1 == Abort <==> t.stage.AtIndex? && t.index == 0 && key == 'x'
  {
  }

  /** A key says the screen is to be drawn anew exactly if it changed what is drawn. */
  lemma RedrawnIffChanged(list: seq<string>, checks: Checksum, t: Typing, key: char)
    requires WordList(list) && Sound(list, t) && !Keyed(list, checks, t, key).1.Spelled?
    ensures var (u, step) := Keyed(list, checks, t, key); step == Redraw <==> u != t
  {
    if t.stage.AtWord? {
      WordRedrawnIffChanged(list, checks, t, key);
    }
  }

  lemma WordRedrawnIffChanged(list: seq<string>, checks: Checksum, t: Typing, key: char)
    requires WordList(list) && Sound(list, t) && t.stage.AtWord? && !Keyed(list, checks, t, key).1.Spelled?
    ensures var (u, step) := Keyed(list, checks, t, key); step == Redraw <==> u != t
  {
    if key == 'y' && Accepted(list, t.prefix).Some? {
      if t.cursor + 1 < BACKUP_WORDS {
        AcceptGoesOn(list, checks, t);
      } else {
        NothingIsMissing(list, checks, t);
      }
    }
    if key == 'x' && t.prefix == [] && t.cursor > 0 {
      DeleteGoesBackAWord(list, checks, t);
    }
  }
}
