/** The entry screen as the glass shows it, and the key a reader with the words on paper presses next. */
module EntryGlass {
  import opened Wrappers
  import opened Text
  import opened Screens
  import opened BackupPages
  import opened WordLists
  import opened Entries
  import opened Glass
  import opened QuizGlass

  const NOISED_ROWS: nat := 5

  /** The noise of the page label, the previous word, the typed word, the ruler and the letters. */
  type EntryNoise = p: seq<Noise> | |p| == NOISED_ROWS witness seq(NOISED_ROWS, _ => ALL_NOISE)

  predicate CheckLetters(s: string, most: nat) {
    |s| <= most && (AllUpper(s) || forall i :: 0 <= i < |s| ==> 'a' <= s[i] <= 'z')
  }

  function Previous(t: Typing): Option<string>
    requires Shaped(t)
  {
    if t.cursor > 0 then t.words[t.cursor - 1] else None
  }

  /** `WordEntry::render` draws this state. */
  predicate Drawable(t: Typing) {
    && Shaped(t) && t.page < Pages(t.letters)
    && (t.prefix == [] || CheckWord(t.prefix)) && (Previous(t).Some? ==> CheckWord(Previous(t).value))
    && CheckLetters(t.letters, 26)
  }

  function Head(number: nat): string {
    "word " + Decimal(number) + " of 25"
  }

  lemma HeadFits(number: nat)
    requires number < 100
    ensures |Head(number)| <= COLS
  {
    DecimalLength(number, 2);
    assert Power10(2) == 100 by { assert Power10(1) == 10; }
  }

  function PageLabel(t: Typing): (s: string)
    requires Drawable(t)
    ensures |s| <= CLEAR_CELLS
  {
    if Pages(t.letters) > 1 then
      DecimalLength(t.page + 1, 1);
      DecimalLength(Pages(t.letters), 1);
      assert Power10(1) == 10;
      "letters " + Decimal(t.page + 1) + "/" + Decimal(Pages(t.letters))
    else ""
  }

  /** The prefix and its cursor; a full word leaves no cell for the cursor. */
  function TypedRow(number: nat, prefix: string): (s: string)
    requires number < 100 && |prefix| <= MAX_WORD_LEN
    ensures 4 <= |s| <= CLEAR_CELLS
  {
    Decimal2(number) + ": " + prefix + if |prefix| < MAX_WORD_LEN then "_" else ""
  }

  /** The letters of the page showing. */
  function PageLetters(letters: string, page: nat): (shown: string)
    requires page < Pages(letters)
    ensures |shown| <= LETTERS_PER_PAGE
  {
    var start := page * LETTERS_PER_PAGE;
    if start + LETTERS_PER_PAGE <= |letters| then letters[start..start + LETTERS_PER_PAGE] else letters[start..]
  }

  function FooterRow(complete: bool, pages: nat): (s: string)
    ensures |s| <= COLS
  {
    (if complete then "(y)ok " else "") + "(x)del" + (if pages > 1 then "(0)+" else "")
  }

  function EntryPage(t: Typing, complete: bool, noise: EntryNoise): Frame
    requires Drawable(t)
  {
    HeadFits(t.cursor + 1);
    var shown := PageLetters(t.letters, t.page);
    [TextRow(Head(t.cursor + 1)), NoisedRow(PageLabel(t), noise[0]),
     match Previous(t) case None => BLANK_ROW case Some(word) => NoisedRow(WordRow(t.cursor, word), noise[1]),
     BLANK_ROW,
     NoisedRow(TypedRow(t.cursor + 1, t.prefix), noise[2]),
     NoisedRow(LETTER_KEYS[..|shown|], noise[3]), NoisedRow(shown, noise[4]),
     TextRow(FooterRow(complete, Pages(t.letters)))]
  }

  // ---- reading it

  datatype Unread = NoHead | NoSuchWord | NoField | NotAPrefix | NoOk | NoRuler | Misaligned | NoPage

  /** `split_once`: what is before and after a separator's first occurrence. */
  function SplitOnce(s: string, separator: string): Option<(string, string)> {
    match Find(s, separator)
    case None => None
    case Some(i) => if i + |separator| <= |s| then Some((s[..i], s[i + |separator|..])) else None
  }

  function EntryNumber(frame: Frame): Option<nat> {
    match RowText(frame, 0, COLS)
    case None => None
    case Some(head) =>
      match StripPrefix(head, "word ")
      case None => None
      case Some(rest) =>
        match SplitOnce(rest, " ")
        case None => None
        case Some((digits, _)) => ParseBelow(digits, USIZE)
  }

  function TypedSoFar(frame: Frame): Option<string> {
    match RowText(frame, 4, CLEAR_CELLS)
    case None => None
    case Some(field) =>
      match SplitOnce(field, ": ")
      case None => None
      case Some((_, rest)) =>
        match StripSuffix(rest, "_") case None => Some(rest) case Some(typed) => Some(typed)
  }

  function LetterKey(frame: Frame, letter: char): Result<char, Unread> {
    match (RowText(frame, 5, CLEAR_CELLS), RowText(frame, 6, CLEAR_CELLS))
    case (Some(ruler), Some(letters)) =>
      if |ruler| != |letters| then Failure(Misaligned)
      else (match Find(letters, [letter])
            case Some(slot) => if slot < |ruler| then Success(ruler[slot]) else Failure(Misaligned)
            case None => if Offers(frame, PAGE_KEY) then Success(PAGE_KEY) else Failure(NoPage))
    case _ => Failure(NoRuler)
  }

  /** `entry_press`. */
  function EntryPress(frame: Frame, paper: map<nat, string>): Result<char, Unread> {
    match EntryNumber(frame)
    case None => Failure(NoHead)
    case Some(number) =>
      if number !in paper then Failure(NoSuchWord)
      else match TypedSoFar(frame)
        case None => Failure(NoField)
        case Some(typed) =>
          var want := paper[number];
          if !(typed <= want) then Failure(NotAPrefix)
          else if |typed| == |want| then if Offers(frame, OK_KEY) then Success(OK_KEY) else Failure(NoOk)
          else LetterKey(frame, want[|typed|])
  }

  // ---- the key it reads

  /** The key above a letter on the page showing, or the one that turns the page. */
  function KeyOf(letters: string, page: nat, letter: char): char
    requires page < Pages(letters)
  {
    FindLetter(PageLetters(letters, page), letter);
    match Find(PageLetters(letters, page), [letter])
    case Some(slot) => LETTER_KEYS[slot]
    case None => PAGE_KEY
  }

  /** The key that takes a word one press further: accept it, pick its next letter, or turn the page. */
  function KeyFor(t: Typing, word: string): char
    requires Drawable(t) && t.prefix <= word
  {
    if t.prefix == word then OK_KEY
    else KeyOf(t.letters, t.page, word[|t.prefix|])
  }

  lemma HeadReadsBack(frame: Frame, number: nat)
    requires number < 100 && |Head(number)| <= COLS && frame[0] == TextRow(Head(number))
    ensures EntryNumber(frame) == Some(number)
  {
    var s := Head(number);
    TextReadsBack(frame, 0, s);
    var digits, rest := Decimal(number), s[5..];
    assert "word " <= s && rest == digits + " of 25";
    FirstAfterDigits(digits, " of 25");
    assert rest[..|digits|] == digits;
    PrintedNumbersParse(number, USIZE);
  }

  lemma {:induction false} FirstAfterDigits(digits: string, rest: string)
    requires AllDigits(digits) && rest != [] && rest[0] == ' '
    ensures Find(digits + rest, " ") == Some(|digits|)
    decreases |digits|
  {
    var s := digits + rest;
    if digits == [] {
      assert s[..1] == " ";
    } else {
      assert IsDigit(s[0]) && s[..1][0] == s[0];
      assert s[1..] == digits[1..] + rest;
      FirstAfterDigits(digits[1..], rest);
    }
  }

  lemma TypedReadsBack(frame: Frame, number: nat, prefix: string, noise: Noise)
    requires number < 100 && |prefix| <= MAX_WORD_LEN && AllUpper(prefix)
    requires frame[4] == NoisedRow(TypedRow(number, prefix), noise)
    ensures TypedSoFar(frame) == Some(prefix)
  {
    var s := TypedRow(number, prefix);
    TypedRowEnds(s, number, prefix);
    NoisedReadsBack(frame, 4, s, noise);
    ColonAfterTwo(s, number, prefix);
  }

  lemma TypedRowEnds(s: string, number: nat, prefix: string)
    requires number < 100 && |prefix| <= MAX_WORD_LEN && AllUpper(prefix) && s == TypedRow(number, prefix)
    ensures s[|s| - 1] != ' '
    ensures StripSuffix(s[4..], "_") == if |prefix| < MAX_WORD_LEN then Some(prefix) else None
    ensures |prefix| == MAX_WORD_LEN ==> s[4..] == prefix
  {
    var rest := s[4..];
    if |prefix| < MAX_WORD_LEN {
      assert rest == prefix + "_" && rest[..|rest| - 1] == prefix;
    } else {
      assert rest == prefix && Upper(prefix[|prefix| - 1]) && s[|s| - 1] == prefix[|prefix| - 1];
    }
  }

  lemma ColonAfterTwo(s: string, number: nat, prefix: string)
    requires number < 100 && |prefix| <= MAX_WORD_LEN && s == TypedRow(number, prefix)
    ensures Find(s, ": ") == Some(2)
  {
    assert s[0] != ':' && s[1] != ':';
    assert s[2..][..2] == ": ";
    assert Find(s[2..], ": ") == Some(0);
    assert s[1..][1..] == s[2..];
    assert Find(s[1..], ": ") == Some(1);
  }

  /** The footer spells the accept key exactly when a word can be accepted, and the page key when there are pages. */
  lemma FooterReadsBack(frame: Frame, complete: bool, pages: nat)
    requires frame[FOOTER_ROW] == TextRow(FooterRow(complete, pages))
    ensures complete ==> Offers(frame, OK_KEY)
    ensures pages > 1 ==> Offers(frame, PAGE_KEY)
  {
    var s := FooterRow(complete, pages);
    TextReadsBack(frame, FOOTER_ROW, s);
    if complete {
      assert s[..3] == ['(', OK_KEY, ')'];
    }
    if pages > 1 {
      var at := |s| - 4;
      assert s[at..][..3] == ['(', PAGE_KEY, ')'];
      FoundSomewhere(s, ['(', PAGE_KEY, ')'], at);
    }
  }

  lemma {:induction false} FoundSomewhere(s: string, pattern: string, at: nat)
    requires at + |pattern| <= |s| && s[at..][..|pattern|] == pattern
    ensures Find(s, pattern).Some?
    decreases at
  {
    if at > 0 {
      assert s[1..][at - 1..] == s[at..];
      FoundSomewhere(s[1..], pattern, at - 1);
    }
  }

  /** A letter is found at its place, and not found where it is not. */
  lemma {:induction false} FindLetter(s: string, c: char)
    ensures match Find(s, [c]) case Some(i) => i < |s| && s[i] == c case None => c !in s
    decreases |s|
  {
    if s != [] {
      assert s[..1] == [s[0]];
      FindLetter(s[1..], c);
      assert s == [s[0]] + s[1..];
    }
  }

  /** Every letter that may follow is on one page. */
  lemma LetterIsOnAPage(letters: string, i: nat)
    requires i < |letters|
    ensures i / LETTERS_PER_PAGE < Pages(letters)
    ensures i % LETTERS_PER_PAGE < |PageLetters(letters, i / LETTERS_PER_PAGE)|
    ensures PageLetters(letters, i / LETTERS_PER_PAGE)[i % LETTERS_PER_PAGE] == letters[i]
  {
  }

  /** A drawn state of a sound machine. */
  lemma SoundIsDrawable(list: seq<string>, t: Typing)
    requires WordList(list) && Sound(list, t)
    ensures Drawable(t)
  {
    FollowingIs(list, t.prefix);
    if Previous(t).Some? {
      var i :| 0 <= i < |list| && list[i] == Previous(t).value;
    }
  }

  /**
   With a word of the list on paper and a beginning of it typed, the key read off the screen is the one that
   takes it a press further, whatever the noise.
   */
  lemma ReadKeyTypesTheWord(list: seq<string>, t: Typing, noise: EntryNoise, paper: map<nat, string>, word: string)
    requires WordList(list) && Sound(list, t) && Drawable(t) && t.stage.AtWord?
    requires t.cursor + 1 in paper && paper[t.cursor + 1] == word && word in list && t.prefix <= word
    ensures EntryPress(EntryPage(t, Accepted(list, t.prefix).Some?, noise), paper) == Success(KeyFor(t, word))
  {
    var complete := Accepted(list, t.prefix).Some?;
    var frame := EntryPage(t, complete, noise);
    HeadFits(t.cursor + 1);
    HeadReadsBack(frame, t.cursor + 1);
    TypedReadsBack(frame, t.cursor + 1, t.prefix, noise[2]);
    FooterReadsBack(frame, complete, Pages(t.letters));
    if t.prefix == word {
      WholeWordIsAccepted(list, word);
    } else {
      NextLetterIsReadable(list, t, word);
      RowsReadBack(t.letters, t.page, frame, word[|t.prefix|], noise);
    }
  }

  lemma NextLetterIsReadable(list: seq<string>, t: Typing, word: string)
    requires WordList(list) && Sound(list, t) && word in list && t.prefix <= word && t.prefix != word
    ensures word[|t.prefix|] in t.letters && AllUpper(t.letters)
  {
    NextLetterIsOffered(list, t.prefix, word);
    FollowingIs(list, t.prefix);
  }

  lemma RowsReadBack(letters: string, page: nat, frame: Frame, letter: char, noise: EntryNoise)
    requires page < Pages(letters) && AllUpper(letters) && letter in letters
    requires var shown := PageLetters(letters, page);
      frame[5] == NoisedRow(LETTER_KEYS[..|shown|], noise[3]) && frame[6] == NoisedRow(shown, noise[4])
    requires Pages(letters) > 1 ==> Offers(frame, PAGE_KEY)
    ensures LetterKey(frame, letter) == Success(KeyOf(letters, page, letter))
  {
    var shown := PageLetters(letters, page);
    RulerReadsBack(frame, |shown|, noise[3]);
    LettersReadBack(frame, shown, noise[4]);
    FindLetter(shown, letter);
    if Pages(letters) == 1 {
      assert shown == letters;
    }
    KeyAboveLetter(frame, LETTER_KEYS[..|shown|], shown, letter);
  }

  lemma RulerReadsBack(frame: Frame, n: nat, noise: Noise)
    requires n <= |LETTER_KEYS| && frame[5] == NoisedRow(LETTER_KEYS[..n], noise)
    ensures RowText(frame, 5, CLEAR_CELLS) == Some(LETTER_KEYS[..n])
  {
    var ruler := LETTER_KEYS[..n];
    assert n > 0 ==> ruler[n - 1] == LETTER_KEYS[n - 1] != ' ';
    NoisedReadsBack(frame, 5, ruler, noise);
  }

  lemma LettersReadBack(frame: Frame, shown: string, noise: Noise)
    requires |shown| <= LETTERS_PER_PAGE && AllUpper(shown) && frame[6] == NoisedRow(shown, noise)
    ensures RowText(frame, 6, CLEAR_CELLS) == Some(shown)
  {
    assert shown != "" ==> Upper(shown[|shown| - 1]);
    NoisedReadsBack(frame, 6, shown, noise);
  }

  lemma KeyAboveLetter(frame: Frame, ruler: string, letters: string, letter: char)
    requires RowText(frame, 5, CLEAR_CELLS) == Some(ruler) && RowText(frame, 6, CLEAR_CELLS) == Some(letters)
    requires |ruler| == |letters| && (Find(letters, [letter]).None? ==> Offers(frame, PAGE_KEY))
    ensures LetterKey(frame, letter) == match Find(letters, [letter])
      case Some(slot) => if slot < |ruler| then Success(ruler[slot]) else Failure(Misaligned)
      case None => Success(PAGE_KEY)
  {
  }

  /** A word of the list is what an accept of it commits, even where it begins others. */
  lemma WholeWordIsAccepted(list: seq<string>, word: string)
    requires WordList(list) && word in list
    ensures Accepted(list, word) == Some(word)
  {
    FirstBegunIsItself(list, word);
  }
}
