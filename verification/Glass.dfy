/**
 A backup's pages as rows of character cells, and what a reader makes of them. A cell is what the
 reverse glyph lookup says of it: a character, or nothing where noise is drawn.
 */
module Glass {
  import opened Wrappers
  import opened Text
  import opened Screens
  import opened BackupPages

  const ROWS: nat := 8
  const FOOTER_ROW: nat := ROWS - 1
  /** `NN: ` and the longest word; the noise never reaches these cells. */
  const CLEAR_CELLS: nat := 4 + MAX_WORD_LEN
  const NEXT_KEY: char := '9'

  type Cell = Option<char>
  type Row = r: seq<Cell> | |r| == COLS witness seq(COLS, _ => None)
  const UNREADABLE_ROW: Row := seq(COLS, _ => None)
  type Frame = f: seq<Row> | |f| == ROWS witness seq(ROWS, _ => UNREADABLE_ROW)

  /** What the lookup makes of one row's noise: it may look like anything, or like nothing. */
  type Noise = n: seq<Cell> | |n| == COLS - CLEAR_CELLS witness seq(COLS - CLEAR_CELLS, _ => None)
  const ALL_NOISE: Noise := seq(COLS - CLEAR_CELLS, _ => None)
  /** The noise of the four word rows of one page. */
  type PageNoise = p: seq<Noise> | |p| == WORDS_PER_PAGE
    witness seq(WORDS_PER_PAGE, _ => ALL_NOISE)

  // ---- drawing

  function Spaces(n: nat): (s: string)
    ensures |s| == n && forall i :: 0 <= i < n ==> s[i] == ' '
  {
    seq(n, _ => ' ')
  }

  function Cells(s: string): (c: seq<Cell>)
    ensures |c| == |s| && forall i :: 0 <= i < |s| ==> c[i] == Some(s[i])
  {
    seq(|s|, i requires 0 <= i < |s| => Some(s[i]))
  }

  function TextRow(s: string): (r: Row)
    requires |s| <= COLS
    ensures r == Cells(s + Spaces(COLS - |s|))
  {
    Cells(s + Spaces(COLS - |s|))
  }

  const BLANK_ROW: Row := TextRow("")

  function NoisedRow(s: string, noise: Noise): (r: Row)
    requires |s| <= CLEAR_CELLS
    ensures r[..CLEAR_CELLS] == Cells(s + Spaces(CLEAR_CELLS - |s|))
  {
    Cells(s + Spaces(CLEAR_CELLS - |s|)) + noise
  }

  function IndexRow(index: nat): (s: string)
    requires index < U32
    ensures |s| <= COLS
  {
    DecimalLength(index, 10);
    assert Power10(10) >= U32 by {
      assert Power10(3) == 1000;
      assert Power10(6) == 1000 * Power10(3);
      assert Power10(9) == 1000 * Power10(6);
    }
    "#" + Decimal(index)
  }

  function IndexPage(index: nat): (f: Frame)
    requires index < U32
  {
    [TextRow("Write this down"), BLANK_ROW, TextRow("Share index:"), BLANK_ROW,
     TextRow(IndexRow(index)), BLANK_ROW, BLANK_ROW, TextRow("(9)next")]
  }

  function WordRow(number: nat, word: string): (s: string)
    requires number < 100 && CheckWord(word)
    ensures 4 < |s| <= CLEAR_CELLS
  {
    Decimal2(number) + ": " + word
  }

  /** Row `2 + i` of a word page: a word with its noise, or nothing past the last word. */
  function WordRowAt(words: seq<string>, start: nat, i: nat, noise: Noise): Row
    requires Renderable(words)
  {
    if start + i < BACKUP_WORDS then NoisedRow(WordRow(start + i + 1, words[start + i]), noise) else BLANK_ROW
  }

  function HeadRow(words: seq<string>, start: nat): (s: string)
    requires start < BACKUP_WORDS
    ensures |s| <= COLS
  {
    var last := if start + WORDS_PER_PAGE < BACKUP_WORDS then start + WORDS_PER_PAGE else BACKUP_WORDS;
    DecimalLength(start + 1, 2);
    DecimalLength(last, 2);
    assert Power10(2) == 100 by { assert Power10(1) == 10; }
    "words " + Decimal(start + 1) + "-" + Decimal(last)
  }

  function WordsPage(words: seq<string>, start: nat, noise: PageNoise): (f: Frame)
    requires Renderable(words) && start < BACKUP_WORDS
  {
    [TextRow(HeadRow(words, start)), BLANK_ROW,
     WordRowAt(words, start, 0, noise[0]), WordRowAt(words, start, 1, noise[1]),
     WordRowAt(words, start, 2, noise[2]), WordRowAt(words, start, 3, noise[3]),
     BLANK_ROW, TextRow("(9)next (7)back")]
  }

  /** `BackupPages::render`, for a page that is drawn. */
  function Rendered(index: nat, words: seq<string>, page: nat, noise: PageNoise): Frame
    requires index < U32 && Renderable(words) && Draws(page)
  {
    if page == 0 then IndexPage(index) else WordsPage(words, WordStart(page), noise)
  }

  // ---- reading

  function TrimEnd(s: string): (t: string)
    ensures t <= s && (t != [] ==> t[|t| - 1] != ' ')
  {
    if s == [] || s[|s| - 1] != ' ' then s else TrimEnd(s[..|s| - 1])
  }

  /** The characters of some cells, or nothing if one of them is not a glyph. */
  function Chars(cells: seq<Cell>): Option<string> {
    if cells == [] then Some("")
    else match (cells[0], Chars(cells[1..]))
      case (Some(c), Some(rest)) => Some([c] + rest)
      case _ => None
  }

  /** `row_text`. */
  function RowText(frame: Frame, row: nat, cells: nat): Option<string>
    requires row < ROWS && cells <= COLS
  {
    match Chars(frame[row][..cells])
    case None => None
    case Some(s) => Some(TrimEnd(s))
  }

  /** Where a pattern first occurs. */
  function Find(s: string, pattern: string): Option<nat>
    decreases |s|
  {
    if |s| < |pattern| then None
    else if s[..|pattern|] == pattern then Some(0)
    else if s == [] then None
    else match Find(s[1..], pattern)
      case None => None
      case Some(i) => Some(i + 1)
  }

  function Footer(frame: Frame): string {
    match RowText(frame, FOOTER_ROW, COLS) case None => "" case Some(s) => s
  }

  /** `offers`: the footer spells the key as every legend does. */
  predicate Offers(frame: Frame, key: char) {
    Find(Footer(frame), ['(', key, ')']).Some?
  }

  /** `glass_share_index`. */
  function GlassShareIndex(frame: Frame): Option<nat> {
    match RowText(frame, 4, COLS)
    case None => None
    case Some(s) => if s == [] || s[0] != '#' then None else ParseBelow(s[1..], U32)
  }

  datatype Numbered = Numbered(number: nat, word: string)

  /** One `NN: WORD` row. */
  function ParseWordRow(s: string): Option<Numbered> {
    match Find(s, ": ")
    case None => None
    case Some(i) =>
      if |s| < i + 2 then None
      else match ParseBelow(s[..i], USIZE)
        case None => None
        case Some(n) => Some(Numbered(n, s[i + 2..]))
  }

  /** The rows from `i` on: a blank row ends the page, an illegible one fails it. */
  function WordsFrom(frame: Frame, i: nat): Option<seq<Numbered>>
    requires i <= WORDS_PER_PAGE
    decreases WORDS_PER_PAGE - i
  {
    if i == WORDS_PER_PAGE then Some([])
    else match RowText(frame, 2 + i, CLEAR_CELLS)
      case None => None
      case Some(s) =>
        if s == [] then Some([])
        else match (ParseWordRow(s), WordsFrom(frame, i + 1))
          case (Some(one), Some(rest)) => Some([one] + rest)
          case _ => None
  }

  /** `glass_words`. */
  function GlassWords(frame: Frame): Option<seq<Numbered>> {
    match WordsFrom(frame, 0)
    case None => None
    case Some(found) => if found == [] then None else Some(found)
  }

  // ---- what was drawn is what is read

  lemma {:induction false} CharsOfCells(s: string)
    ensures Chars(Cells(s)) == Some(s)
  {
    if s != [] {
      assert Cells(s)[1..] == Cells(s[1..]);
      CharsOfCells(s[1..]);
      assert s == [s[0]] + s[1..];
    }
  }

  lemma {:induction false} TrimPadded(s: string, n: nat)
    requires s == [] || s[|s| - 1] != ' '
    ensures TrimEnd(s + Spaces(n)) == s
  {
    if n == 0 {
      assert s + Spaces(0) == s;
    } else {
      var t := s + Spaces(n);
      assert t[..|t| - 1] == s + Spaces(n - 1);
      TrimPadded(s, n - 1);
    }
  }

  lemma TextReadsBack(frame: Frame, row: nat, s: string)
    requires row < ROWS && |s| <= COLS && frame[row] == TextRow(s) && (s == [] || s[|s| - 1] != ' ')
    ensures RowText(frame, row, COLS) == Some(s)
  {
    CharsOfCells(s + Spaces(COLS - |s|));
    TrimPadded(s, COLS - |s|);
    assert frame[row][..COLS] == frame[row];
  }

  lemma IndexReadsBack(index: nat)
    requires index < U32
    ensures GlassShareIndex(IndexPage(index)) == Some(index) && Offers(IndexPage(index), NEXT_KEY)
  {
    var f, s := IndexPage(index), IndexRow(index);
    assert IsDigit(Decimal(index)[|Decimal(index)| - 1]);
    TextReadsBack(f, 4, s);
    assert s[1..] == Decimal(index);
    PrintedNumbersParse(index, U32);
    TextReadsBack(f, FOOTER_ROW, "(9)next");
    assert "(9)next"[..3] == ['(', '9', ')'];
  }

  lemma WordRowParses(number: nat, word: string)
    requires number < 100 && CheckWord(word)
    ensures ParseWordRow(WordRow(number, word)) == Some(Numbered(number, word))
  {
    var s := WordRow(number, word);
    assert s[0] != ':' && s[1] != ':';
    assert s[2..][..2] == ": ";
    assert Find(s[2..], ": ") == Some(0);
    assert s[1..][1..] == s[2..];
    assert Find(s[1..], ": ") == Some(1);
    assert s[..2] == Decimal2(number) && s[4..] == word;
    PrintedNumbersParse(number, USIZE);
  }

  lemma NoisedReadsBack(frame: Frame, row: nat, s: string, noise: Noise)
    requires row < ROWS && |s| <= CLEAR_CELLS && frame[row] == NoisedRow(s, noise)
    requires s == "" || s[|s| - 1] != ' '
    ensures RowText(frame, row, CLEAR_CELLS) == Some(s)
  {
    CharsOfCells(s + Spaces(CLEAR_CELLS - |s|));
    TrimPadded(s, CLEAR_CELLS - |s|);
  }

  lemma BlankReadsBack(frame: Frame, row: nat)
    requires row < ROWS && frame[row] == BLANK_ROW
    ensures RowText(frame, row, CLEAR_CELLS) == Some("")
  {
    assert "" + Spaces(COLS) == Spaces(COLS);
    assert BLANK_ROW[..CLEAR_CELLS] == Cells(Spaces(CLEAR_CELLS));
    CharsOfCells(Spaces(CLEAR_CELLS));
    assert "" + Spaces(CLEAR_CELLS) == Spaces(CLEAR_CELLS);
    TrimPadded("", CLEAR_CELLS);
  }

  /** The words of the page that starts at `start`, from its row `i` on. */
  function PageWords(words: seq<string>, start: nat, i: nat): (r: seq<Numbered>)
    requires |words| == BACKUP_WORDS && i <= WORDS_PER_PAGE
    decreases WORDS_PER_PAGE - i
  {
    if i == WORDS_PER_PAGE || start + i >= BACKUP_WORDS then []
    else [Numbered(start + i + 1, words[start + i])] + PageWords(words, start, i + 1)
  }

  /** What a reader finds in row `2 + i` of a word page: its word, or nothing past the last. */
  function WordRowText(words: seq<string>, start: nat, i: nat): string
    requires Renderable(words)
  {
    if start + i < BACKUP_WORDS then WordRow(start + i + 1, words[start + i]) else ""
  }

  lemma WordRowIsThere(words: seq<string>, start: nat, noise: PageNoise, i: nat)
    requires Renderable(words) && start < BACKUP_WORDS && i < WORDS_PER_PAGE
    ensures WordsPage(words, start, noise)[2 + i] == WordRowAt(words, start, i, noise[i])
  {
    var f := WordsPage(words, start, noise);
    if i == 0 {
      assert f[2] == WordRowAt(words, start, 0, noise[0]);
    } else if i == 1 {
      assert f[3] == WordRowAt(words, start, 1, noise[1]);
    } else if i == 2 {
      assert f[4] == WordRowAt(words, start, 2, noise[2]);
    } else {
      assert f[5] == WordRowAt(words, start, 3, noise[3]);
    }
  }

  lemma WordRowReadsBack(words: seq<string>, start: nat, noise: PageNoise, i: nat)
    requires Renderable(words) && start < BACKUP_WORDS && i < WORDS_PER_PAGE
    ensures RowText(WordsPage(words, start, noise), 2 + i, CLEAR_CELLS) == Some(WordRowText(words, start, i))
  {
    var f := WordsPage(words, start, noise);
    WordRowIsThere(words, start, noise, i);
    if start + i < BACKUP_WORDS {
      assert CheckWord(words[start + i]);
      NoisedReadsBack(f, 2 + i, WordRow(start + i + 1, words[start + i]), noise[i]);
    } else {
      BlankReadsBack(f, 2 + i);
    }
  }

  lemma {:induction false} WordsReadBack(f: Frame, words: seq<string>, start: nat, i: nat)
    requires Renderable(words) && i <= WORDS_PER_PAGE
    requires forall r: nat :: r < WORDS_PER_PAGE ==>
      RowText(f, 2 + r, CLEAR_CELLS) == Some(WordRowText(words, start, r))
    ensures WordsFrom(f, i) == Some(PageWords(words, start, i))
    decreases WORDS_PER_PAGE - i
  {
    if i < WORDS_PER_PAGE {
      assert RowText(f, 2 + i, CLEAR_CELLS) == Some(WordRowText(words, start, i));
    }
    if i < WORDS_PER_PAGE && start + i < BACKUP_WORDS {
      WordRowParses(start + i + 1, words[start + i]);
      WordsReadBack(f, words, start, i + 1);
    }
  }

  /** Whatever the noise looks like, a word page reads back as its words under their own numbers. */
  lemma WordPageReadsBack(words: seq<string>, start: nat, noise: PageNoise)
    requires Renderable(words) && start < BACKUP_WORDS
    ensures GlassWords(WordsPage(words, start, noise)) == Some(PageWords(words, start, 0))
    ensures Offers(WordsPage(words, start, noise), NEXT_KEY)
  {
    forall r: nat | r < WORDS_PER_PAGE
      ensures RowText(WordsPage(words, start, noise), 2 + r, CLEAR_CELLS) == Some(WordRowText(words, start, r))
    {
      WordRowReadsBack(words, start, noise, r);
    }
    WordsReadBack(WordsPage(words, start, noise), words, start, 0);
    TextReadsBack(WordsPage(words, start, noise), FOOTER_ROW, "(9)next (7)back");
    assert "(9)next (7)back"[..3] == ['(', '9', ')'];
  }

  // ---- the recorded question

  const PRESS: string := "Press ("

  /** `ui::backup_recorded`. */
  function RecordedQuestion(confirm: char): Frame {
    [TextRow("Wrote down all"), TextRow("25 words + the"), TextRow("share index?"), BLANK_ROW,
     TextRow("No word is"), TextRow("shown again."), BLANK_ROW, TextRow(PRESS + [confirm] + ") x=no")]
  }

  function Legible(c: Cell): char {
    match c case None => ' ' case Some(ch) => ch
  }

  /** `advertised_key`: the digit inside `Press (n)`, or the key of a plain `k=...` legend. */
  function AdvertisedKey(frame: Frame): Option<char> {
    var row := seq(COLS, i requires 0 <= i < COLS => Legible(frame[FOOTER_ROW][i]));
    match Find(row, PRESS)
    case Some(i) => if i + |PRESS| < COLS then Some(row[i + |PRESS|]) else None
    case None => if row[1] == '=' then Some(row[0]) else None
  }

  /** The question's own digit is the key it advertises. */
  lemma QuestionAdvertisesItsDigit(confirm: char)
    ensures AdvertisedKey(RecordedQuestion(confirm)) == Some(confirm)
  {
    var text := PRESS + [confirm] + ") x=no";
    var frame := RecordedQuestion(confirm);
    var row := seq(COLS, i requires 0 <= i < COLS => Legible(frame[FOOTER_ROW][i]));
    assert row == text + Spaces(COLS - |text|);
    assert row[..|PRESS|] == PRESS;
  }
}
