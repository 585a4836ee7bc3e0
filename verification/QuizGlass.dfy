/** One question of the check quiz as the glass shows it, and the key a reader with the words on paper presses. */
module QuizGlass {
  import opened Wrappers
  import opened Text
  import opened Screens
  import opened BackupPages
  import opened Quizzes
  import opened Glass

  const QUIZ_OPTIONS: nat := |QUIZ_KEYS|

  /** The noise of the three option rows. */
  type OptionNoise = p: seq<Noise> | |p| == QUIZ_OPTIONS witness seq(QUIZ_OPTIONS, _ => ALL_NOISE)

  /** `backup_quiz_word` draws this question: a position of the backup, and three words that fit. */
  predicate Askable(q: Quiz) {
    && Truth(q).Some? && |q.words| == BACKUP_WORDS && q.asked < QUIZ_POSITIONS
    && |q.options| == QUIZ_OPTIONS && forall i :: 0 <= i < QUIZ_OPTIONS ==> CheckWord(q.options[i])
  }

  /** Every question of a quiz fits the glass. */
  lemma AskingIsAskable(q: Quiz, list: seq<string>)
    requires Asking(q, list)
    ensures Askable(q)
  {
    forall i | 0 <= i < QUIZ_OPTIONS
      ensures CheckWord(q.options[i])
    {
      assert q.options[i] in list;
    }
  }

  function Position(q: Quiz): nat
    requires Truth(q).Some?
  {
    q.order[q.asked]
  }

  function OptionRow(i: nat, word: string): (s: string)
    requires i < QUIZ_OPTIONS && CheckWord(word)
    ensures 3 < |s| <= CLEAR_CELLS
  {
    [QUIZ_KEYS[i]] + ") " + word
  }

  function Question(number: nat): string {
    "word " + Decimal(number) + " was?"
  }

  function Progress(asked: nat): string {
    "pg " + Decimal(asked + 1) + "/" + Decimal(QUIZ_POSITIONS) + " (x)no"
  }

  lemma QuestionFits(number: nat)
    requires number < 100
    ensures |Question(number)| <= COLS
  {
    DecimalLength(number, 2);
    assert Power10(2) == 100 by { assert Power10(1) == 10; }
  }

  /** `backup_quiz_word`. */
  function QuestionPage(q: Quiz, noise: OptionNoise): Frame
    requires Askable(q)
  {
    QuestionFits(Position(q) + 1);
    assert |Progress(q.asked)| <= COLS;
    [TextRow(Question(Position(q) + 1)), if q.wrong then TextRow("No - try again") else BLANK_ROW,
     NoisedRow(OptionRow(0, q.options[0]), noise[0]), BLANK_ROW,
     NoisedRow(OptionRow(1, q.options[1]), noise[1]), BLANK_ROW,
     NoisedRow(OptionRow(2, q.options[2]), noise[2]), TextRow(Progress(q.asked))]
  }

  // ---- reading it

  datatype Misread = NoQuestion | NotOnPaper | NoOption | WrongLabel | NotOffered

  function StripPrefix(s: string, prefix: string): Option<string> {
    if prefix <= s then Some(s[|prefix|..]) else None
  }

  function StripSuffix(s: string, suffix: string): Option<string> {
    if |suffix| <= |s| && s[|s| - |suffix|..] == suffix then Some(s[..|s| - |suffix|]) else None
  }

  function AskedNumber(frame: Frame): Option<nat> {
    match RowText(frame, 0, COLS)
    case None => None
    case Some(head) =>
      match StripPrefix(head, "word ")
      case None => None
      case Some(rest) =>
        match StripSuffix(rest, " was?")
        case None => None
        case Some(digits) => ParseBelow(digits, USIZE)
  }

  /** The first option row, from the `i`th on, that shows the word; a row labelled with another key is an error. */
  function KeyFrom(frame: Frame, want: string, i: nat): Result<char, Misread>
    requires i <= QUIZ_OPTIONS
    decreases QUIZ_OPTIONS - i
  {
    if i == QUIZ_OPTIONS then Failure(NotOffered)
    else match RowText(frame, 2 + 2 * i, CLEAR_CELLS)
      case None => Failure(NoOption)
      case Some(text) =>
        match Find(text, ") ")
        case None => Failure(NoOption)
        case Some(at) =>
          if |text| < at + 2 then Failure(NoOption)
          else if text[..at] != [QUIZ_KEYS[i]] then Failure(WrongLabel)
          else if text[at + 2..] == want then Success(QUIZ_KEYS[i])
          else KeyFrom(frame, want, i + 1)
  }

  /** `quiz_answer`. */
  function QuizAnswer(frame: Frame, paper: map<nat, string>): Result<char, Misread> {
    match AskedNumber(frame)
    case None => Failure(NoQuestion)
    case Some(number) =>
      if number !in paper then Failure(NotOnPaper) else KeyFrom(frame, paper[number], 0)
  }

  // ---- the key it presses is the right one

  lemma QuestionReadsBack(frame: Frame, number: nat)
    requires number < 100 && |Question(number)| <= COLS && frame[0] == TextRow(Question(number))
    ensures AskedNumber(frame) == Some(number)
  {
    var s := Question(number);
    TextReadsBack(frame, 0, s);
    var rest := s[5..];
    assert "word " <= s && rest == Decimal(number) + " was?";
    assert rest[|rest| - 5..] == " was?" && rest[..|rest| - 5] == Decimal(number);
    PrintedNumbersParse(number, USIZE);
  }

  lemma OptionReadsBack(frame: Frame, row: nat, i: nat, word: string, noise: Noise)
    requires row < ROWS && i < QUIZ_OPTIONS && CheckWord(word) && frame[row] == NoisedRow(OptionRow(i, word), noise)
    ensures var s := OptionRow(i, word);
      RowText(frame, row, CLEAR_CELLS) == Some(s) && Find(s, ") ") == Some(1) && s[..1] == [QUIZ_KEYS[i]]
        && s[3..] == word
  {
    var s := OptionRow(i, word);
    NoisedReadsBack(frame, row, s, noise);
    assert s[1..][..2] == ") ";
    assert Find(s[1..], ") ") == Some(0);
  }

  predicate IsTrueOption(q: Quiz, k: nat)
    requires Askable(q)
  {
    k < QUIZ_OPTIONS && q.options[k] == Truth(q).value
  }

  lemma {:induction false} TrueOptionIsFound(q: Quiz, noise: OptionNoise, i: nat)
    requires Askable(q) && i <= QUIZ_OPTIONS && Truth(q).value in q.options
    requires forall j :: 0 <= j < i ==> q.options[j] != Truth(q).value
    ensures exists k: nat ::
      IsTrueOption(q, k) && KeyFrom(QuestionPage(q, noise), Truth(q).value, i) == Success(QUIZ_KEYS[k])
    decreases QUIZ_OPTIONS - i
  {
    var f, truth := QuestionPage(q, noise), Truth(q).value;
    if i < QUIZ_OPTIONS {
      assert f[2 + 2 * i] == NoisedRow(OptionRow(i, q.options[i]), noise[i]);
      OptionReadsBack(f, 2 + 2 * i, i, q.options[i], noise[i]);
      if q.options[i] == truth {
        assert IsTrueOption(q, i);
      } else {
        TrueOptionIsFound(q, noise, i + 1);
      }
    }
  }

  /** With the true word on paper, the key read off the question is the one beside it, whatever the noise. */
  lemma ReadKeyAnswersTruth(q: Quiz, list: seq<string>, noise: OptionNoise, paper: map<nat, string>)
    requires Asking(q, list) && Position(q) + 1 in paper && paper[Position(q) + 1] == Truth(q).value
    ensures Askable(q) && QuizAnswer(QuestionPage(q, noise), paper).Success?
    ensures AnswersTruth(q, QuizAnswer(QuestionPage(q, noise), paper).value)
  {
    AskingIsAskable(q, list);
    QuestionFits(Position(q) + 1);
    QuestionReadsBack(QuestionPage(q, noise), Position(q) + 1);
    TrueOptionIsFound(q, noise, 0);
  }
}
