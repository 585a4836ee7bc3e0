/** The backup check quiz: the state behind one question, and what a key does to it. */
module Quizzes {
  import opened Wrappers
  import opened BackupPages
  import opened WordLists
  import opened RandomDraws

  const QUIZ_POSITIONS: nat := 8
  const QUIZ_KEYS: string := "123"
  const KEY_CANCEL: char := 'x'

  datatype Step = Unchanged | Redraw | Abort | Passed

  /** `order` holds the positions to ask; `options` is what is on the glass; `asked` counts right answers. */
  datatype Quiz = Quiz(words: seq<string>, order: seq<nat>, asked: nat, options: seq<string>, wrong: bool)

  /** What a fresh quiz draws: its order, and its first candidates if there are any. */
  datatype Draw = Draw(order: seq<nat>, options: Option<seq<string>>)

  function Truth(q: Quiz): Option<string> {
    if q.asked < |q.order| && q.order[q.asked] < |q.words| then Some(q.words[q.order[q.asked]]) else None
  }

  /** The candidate a key stands beside, if it stands beside one. */
  function Chosen(q: Quiz, key: char): Option<string> {
    if key == QUIZ_KEYS[0] && |q.options| > 0 then Some(q.options[0])
    else if key == QUIZ_KEYS[1] && |q.options| > 1 then Some(q.options[1])
    else if key == QUIZ_KEYS[2] && |q.options| > 2 then Some(q.options[2])
    else None
  }

  /** A fresh quiz over listed words. */
  function NewQuiz(words: seq<string>, list: seq<string>, draw: Draw): Option<Quiz> {
    if AllListed(words, list) && draw.options.Some?
    then Some(Quiz(words, draw.order, 0, draw.options.value, false))
    else None
  }

  predicate AllListed(words: seq<string>, list: seq<string>) {
    forall i :: 0 <= i < |words| ==> IsListed(list, words[i])
  }

  function Ask(q: Quiz, redraw: Option<seq<string>>): (Quiz, Step) {
    match redraw
    case None => (q, Abort)
    case Some(options) => (q.(options := options), Redraw)
  }

  /** `Quiz::key`: `redraw` is what drawing candidates for the question it asks next yields. */
  function Press(q: Quiz, key: char, redraw: Option<seq<string>>): (Quiz, Step) {
    match Truth(q)
    case None => (q, Unchanged)
    case Some(truth) =>
      if key == KEY_CANCEL then (q, Abort)
      else match Chosen(q, key)
        case None => (q, Unchanged)
        case Some(chosen) =>
          if chosen != truth then Ask(q.(wrong := true), redraw)
          else
            var t := q.(wrong := false, asked := q.asked + 1);
            if t.asked >= QUIZ_POSITIONS then (t, Passed) else Ask(t, redraw)
  }

  predicate AnswersTruth(q: Quiz, key: char) {
    Truth(q).Some? && key != KEY_CANCEL && Chosen(q, key) == Truth(q)
  }

  // ---- what is drawn

  /** `draw_order`, over the positions of a backup. */
  function QuizOrder(rng: Entropy): (order: seq<nat>)
    ensures |order| == QUIZ_POSITIONS
  {
    DrawOrder(BACKUP_WORDS, QUIZ_POSITIONS, rng)
  }

  /** The random words `QuizOrder` uses: one fewer than it shuffles, twice. */
  const ORDER_DRAWS: nat := BACKUP_WORDS - 2 + QUIZ_POSITIONS - 1

  /** Candidates for the question a quiz stands at. */
  function OptionsFor(q: Quiz, list: seq<string>, rng: Entropy): Option<seq<string>> {
    match Truth(q) case None => None case Some(truth) => DrawOptions(q.words, list, truth, rng)
  }

  function Unasked(words: seq<string>, order: seq<nat>): Quiz {
    Quiz(words, order, 0, ["", "", ""], false)
  }

  /** What `Quiz::new` draws. */
  function FreshDraw(words: seq<string>, list: seq<string>, rng: Entropy): Draw {
    Draw(QuizOrder(rng), OptionsFor(Unasked(words, QuizOrder(rng)), list, Skip(rng, ORDER_DRAWS)))
  }

  /** Where a key leaves the quiz, before candidates are drawn. */
  function AskedNext(q: Quiz, key: char): Quiz {
    if AnswersTruth(q, key) then q.(wrong := false, asked := q.asked + 1) else q.(wrong := true)
  }

  /** What a key draws. */
  function Redrawn(q: Quiz, key: char, list: seq<string>, rng: Entropy): Option<seq<string>> {
    OptionsFor(AskedNext(q, key), list, rng)
  }

  // ---- what every quiz keeps

  /** Eight different positions of a backup, the last among them. */
  predicate AsksFairly(order: seq<nat>) {
    && |order| == QUIZ_POSITIONS && Distinct(order)
    && (forall p :: p in order ==> p < BACKUP_WORDS) && BACKUP_WORDS - 1 in order
  }

  /** What the words and the order of a quiz are, from its first question to its last. */
  ghost predicate Founded(q: Quiz, list: seq<string>) {
    && WordList(list) && |q.words| == BACKUP_WORDS && (forall w :: w in q.words ==> w in list)
    && !AllAlike(q.words) && AsksFairly(q.order)
  }

  predicate AllAlike(words: seq<string>) {
    forall v, w :: v in words && w in words ==> v == w
  }

  /** A quiz between questions: one more to ask, and three candidates for it that can be told apart. */
  ghost predicate Asking(q: Quiz, list: seq<string>) {
    Founded(q, list) && q.asked < QUIZ_POSITIONS && Truth(q).Some? && Tellable(q.options, list, Truth(q).value)
  }

  lemma TruthIsListed(q: Quiz, list: seq<string>)
    requires Founded(q, list) && q.asked < QUIZ_POSITIONS
    ensures Truth(q).Some? && Truth(q).value in q.words && Truth(q).value in list
  {
    assert q.order[q.asked] in q.order;
  }

  /** Whatever the random words, a question of such a quiz has candidates that can be told apart. */
  lemma AlwaysOptions(q: Quiz, list: seq<string>, rng: Entropy)
    requires Founded(q, list) && q.asked < QUIZ_POSITIONS
    ensures OptionsFor(q, list, rng).Some?
    ensures Truth(q).Some? && Tellable(OptionsFor(q, list, rng).value, list, Truth(q).value)
  {
    TruthIsListed(q, list);
    ListHasThree(list);
    OptionsAre(q.words, list, Truth(q).value, rng);
    var v, w :| v in q.words && w in q.words && v != w;
    assert v != Truth(q).value || w != Truth(q).value;
  }

  /** There is a quiz over a backup exactly when its words are listed and not all the same one. */
  lemma NewQuizIff(words: seq<string>, list: seq<string>, rng: Entropy)
    requires WordList(list) && |words| == BACKUP_WORDS
    ensures var made := NewQuiz(words, list, FreshDraw(words, list, rng));
      && (made.Some? <==> (forall w :: w in words ==> w in list) && !AllAlike(words))
      && (made.Some? ==> Asking(made.value, list) && made.value.words == words && made.value.asked == 0)
  {
    AllListedIff(words, list);
    if forall w :: w in words ==> w in list {
      FreshOptions(words, list, rng);
    }
  }

  /** The first question has candidates exactly unless the words are all alike. */
  lemma FreshOptions(words: seq<string>, list: seq<string>, rng: Entropy)
    requires WordList(list) && |words| == BACKUP_WORDS && forall w :: w in words ==> w in list
    ensures var draw := FreshDraw(words, list, rng);
      && (draw.options.Some? <==> !AllAlike(words))
      && (draw.options.Some? ==> Asking(Quiz(words, draw.order, 0, draw.options.value, false), list))
  {
    var q, rest := Unasked(words, QuizOrder(rng)), Skip(rng, ORDER_DRAWS);
    OrderIs(BACKUP_WORDS, QUIZ_POSITIONS, rng);
    if AllAlike(words) {
      NoneForAlike(q, list, rest);
    } else {
      AlwaysOptions(q, list, rest);
      var draw := FreshDraw(words, list, rng);
      assert Truth(Quiz(words, draw.order, 0, draw.options.value, false)) == Truth(q);
    }
  }

  lemma AllListedIff(words: seq<string>, list: seq<string>)
    requires WordList(list)
    ensures AllListed(words, list) <==> forall w :: w in words ==> w in list
  {
    forall i | 0 <= i < |words|
      ensures IsListed(list, words[i]) <==> words[i] in list
    {
      ListedIff(list, words[i]);
    }
  }

  lemma NoneForAlike(q: Quiz, list: seq<string>, rng: Entropy)
    requires WordList(list) && |q.words| == BACKUP_WORDS && (forall w :: w in q.words ==> w in list)
    requires AllAlike(q.words) && AsksFairly(q.order) && q.asked < QUIZ_POSITIONS
    ensures OptionsFor(q, list, rng).None?
  {
    assert q.order[q.asked] in q.order;
    ListHasThree(list);
    OptionsAre(q.words, list, Truth(q).value, rng);
  }

  /** A key ends a quiz only by cancelling it or with the eighth right answer; any other leaves it asking. */
  lemma PressKeepsAsking(q: Quiz, key: char, list: seq<string>, rng: Entropy)
    requires Asking(q, list)
    ensures var (q', step) := Press(q, key, Redrawn(q, key, list, rng));
      && (step.Abort? <==> key == KEY_CANCEL)
      && (step.Redraw? || step.Unchanged? ==> Asking(q', list))
  {
    var t := AskedNext(q, key);
    if t.asked < QUIZ_POSITIONS {
      assert Founded(t, list);
      AlwaysOptions(t, list, rng);
    }
  }
}
