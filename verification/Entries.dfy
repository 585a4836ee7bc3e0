/** Typing a share back in: the machine behind the entry screen, one key at a time. */
module Entries {
  import opened Wrappers
  import opened Wire
  import opened BackupPages
  import opened WordLists

  const LETTER_KEYS: string := "123456789"
  const LETTERS_PER_PAGE: nat := 9
  const PAGE_KEY: char := '0'
  const OK_KEY: char := 'y'
  const DELETE_KEY: char := 'x'

  datatype Stage = AtIndex | AtWord | AtFailed

  /** `index` is zero when nothing is typed; `words` is 25 slots and not a stack. */
  datatype Typing = Typing(stage: Stage, index: nat, words: seq<Option<string>>, cursor: nat,
                           prefix: string, letters: string, page: nat)

  datatype TypedShare = TypedShare(index: nat, words: seq<string>)

  /** `from_words`: the image of the share some words spell, if their checksum passes. */
  type Checksum = c: imap<TypedShare, Option<ShareImage>> | forall t :: t in c
    ghost witness imap t: TypedShare :: None

  datatype KeyStep = Unchanged | Redraw | Abort | Spelled(image: ShareImage)

  predicate Shaped(t: Typing) {
    |t.words| == BACKUP_WORDS && t.cursor < BACKUP_WORDS
  }

  /** What a session holds of a transcription under way. */
  type Held = t: Typing | Shaped(t) witness Typing(AtIndex, 0, seq(BACKUP_WORDS, _ => None), 0, [], [], 0)

  // ---- what is offered and what is accepted

  function Pages(letters: string): (n: nat)
    ensures n >= 1
  {
    var n := (|letters| + LETTERS_PER_PAGE - 1) / LETTERS_PER_PAGE;
    if n == 0 then 1 else n
  }

  /** The letter a key stands under on the page showing. */
  function LetterUnder(letters: string, page: nat, key: char): Option<char> {
    if '1' <= key <= '9' && page * LETTERS_PER_PAGE + (key as int - '1' as int) < |letters|
    then Some(letters[page * LETTERS_PER_PAGE + (key as int - '1' as int)]) else None
  }

  /** The word an accept commits: the only one the prefix begins, or the prefix itself where it is one. */
  function Accepted(list: seq<string>, prefix: string): Option<string> {
    var block := Begun(list, prefix);
    if |block| == 1 then Some(block[0])
    else if block != [] && block[0] == prefix then Some(prefix)
    else None
  }

  // ---- one key

  function Pushed(prefix: string, letter: char): Option<string> {
    if Upper(letter) && |prefix| < MAX_WORD_LEN then Some(prefix + [letter]) else None
  }

  function Loaded(word: string): string {
    if AllUpper(word) && |word| <= MAX_WORD_LEN then word else []
  }

  function Refreshed(list: seq<string>, t: Typing): (u: Typing)
    ensures Shaped(t) ==> Shaped(u)
  {
    t.(letters := Following(list, t.prefix), page := 0)
  }

  function GoneTo(list: seq<string>, t: Typing, cursor: nat): (u: Typing)
    requires Shaped(t)
    ensures Shaped(u)
  {
    var c := if cursor < BACKUP_WORDS then cursor else BACKUP_WORDS - 1;
    var prefix := match t.words[c] case None => [] case Some(word) => Loaded(word);
    Refreshed(list, t.(cursor := c, prefix := prefix))
  }

  function IndexKeyed(list: seq<string>, t: Typing, key: char): (r: (Typing, KeyStep))
    requires Shaped(t)
    ensures Shaped(r.0)
  {
    if '0' <= key <= '9' then
      var n := t.index * 10 + (key as int - '0' as int);
      if n < U32 && n != t.index then (t.(index := n), Redraw) else (t, Unchanged)
    else if key == OK_KEY && t.index > 0 then (GoneTo(list, t.(stage := AtWord), 0), Redraw)
    else if key == DELETE_KEY then if t.index > 0 then (t.(index := t.index / 10), Redraw) else (t, Abort)
    else (t, Unchanged)
  }

  /** The first slot from the `n`th on with no word in it. */
  function FirstEmpty(words: seq<Option<string>>, n: nat): (r: Option<nat>)
    requires n <= |words|
    ensures r.Some? ==> n <= r.value < |words| && words[r.value].None?
    ensures r.Some? ==> forall i :: n <= i < r.value ==> words[i].Some?
    ensures r.None? ==> forall i :: n <= i < |words| ==> words[i].Some?
    decreases |words| - n
  {
    if n == |words| then None else if words[n].None? then Some(n) else FirstEmpty(words, n + 1)
  }

  function Filled(words: seq<Option<string>>): seq<string>
    requires forall i :: 0 <= i < |words| ==> words[i].Some?
  {
    seq(|words|, i requires 0 <= i < |words| => words[i].value)
  }

  function Submitted(list: seq<string>, checks: Checksum, t: Typing): (r: (Typing, KeyStep))
    requires Shaped(t)
    ensures Shaped(r.0)
  {
    match FirstEmpty(t.words, 0)
    case Some(missing) => (GoneTo(list, t, missing), Redraw)
    case None =>
      match checks[TypedShare(t.index, Filled(t.words))]
      case Some(image) => (t, Spelled(image))
      case None => (t.(stage := AtFailed), Redraw)
  }

  function Deleted(list: seq<string>, t: Typing): (u: Typing)
    requires Shaped(t)
    ensures Shaped(u)
  {
    if t.prefix != [] then Refreshed(list, t.(prefix := t.prefix[..|t.prefix| - 1]))
    else if t.cursor > 0 then GoneTo(list, t, t.cursor - 1)
    else t.(stage := AtIndex)
  }

  function Committed(list: seq<string>, checks: Checksum, t: Typing): (r: (Typing, KeyStep))
    requires Shaped(t)
    ensures Shaped(r.0)
  {
    match Accepted(list, t.prefix)
    case None => (t, Unchanged)
    case Some(word) =>
      var t' := t.(words := t.words[t.cursor := Some(word)]);
      if t.cursor + 1 < BACKUP_WORDS then (GoneTo(list, t', t.cursor + 1), Redraw)
      else Submitted(list, checks, t')
  }

  function WordKeyed(list: seq<string>, checks: Checksum, t: Typing, key: char): (r: (Typing, KeyStep))
    requires Shaped(t)
    ensures Shaped(r.0)
  {
    match LetterUnder(t.letters, t.page, key)
    case Some(letter) =>
      (match Pushed(t.prefix, letter)
       case Some(prefix) => (Refreshed(list, t.(prefix := prefix)), Redraw)
       case None => (t, Unchanged))
    case None =>
      if key == PAGE_KEY then
        if Pages(t.letters) > 1 then (t.(page := (t.page + 1) % Pages(t.letters)), Redraw) else (t, Unchanged)
      else if key == DELETE_KEY then (Deleted(list, t), Redraw)
      else if key == OK_KEY then Committed(list, checks, t)
      else (t, Unchanged)
  }

  /** `Entry::key`. */
  function Keyed(list: seq<string>, checks: Checksum, t: Typing, key: char): (r: (Typing, KeyStep))
    requires Shaped(t)
    ensures Shaped(r.0)
  {
    match t.stage
    case AtIndex => IndexKeyed(list, t, key)
    case AtWord => WordKeyed(list, checks, t, key)
    case AtFailed => (GoneTo(list, t.(stage := AtWord), BACKUP_WORDS - 1), Redraw)
  }

  function Fresh(list: seq<string>): Typing {
    Refreshed(list, Typing(AtIndex, 0, seq(BACKUP_WORDS, _ => None), 0, [], [], 0))
  }

  // ---- what every key keeps

  /** What every reachable state has. */
  ghost predicate Sound(list: seq<string>, t: Typing) {
    && Shaped(t) && t.index < U32 && (!t.stage.AtIndex? ==> t.index > 0)
    && AllUpper(t.prefix) && |t.prefix| <= MAX_WORD_LEN && Begun(list, t.prefix) != []
    && t.letters == Following(list, t.prefix) && t.page < Pages(t.letters)
    && (forall i :: 0 <= i < BACKUP_WORDS && t.words[i].Some? ==> t.words[i].value in list)
    && forall i :: 0 <= i < (if t.stage.AtFailed? then BACKUP_WORDS else t.cursor) ==> t.words[i].Some?
  }

  /** Every shorter prefix begins what the longer one does. */
  lemma ShorterBegins(list: seq<string>, prefix: string, n: nat)
    requires n <= |prefix| && Begun(list, prefix) != []
    ensures Begun(list, prefix[..n]) != []
  {
    var w := Begun(list, prefix)[0];
    assert w in list && prefix[..n] <= w;
    assert w in Begun(list, prefix[..n]);
  }

  /** A letter that is offered begins a word together with what is typed. */
  lemma OfferedBegins(list: seq<string>, prefix: string, letter: char)
    requires WordList(list) && letter in Following(list, prefix)
    ensures Upper(letter) && Begun(list, prefix + [letter]) != []
  {
    FollowingIs(list, prefix);
    var i :| 0 <= i < |Following(list, prefix)| && Following(list, prefix)[i] == letter;
    assert GoesOn(list, prefix, letter);
    var w :| w in list && prefix + [letter] <= w;
    assert w in Begun(list, prefix + [letter]);
  }

  lemma GoneToIsSound(list: seq<string>, t: Typing, cursor: nat)
    requires WordList(list) && Shaped(t) && 0 < t.index < U32 && !t.stage.AtFailed?
    requires forall i :: 0 <= i < BACKUP_WORDS && t.words[i].Some? ==> t.words[i].value in list
    requires forall i :: 0 <= i < cursor && i < BACKUP_WORDS ==> t.words[i].Some?
    ensures Sound(list, GoneTo(list, t, cursor))
  {
    var u := GoneTo(list, t, cursor);
    if u.prefix == [] {
      assert GoesOn(list, [], 'A');
      var w :| w in list && [] + ['A'] <= w;
      assert w in Begun(list, []);
    } else {
      assert u.prefix in Begun(list, u.prefix);
    }
  }

  lemma FreshIsSound(list: seq<string>)
    requires WordList(list)
    ensures Sound(list, Fresh(list))
  {
    var t := Fresh(list).(index := 1);
    assert t.words[0].None?;
    GoneToIsSound(list, t, 0);
  }

  /** An accept is the prefix itself or the one word it begins, never a guess. */
  lemma AcceptIsUnambiguous(list: seq<string>, prefix: string)
    ensures Accepted(list, prefix).Some? ==>
      var w := Accepted(list, prefix).value;
      w in list && prefix <= w && (w == prefix || Begun(list, prefix) == [w])
  {
    var block := Begun(list, prefix);
    if |block| == 1 {
      assert block == [block[0]] && block[0] in block;
    } else if block != [] {
      assert block[0] in block;
    }
  }

  lemma PrefixIsSound(list: seq<string>, t: Typing, prefix: string)
    requires WordList(list) && Sound(list, t)
    requires AllUpper(prefix) && |prefix| <= MAX_WORD_LEN && Begun(list, prefix) != []
    ensures Sound(list, Refreshed(list, t.(prefix := prefix)))
  {
  }

  lemma LetterIsSound(list: seq<string>, t: Typing, letter: char)
    requires WordList(list) && Sound(list, t) && letter in t.letters && Pushed(t.prefix, letter).Some?
    ensures Sound(list, Refreshed(list, t.(prefix := Pushed(t.prefix, letter).value)))
  {
    OfferedBegins(list, t.prefix, letter);
    PrefixIsSound(list, t, t.prefix + [letter]);
  }

  lemma DeleteIsSound(list: seq<string>, t: Typing)
    requires WordList(list) && Sound(list, t) && t.stage.AtWord?
    ensures Sound(list, Deleted(list, t))
  {
    if t.prefix != [] {
      LetterGone(list, t);
    } else if t.cursor > 0 {
      WordBack(list, t);
    } else {
      BackIsSound(list, t);
    }
  }

  lemma LetterGone(list: seq<string>, t: Typing)
    requires WordList(list) && Sound(list, t) && t.prefix != []
    ensures Sound(list, Deleted(list, t))
  {
    ShorterIsSound(list, t, |t.prefix| - 1);
  }

  lemma ShorterIsSound(list: seq<string>, t: Typing, n: nat)
    requires WordList(list) && Sound(list, t) && n <= |t.prefix|
    ensures Sound(list, Refreshed(list, t.(prefix := t.prefix[..n])))
  {
    ShorterBegins(list, t.prefix, n);
    PrefixIsSound(list, t, t.prefix[..n]);
  }

  lemma WordBack(list: seq<string>, t: Typing)
    requires WordList(list) && Sound(list, t) && t.stage.AtWord? && t.prefix == [] && t.cursor > 0
    ensures Sound(list, Deleted(list, t))
  {
    GoneToIsSound(list, t, t.cursor - 1);
  }

  lemma BackIsSound(list: seq<string>, t: Typing)
    requires Sound(list, t)
    ensures Sound(list, t.(stage := AtIndex))
  {
  }

  lemma CommitIsSound(list: seq<string>, checks: Checksum, t: Typing)
    requires WordList(list) && Sound(list, t) && t.stage.AtWord?
    ensures Sound(list, Committed(list, checks, t).0)
  {
    var word := Accepted(list, t.prefix);
    if word.Some? {
      AcceptIsUnambiguous(list, t.prefix);
      SlotIsSound(list, t, word.value);
      FilledIsSound(list, checks, t.(words := t.words[t.cursor := word]));
    }
  }

  lemma FilledIsSound(list: seq<string>, checks: Checksum, t: Typing)
    requires WordList(list) && Sound(list, t) && t.stage.AtWord? && t.words[t.cursor].Some?
    ensures t.cursor + 1 < BACKUP_WORDS ==> Sound(list, GoneTo(list, t, t.cursor + 1))
    ensures Sound(list, Submitted(list, checks, t).0)
  {
    if t.cursor + 1 < BACKUP_WORDS {
      GoneToIsSound(list, t, t.cursor + 1);
    }
    SubmitIsSound(list, checks, t);
  }

  lemma SlotIsSound(list: seq<string>, t: Typing, word: string)
    requires Sound(list, t) && word in list
    ensures Sound(list, t.(words := t.words[t.cursor := Some(word)]))
  {
  }

  lemma SubmitIsSound(list: seq<string>, checks: Checksum, t: Typing)
    requires WordList(list) && Sound(list, t) && t.stage.AtWord?
    ensures Sound(list, Submitted(list, checks, t).0)
  {
    if FirstEmpty(t.words, 0).Some? {
      GoneToIsSound(list, t, FirstEmpty(t.words, 0).value);
    }
  }

  lemma WordKeyIsSound(list: seq<string>, checks: Checksum, t: Typing, key: char)
    requires WordList(list) && Sound(list, t) && t.stage.AtWord?
    ensures Sound(list, WordKeyed(list, checks, t, key).0)
  {
    var under := LetterUnder(t.letters, t.page, key);
    if under.Some? {
      if Pushed(t.prefix, under.value).Some? {
        LetterIsSound(list, t, under.value);
      }
    } else if key == DELETE_KEY {
      DeleteIsSound(list, t);
    } else if key == OK_KEY {
      CommitIsSound(list, checks, t);
    }
  }

  /** Every key keeps a reachable state sound: what is typed begins a word, and what is offered is what may follow. */
  lemma KeysKeepSound(list: seq<string>, checks: Checksum, t: Typing, key: char)
    requires WordList(list) && Sound(list, t)
    ensures Sound(list, Keyed(list, checks, t, key).0)
  {
    match t.stage {
      case AtIndex => if key == OK_KEY && t.index > 0 { GoneToIsSound(list, t.(stage := AtWord), 0); }
      case AtWord => WordKeyIsSound(list, checks, t, key);
      case AtFailed => GoneToIsSound(list, t.(stage := AtWord), BACKUP_WORDS - 1);
    }
  }

  /** Nothing is discarded: a word leaves its slot only for the one an accept puts there. */
  lemma NothingIsDiscarded(list: seq<string>, checks: Checksum, t: Typing, key: char, i: nat)
    requires WordList(list) && Sound(list, t) && i < BACKUP_WORDS
    ensures var t' := Keyed(list, checks, t, key).0;
      t'.words[i] == if t.stage.AtWord? && key == OK_KEY && i == t.cursor && Accepted(list, t.prefix).Some?
                     then Accepted(list, t.prefix) else t.words[i]
  {
    if t.stage.AtWord? && key == OK_KEY {
      CommitFillsOne(list, checks, t);
    }
  }

  lemma CommitFillsOne(list: seq<string>, checks: Checksum, t: Typing)
    requires Shaped(t)
    ensures Committed(list, checks, t).0.words
         == if Accepted(list, t.prefix).Some? then t.words[t.cursor := Accepted(list, t.prefix)] else t.words
  {
  }

  /** A share is handed over only whole: 25 listed words and an index, and only when their checksum passes. */
  lemma OnlyWholeSharesAreSpelled(list: seq<string>, checks: Checksum, t: Typing, key: char)
    requires WordList(list) && Sound(list, t)
    ensures var (t', step) := Keyed(list, checks, t, key);
      step.Spelled? ==>
        && 0 < t'.index < U32
        && (forall i :: 0 <= i < BACKUP_WORDS ==> t'.words[i].Some? && t'.words[i].value in list)
        && checks[TypedShare(t'.index, Filled(t'.words))] == Some(step.image)
  {
    KeysKeepSound(list, checks, t, key);
  }

  /** Nothing is ever missing when a share is submitted: the arm that goes to an empty slot is dead. */
  lemma NothingIsMissing(list: seq<string>, checks: Checksum, t: Typing)
    requires WordList(list) && Sound(list, t) && t.stage.AtWord?
    requires t.cursor + 1 == BACKUP_WORDS && Accepted(list, t.prefix).Some?
    ensures FirstEmpty(t.words[t.cursor := Accepted(list, t.prefix)], 0).None?
    ensures var step := Committed(list, checks, t).1; step.Spelled? || Committed(list, checks, t).0.stage.AtFailed?
  {
  }

  /** No dead end: a word can always be gone on with or accepted. */
  lemma NoDeadEnd(list: seq<string>, t: Typing)
    requires WordList(list) && Sound(list, t)
    ensures t.letters != [] || Accepted(list, t.prefix).Some?
  {
    var w := Begun(list, t.prefix)[0];
    assert w in Begun(list, t.prefix);
    if w != t.prefix {
      NextLetterIsOffered(list, t.prefix, w);
    }
  }

  /** The next letter of a word is offered. */
  lemma NextLetterIsOffered(list: seq<string>, prefix: string, w: string)
    requires WordList(list) && w in list && prefix <= w && prefix != w
    ensures w[|prefix|] in Following(list, prefix)
  {
    var c := w[|prefix|];
    RestStartsWith(w, prefix, c);
    FollowingIs(list, prefix);
    assert GoesOn(list, prefix, c);
    var i :| 0 <= i < |list| && list[i] == w;
    assert Upper(list[i][|prefix|]);
    if prefix == [] {
      assert list[i][0] != 'X';
    }
  }

  // ---- the machine itself

  class Entry {
    const id: EnterId
    const list: seq<string>
    const checks: Checksum
    var stage: Stage
    var index: nat
    var words: seq<Option<string>>
    var cursor: nat
    var prefix: string
    var letters: string
    var page: nat

    function Now(): Typing
      reads this
    {
      Typing(stage, index, words, cursor, prefix, letters, page)
    }

    ghost predicate Valid()
      reads this
    {
      WordList(list) && Sound(list, Now())
    }

    constructor (id: EnterId, list: seq<string>, checks: Checksum)
      requires WordList(list)
      ensures Valid() && this.id == id && this.list == list && this.checks == checks && Now() == Fresh(list)
    {
      this.id, this.list, this.checks := id, list, checks;
      stage, index, words, cursor := AtIndex, 0, seq(BACKUP_WORDS, _ => None), 0;
      prefix, letters, page := [], [], 0;
      new;
      Refresh();
      FreshIsSound(list);
    }

    /** The only writer of the letters, and it turns back to their first page. */
    method Refresh()
      requires WordList(list)
      modifies `letters, `page
      ensures Now() == Refreshed(list, old(Now()))
    {
      letters := ValidNextLetters(list, prefix);
      page := 0;
    }

    method Accept() returns (word: Option<string>)
      requires WordList(list)
      ensures word == Accepted(list, prefix)
    {
      var block := WordsWithPrefix(list, prefix);
      if |block| == 1 {
        return Some(block[0]);
      }
      if block != [] && block[0] == prefix {
        return Some(prefix);
      }
      word := None;
    }

    method GoTo(to: nat)
      requires WordList(list) && Shaped(Now())
      modifies `cursor, `prefix, `letters, `page
      ensures Now() == GoneTo(list, old(Now()), to)
    {
      cursor := if to < BACKUP_WORDS then to else BACKUP_WORDS - 1;
      match words[cursor] {
        case Some(word) => prefix := Loaded(word);
        case None => prefix := [];
      }
      Refresh();
    }

    method Submit() returns (step: KeyStep)
      requires WordList(list) && Shaped(Now())
      modifies this
      ensures (Now(), step) == Submitted(list, checks, old(Now()))
    {
      var missing := FirstEmpty(words, 0);
      if missing.Some? {
        GoTo(missing.value);
        return Redraw;
      }
      match checks[TypedShare(index, Filled(words))] {
        case Some(image) => step := Spelled(image);
        case None =>
          stage := AtFailed;
          step := Redraw;
      }
    }

    /** One key, whatever it is, at any stage. */
    method Key(key: char) returns (step: KeyStep)
      requires Valid()
      modifies this
      ensures Valid() && (Now(), step) == Keyed(list, checks, old(Now()), key)
    {
      KeysKeepSound(list, checks, Now(), key);
      match stage {
        case AtIndex => step := IndexKey(key);
        case AtWord => step := WordKey(key);
        case AtFailed =>
          stage := AtWord;
          GoTo(BACKUP_WORDS - 1);
          step := Redraw;
      }
    }

    method IndexKey(key: char) returns (step: KeyStep)
      requires WordList(list) && Shaped(Now())
      modifies this
      ensures (Now(), step) == IndexKeyed(list, old(Now()), key)
    {
      if '0' <= key <= '9' {
        var n := index * 10 + (key as int - '0' as int);
        if n < U32 && n != index {
          index := n;
          return Redraw;
        }
        return Unchanged;
      }
      if key == OK_KEY && index > 0 {
        stage := AtWord;
        GoTo(0);
        return Redraw;
      }
      if key == DELETE_KEY {
        if index == 0 {
          return Abort;
        }
        index := index / 10;
        return Redraw;
      }
      step := Unchanged;
    }

    method WordKey(key: char) returns (step: KeyStep)
      requires WordList(list) && Shaped(Now())
      modifies this
      ensures (Now(), step) == WordKeyed(list, checks, old(Now()), key)
    {
      var letter := LetterUnder(letters, page, key);
      if letter.Some? {
        var pushed := Pushed(prefix, letter.value);
        if pushed.None? {
          return Unchanged;
        }
        prefix := pushed.value;
        Refresh();
        return Redraw;
      }
      if key == PAGE_KEY {
        if Pages(letters) == 1 {
          return Unchanged;
        }
        page := (page + 1) % Pages(letters);
        return Redraw;
      }
      if key == DELETE_KEY {
        Delete();
        return Redraw;
      }
      if key == OK_KEY {
        step := Commit();
      } else {
        step := Unchanged;
      }
    }

    method Delete()
      requires WordList(list) && Shaped(Now())
      modifies this
      ensures Now() == Deleted(list, old(Now()))
    {
      if prefix != [] {
        prefix := prefix[..|prefix| - 1];
        Refresh();
      } else if cursor > 0 {
        GoTo(cursor - 1);
      } else {
        stage := AtIndex;
      }
    }

    method Commit() returns (step: KeyStep)
      requires WordList(list) && Shaped(Now())
      modifies this
      ensures (Now(), step) == Committed(list, checks, old(Now()))
    {
      var word := Accept();
      if word.None? {
        return Unchanged;
      }
      words := words[cursor := word];
      assert Now() == old(Now()).(words := old(words)[old(cursor) := word]);
      if cursor + 1 < BACKUP_WORDS {
        GoTo(cursor + 1);
        return Redraw;
      }
      step := Submit();
    }
  }
}
