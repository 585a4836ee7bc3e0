/** The word list a share is spelled from, and the two searches the entry screen narrows it with. */
module WordLists {
  import opened BackupPages

  predicate Upper(c: char) {
    'A' <= c <= 'Z'
  }

  predicate AllUpper(s: string) {
    forall i :: 0 <= i < |s| ==> Upper(s[i])
  }

  /** Dictionary order. */
  predicate Before(a: string, b: string) {
    b != [] && (a == [] || a[0] < b[0] || (a[0] == b[0] && Before(a[1..], b[1..])))
  }

  /** Sorted upper-case words of one to eight letters; some word starts with each letter but X, and none with X. */
  ghost predicate WordList(list: seq<string>) {
    && (forall i :: 0 <= i < |list| ==> CheckWord(list[i]) && AllUpper(list[i]) && list[i][0] != 'X')
    && (forall i, j :: 0 <= i < j < |list| ==> Before(list[i], list[j]))
    && (forall c :: Upper(c) && c != 'X' ==> GoesOn(list, [], c))
  }

  // ---- the order

  lemma {:induction false} Transitive(a: string, b: string, c: string)
    requires Before(a, b) && Before(b, c)
    ensures Before(a, c)
    decreases |b|
  {
    if a != [] && a[0] == b[0] == c[0] {
      Transitive(a[1..], b[1..], c[1..]);
    }
  }

  lemma {:induction false} Irreflexive(a: string)
    ensures !Before(a, a)
  {
    if a != [] {
      Irreflexive(a[1..]);
    }
  }

  lemma {:induction false} Total(a: string, b: string)
    ensures a == b || Before(a, b) || Before(b, a)
    decreases |a|
  {
    if a != [] && b != [] && a[0] == b[0] {
      Total(a[1..], b[1..]);
      assert a == [a[0]] + a[1..] && b == [b[0]] + b[1..];
    }
  }

  /** A prefix comes no later than what it begins. */
  lemma {:induction false} PrefixIsNotAfter(p: string, w: string)
    requires p <= w
    ensures !Before(w, p)
    decreases |p|
  {
    if p != [] {
      assert p[1..] <= w[1..];
      PrefixIsNotAfter(p[1..], w[1..]);
    }
  }

  /** Past a prefix and not begun by it is past everything it begins. */
  lemma {:induction false} BlockEnds(p: string, u: string, w: string)
    requires !Before(u, p) && !(p <= u) && p <= w
    ensures Before(w, u)
    decreases |p|
  {
    if u != [] && u[0] == p[0] {
      assert p == [p[0]] + p[1..] && u == [u[0]] + u[1..];
      assert p[1..] <= w[1..];
      BlockEnds(p[1..], u[1..], w[1..]);
    }
  }

  // ---- the words a prefix begins

  /** The words a prefix begins, in list order. */
  function Begun(list: seq<string>, prefix: string): (block: seq<string>)
    ensures forall w :: w in block <==> w in list && prefix <= w
  {
    if list == [] then []
    else (if prefix <= list[0] then [list[0]] else []) + Begun(list[1..], prefix)
  }

  lemma {:induction false} BegunIsSlice(list: seq<string>, prefix: string, lo: nat, hi: nat)
    requires lo <= hi <= |list|
    requires forall i :: 0 <= i < |list| ==> (prefix <= list[i] <==> lo <= i < hi)
    ensures Begun(list, prefix) == list[lo..hi]
    decreases |list|
  {
    if list != [] {
      var rest := list[1..];
      var lo', hi' := if lo > 0 then lo - 1 else 0, if hi > 0 then hi - 1 else 0;
      forall i | 0 <= i < |rest|
        ensures prefix <= rest[i] <==> lo' <= i < hi'
      {
        assert rest[i] == list[i + 1];
      }
      BegunIsSlice(rest, prefix, lo', hi');
      if lo == 0 < hi {
        assert prefix <= list[0];
        assert list[lo..hi] == [list[0]] + rest[lo'..hi'];
      } else {
        assert !(prefix <= list[0]);
        assert list[lo..hi] == rest[lo'..hi'];
      }
    }
  }

  /** `partition_point` of "comes before": the first index whose word does not. */
  method FirstNotBefore(list: seq<string>, prefix: string) returns (start: nat)
    requires WordList(list)
    ensures start <= |list|
    ensures forall i :: 0 <= i < start ==> Before(list[i], prefix)
    ensures forall i :: start <= i < |list| ==> !Before(list[i], prefix)
  {
    start := 0;
    var end := |list|;
    while start < end
      invariant start <= end <= |list|
      invariant forall i :: 0 <= i < start ==> Before(list[i], prefix)
      invariant forall i :: end <= i < |list| ==> !Before(list[i], prefix)
    {
      var mid := (start + end) / 2;
      if Before(list[mid], prefix) {
        forall i | start <= i < mid
          ensures Before(list[i], prefix)
        {
          Transitive(list[i], list[mid], prefix);
        }
        start := mid + 1;
      } else {
        forall i | mid < i < end
          ensures !Before(list[i], prefix)
        {
          if Before(list[i], prefix) {
            Transitive(list[mid], list[i], prefix);
          }
        }
        end := mid;
      }
    }
  }

  /** `words_with_prefix`: one search, and then the block read off the list. */
  method WordsWithPrefix(list: seq<string>, prefix: string) returns (block: seq<string>)
    requires WordList(list)
    ensures block == Begun(list, prefix)
  {
    if prefix == [] {
      BegunIsSlice(list, prefix, 0, |list|);
      return list;
    }
    var start := FirstNotBefore(list, prefix);
    var end := start;
    while end < |list| && prefix <= list[end]
      invariant start <= end <= |list|
      invariant forall i :: start <= i < end ==> prefix <= list[i]
    {
      end := end + 1;
    }
    OnlyTheBlock(list, prefix, start, end);
    BegunIsSlice(list, prefix, start, end);
    block := list[start..end];
  }

  lemma OnlyTheBlock(list: seq<string>, prefix: string, start: nat, end: nat)
    requires WordList(list) && start <= end <= |list|
    requires forall i :: 0 <= i < start ==> Before(list[i], prefix)
    requires forall i :: start <= i < |list| ==> !Before(list[i], prefix)
    requires forall i :: start <= i < end ==> prefix <= list[i]
    requires end < |list| ==> !(prefix <= list[end])
    ensures forall i :: 0 <= i < |list| ==> (prefix <= list[i] <==> start <= i < end)
  {
    forall i | 0 <= i < |list| && prefix <= list[i]
      ensures start <= i < end
    {
      PrefixIsNotAfter(prefix, list[i]);
      if i >= end {
        BlockEnds(prefix, list[end], list[i]);
        if i > end {
          Transitive(list[i], list[end], list[i]);
        }
        Irreflexive(list[i]);
      }
    }
  }

  lemma {:induction false} FirstBegunIsItself(list: seq<string>, word: string)
    requires forall i, j :: 0 <= i < j < |list| ==> Before(list[i], list[j])
    requires word in list
    ensures Begun(list, word) != [] && Begun(list, word)[0] == word
  {
    var i :| 0 <= i < |list| && list[i] == word;
    if i == 0 {
      assert word <= list[0];
    } else {
      assert list[1..][i - 1] == word;
      assert Before(list[0], list[i]);
      if word <= list[0] {
        PrefixIsNotAfter(word, list[0]);
      }
      FirstBegunIsItself(list[1..], word);
    }
  }

  /** `is_bip39`: the block a word begins starts with the word. */
  predicate IsListed(list: seq<string>, word: string) {
    Begun(list, word) != [] && Begun(list, word)[0] == word
  }

  lemma ListedIff(list: seq<string>, word: string)
    requires WordList(list)
    ensures IsListed(list, word) <==> word in list
  {
    if word in list {
      FirstBegunIsItself(list, word);
    } else if Begun(list, word) != [] {
      assert Begun(list, word)[0] in Begun(list, word);
    }
  }

  // ---- the letters that may follow

  const ALPHABET: string := "ABCDEFGHIJKLMNOPQRSTUVWXYZ"

  /** The letter may be typed after the prefix: some word goes on with it, or nothing is typed and it is not X. */
  predicate Follows(list: seq<string>, prefix: string, letter: char) {
    if prefix == [] then letter != 'X' else GoesOn(list, prefix, letter)
  }

  predicate GoesOn(words: seq<string>, prefix: string, letter: char) {
    exists w :: w in words && prefix + [letter] <= w
  }

  /** The letters of `some` that may follow, in their order. */
  function FollowingOf(some: string, list: seq<string>, prefix: string): (letters: string)
    ensures |letters| <= |some|
  {
    if some == [] then []
    else (if Follows(list, prefix, some[0]) then [some[0]] else []) + FollowingOf(some[1..], list, prefix)
  }

  function Following(list: seq<string>, prefix: string): (letters: string)
    ensures |letters| <= 26
  {
    assert |ALPHABET| == 26;
    FollowingOf(ALPHABET, list, prefix)
  }

  lemma {:induction false} FollowingAre(some: string, list: seq<string>, prefix: string, c: char)
    ensures c in FollowingOf(some, list, prefix) <==> c in some && Follows(list, prefix, c)
  {
    if some != [] {
      FollowingAre(some[1..], list, prefix, c);
    }
  }

  predicate Ascending(s: string) {
    forall i, j :: 0 <= i < j < |s| ==> s[i] < s[j]
  }

  lemma {:induction false} FollowingAscends(some: string, list: seq<string>, prefix: string)
    requires Ascending(some)
    ensures Ascending(FollowingOf(some, list, prefix))
  {
    if some != [] {
      var rest := some[1..];
      FollowingAscends(rest, list, prefix);
      forall c | c in FollowingOf(rest, list, prefix)
        ensures some[0] < c
      {
        FollowingAre(rest, list, prefix, c);
        var i :| 0 <= i < |rest| && rest[i] == c;
        assert some[0] < some[i + 1] == c;
      }
      var more := FollowingOf(rest, list, prefix);
      assert forall j :: 0 <= j < |more| ==> more[j] in more;
    }
  }

  lemma AlphabetAscends()
    ensures Ascending(ALPHABET) && |ALPHABET| == 26
    ensures forall i :: 0 <= i < 26 ==> ALPHABET[i] as int == 'A' as int + i
  {
  }

  /** Every letter a word goes on with is offered, once, in alphabetical order, among upper-case letters only. */
  lemma FollowingIs(list: seq<string>, prefix: string)
    ensures Ascending(Following(list, prefix)) && AllUpper(Following(list, prefix))
    ensures forall c :: Upper(c) ==> (c in Following(list, prefix) <==> Follows(list, prefix, c))
  {
    AlphabetAscends();
    FollowingAscends(ALPHABET, list, prefix);
    forall c | Upper(c)
      ensures c in Following(list, prefix) <==> Follows(list, prefix, c)
    {
      assert ALPHABET[c as int - 'A' as int] == c;
      FollowingAre(ALPHABET, list, prefix, c);
    }
    forall i | 0 <= i < |Following(list, prefix)|
      ensures Upper(Following(list, prefix)[i])
    {
      FollowingAre(ALPHABET, list, prefix, Following(list, prefix)[i]);
    }
  }

  // ---- the search for them

  /** Cutting words to the prefix's length does not change which come before it. */
  lemma {:induction false} CutWordsOrderAlike(w: string, p: string)
    ensures Before(w[..if |p| < |w| then |p| else |w|], p) <==> Before(w, p)
    decreases |w|
  {
    if w != [] && p != [] {
      var n, m := if |p| < |w| then |p| else |w|, if |p| - 1 < |w| - 1 then |p| - 1 else |w| - 1;
      assert w[..n][1..] == w[1..][..m];
      CutWordsOrderAlike(w[1..], p[1..]);
    }
  }

  /** The letter a begun word goes on with is the one its rest starts with. */
  lemma RestStartsWith(w: string, prefix: string, letter: char)
    requires prefix <= w
    ensures prefix + [letter] <= w <==> |w| > |prefix| && w[|prefix|] == letter
  {
    if |w| > |prefix| {
      assert w[..|prefix| + 1] == prefix + [w[|prefix|]];
    }
    if prefix + [letter] <= w {
      assert w[|prefix|] == (prefix + [letter])[|prefix|];
    }
  }

  lemma OneMoreWord(words: seq<string>, w: string, prefix: string, letter: char)
    requires prefix <= w
    ensures GoesOn(words + [w], prefix, letter)
       <==> GoesOn(words, prefix, letter) || (|w| > |prefix| && w[|prefix|] == letter)
  {
    RestStartsWith(w, prefix, letter);
    if GoesOn(words, prefix, letter) {
      var v :| v in words && prefix + [letter] <= v;
      assert v in words + [w];
    }
    if prefix + [letter] <= w {
      assert w in words + [w];
    }
  }

  /** Only the block goes on with anything. */
  lemma BlockGoesOn(list: seq<string>, prefix: string, start: nat, end: nat, letter: char)
    requires start <= end <= |list|
    requires forall i :: 0 <= i < |list| ==> (prefix <= list[i] <==> start <= i < end)
    ensures GoesOn(list[start..end], prefix, letter) <==> GoesOn(list, prefix, letter)
  {
    if GoesOn(list, prefix, letter) {
      var w :| w in list && prefix + [letter] <= w;
      var i :| 0 <= i < |list| && list[i] == w;
      assert w[..|prefix|] == (prefix + [letter])[..|prefix|] == prefix;
      assert list[start..end][i - start] == w;
      assert w in list[start..end];
    }
    if GoesOn(list[start..end], prefix, letter) {
      var w :| w in list[start..end] && prefix + [letter] <= w;
      assert w in list;
    }
  }

  /** `get_valid_next_letters`: every letter but X to start with, and then those the block goes on with. */
  method ValidNextLetters(list: seq<string>, prefix: string) returns (letters: string)
    requires WordList(list)
    ensures letters == Following(list, prefix)
  {
    var valid := new bool[26];
    if prefix == [] {
      forall n | 0 <= n < 26 {
        valid[n] := ALPHABET[n] != 'X';
      }
    } else {
      MarkBlock(list, prefix, valid);
    }
    assert |ALPHABET| == 26;
    letters := Enabled(ALPHABET, valid, list, prefix);
  }

  /** `iter_valid`: the marked letters, in order. */
  method Enabled(some: string, valid: array<bool>, ghost list: seq<string>, ghost prefix: string)
    returns (letters: string)
    requires valid.Length == |some|
    requires forall n :: 0 <= n < |some| ==> (valid[n] <==> Follows(list, prefix, some[n]))
    ensures letters == FollowingOf(some, list, prefix)
  {
    letters := [];
    for n := 0 to |some|
      invariant letters + FollowingOf(some[n..], list, prefix) == FollowingOf(some, list, prefix)
    {
      FollowingAt(some, list, prefix, n);
      ghost var rest := FollowingOf(some[n + 1..], list, prefix);
      assert letters + ([some[n]] + rest) == (letters + [some[n]]) + rest;
      if valid[n] {
        letters := letters + [some[n]];
      }
    }
    assert letters + [] == letters;
  }

  lemma FollowingAt(some: string, list: seq<string>, prefix: string, n: nat)
    requires n < |some|
    ensures FollowingOf(some[n..], list, prefix)
         == if Follows(list, prefix, some[n]) then [some[n]] + FollowingOf(some[n + 1..], list, prefix)
            else FollowingOf(some[n + 1..], list, prefix)
  {
    var rest := some[n..];
    assert rest[0] == some[n] && rest[1..] == some[n + 1..];
    assert [] + FollowingOf(some[n + 1..], list, prefix) == FollowingOf(some[n + 1..], list, prefix);
  }

  /** The block read off the list, and the letter each of its words goes on with marked. */
  method MarkBlock(list: seq<string>, prefix: string, valid: array<bool>)
    requires WordList(list) && prefix != [] && valid.Length == 26
    modifies valid
    ensures forall n :: 0 <= n < 26 ==> (valid[n] <==> GoesOn(list, prefix, ALPHABET[n]))
  {
    forall n | 0 <= n < 26 {
      valid[n] := false;
    }
    var start := FirstNotBefore(list, prefix);
    var at := start;
    while at < |list| && prefix <= list[at]
      invariant start <= at <= |list|
      invariant forall i :: start <= i < at ==> prefix <= list[i]
      invariant forall n :: 0 <= n < 26 ==> (valid[n] <==> GoesOn(list[start..at], prefix, ALPHABET[n]))
    {
      MarkOne(list[start..at], list[at], prefix, valid);
      assert list[start..at + 1] == list[start..at] + [list[at]];
      at := at + 1;
    }
    OnlyTheBlock(list, prefix, start, at);
    forall n | 0 <= n < 26
      ensures valid[n] <==> GoesOn(list, prefix, ALPHABET[n])
    {
      BlockGoesOn(list, prefix, start, at, ALPHABET[n]);
    }
  }

  /** `set`, of the letter one more word goes on with. */
  method MarkOne(ghost words: seq<string>, word: string, prefix: string, valid: array<bool>)
    requires valid.Length == 26 && prefix <= word && AllUpper(word)
    requires forall n :: 0 <= n < 26 ==> (valid[n] <==> GoesOn(words, prefix, ALPHABET[n]))
    modifies valid
    ensures forall n :: 0 <= n < 26 ==> (valid[n] <==> GoesOn(words + [word], prefix, ALPHABET[n]))
  {
    AlphabetAscends();
    forall n | 0 <= n < 26
      ensures GoesOn(words + [word], prefix, ALPHABET[n])
         <==> GoesOn(words, prefix, ALPHABET[n]) || (|word| > |prefix| && word[|prefix|] == ALPHABET[n])
    {
      OneMoreWord(words, word, prefix, ALPHABET[n]);
    }
    if |word| > |prefix| {
      assert Upper(word[|prefix|]);
      valid[word[|prefix|] as int - 'A' as int] := true;
    }
  }
}
