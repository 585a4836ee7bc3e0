/** What the quiz draws from its random words: an order of positions, and candidates that can be told apart. */
module RandomDraws {
  import opened Wrappers
  import opened WordLists

  type Word32 = n: nat | n < U32

  /** The random words to come; past the last of them, zeros. No draw here looks further than a bounded way ahead. */
  type Entropy = seq<Word32>

  const DRAW_TRIES: nat := 32

  function Rest(rng: Entropy): Entropy {
    if rng == [] then [] else rng[1..]
  }

  function Skip(rng: Entropy, n: nat): Entropy {
    if n <= |rng| then rng[n..] else []
  }

  /** `below`: the high half of the next word times the bound. */
  function Below(bound: nat, rng: Entropy): nat {
    if bound == 0 || bound >= U32 then 0 else (if rng == [] then 0 else rng[0]) * bound / U32
  }

  lemma BelowIsBelow(bound: nat, rng: Entropy)
    requires 0 < bound
    ensures Below(bound, rng) < bound
  {
    if bound < U32 && rng != [] {
      HighHalf(rng[0], bound);
    }
  }

  lemma HighHalf(word: Word32, bound: nat)
    requires 0 < bound
    ensures word * bound / U32 < bound
  {
    assert word * bound < U32 * bound;
  }

  // ---- shuffling

  function Swap<T>(s: seq<T>, i: nat, j: nat): (r: seq<T>)
    requires i < |s| && j < |s|
    ensures |r| == |s|
  {
    s[i := s[j]][j := s[i]]
  }

  /** The first `n` places shuffled, from the last of them down. */
  function Shuffled<T>(s: seq<T>, n: nat, rng: Entropy): (r: seq<T>)
    requires n <= |s|
    ensures |r| == |s|
    decreases n
  {
    if n <= 1 then s
    else
      BelowIsBelow(n, rng);
      Shuffled(Swap(s, n - 1, Below(n, rng)), n - 1, Rest(rng))
  }

  lemma SwapKeeps<T>(s: seq<T>, i: nat, j: nat)
    requires i < |s| && j < |s|
    ensures multiset(Swap(s, i, j)) == multiset(s)
  {
  }

  /** A shuffle moves things about, and neither adds nor loses any. */
  lemma {:induction false} ShuffledIsPermuted<T>(s: seq<T>, n: nat, rng: Entropy)
    requires n <= |s|
    ensures multiset(Shuffled(s, n, rng)) == multiset(s)
    decreases n
  {
    if n > 1 {
      BelowIsBelow(n, rng);
      SwapKeeps(s, n - 1, Below(n, rng));
      ShuffledIsPermuted(Swap(s, n - 1, Below(n, rng)), n - 1, Rest(rng));
    }
  }

  /** `shuffle`, in place. */
  method Shuffle<T>(a: array<T>, rng: Entropy)
    modifies a
    ensures a[..] == Shuffled(old(a[..]), a.Length, rng)
  {
    var i: nat, words := a.Length, rng;
    while i > 1
      invariant i <= a.Length
      invariant Shuffled(a[..], i, words) == Shuffled(old(a[..]), a.Length, rng)
    {
      BelowIsBelow(i, words);
      var j := Below(i, words);
      ghost var before := a[..];
      i := i - 1;
      a[i], a[j] := a[j], a[i];
      assert a[..] == Swap(before, i, j);
      words := Rest(words);
    }
  }

  // ---- the order of the questions

  function Upto(n: nat): (s: seq<nat>)
    ensures |s| == n && forall i :: 0 <= i < n ==> s[i] == i
  {
    if n == 0 then [] else Upto(n - 1) + [n - 1]
  }

  /** `draw_order`: some of all positions but the last, then the last, shuffled together. */
  function DrawOrder(positions: nat, asked: nat, rng: Entropy): (order: seq<nat>)
    requires 2 <= asked <= positions
    ensures |order| == asked
  {
    var last: nat := positions - 1;
    var pool := Shuffled<nat>(Upto(last), last, rng);
    Shuffled<nat>(pool[..asked - 1] + [last], asked, Skip(rng, positions - 2))
  }

  predicate Distinct<T(==)>(s: seq<T>) {
    forall i, j :: 0 <= i < j < |s| ==> s[i] != s[j]
  }

  lemma DistinctIsMultiset<T>(s: seq<T>)
    ensures Distinct(s) <==> forall x :: multiset(s)[x] <= 1
  {
    if Distinct(s) {
      forall x
        ensures multiset(s)[x] <= 1
      {
        OnceAtMost(s, x);
      }
    } else {
      var i, j :| 0 <= i < j < |s| && s[i] == s[j];
      assert s == s[..j] + s[j..];
      assert s[i] in multiset(s[..j]) && s[j] in multiset(s[j..]) by {
        assert s[..j][i] == s[i] && s[j..][0] == s[j];
      }
      assert multiset(s)[s[i]] == multiset(s[..j])[s[i]] + multiset(s[j..])[s[i]] >= 2;
    }
  }

  lemma {:induction false} OnceAtMost<T>(s: seq<T>, x: T)
    requires Distinct(s)
    ensures multiset(s)[x] <= 1
  {
    if s != [] {
      var rest := s[1..];
      assert s == [s[0]] + rest;
      OnceAtMost(rest, x);
      assert forall j :: 0 <= j < |rest| ==> rest[j] == s[j + 1] != s[0];
      assert s[0] !in rest;
    }
  }

  lemma PermutedDistinct<T>(s: seq<T>, r: seq<T>)
    requires multiset(r) == multiset(s) && Distinct(s)
    ensures Distinct(r) && |r| == |s| && forall x :: x in r <==> x in s
  {
    DistinctIsMultiset(s);
    DistinctIsMultiset(r);
    assert |multiset(r)| == |r| && |multiset(s)| == |s|;
    forall x
      ensures x in r <==> x in s
    {
      assert x in r <==> x in multiset(r);
      assert x in s <==> x in multiset(s);
    }
  }

  /** What it draws from: every position but the last, once each. */
  lemma PoolIs(n: nat, rng: Entropy)
    ensures var pool := Shuffled<nat>(Upto(n), n, rng);
      Distinct(pool) && forall i :: 0 <= i < n ==> pool[i] < n
  {
    var plain := Upto(n);
    var pool := Shuffled<nat>(plain, n, rng);
    ShuffledIsPermuted(plain, n, rng);
    PermutedDistinct(plain, pool);
    forall i | 0 <= i < n
      ensures pool[i] < n
    {
      assert pool[i] in plain;
    }
  }

  lemma OneMoreDistinct(pool: seq<nat>, k: nat, last: nat)
    requires k <= |pool| && Distinct(pool) && forall i :: 0 <= i < |pool| ==> pool[i] < last
    ensures var chosen := pool[..k] + [last];
      Distinct(chosen) && last in chosen && forall p :: p in chosen ==> p <= last
  {
    var chosen := pool[..k] + [last];
    assert chosen[k] == last;
  }

  /** The order is of distinct positions, and the last position is one of them. */
  lemma OrderIs(positions: nat, asked: nat, rng: Entropy)
    requires 2 <= asked <= positions
    ensures var order := DrawOrder(positions, asked, rng);
      Distinct(order) && (forall p :: p in order ==> p < positions) && positions - 1 in order
  {
    var last: nat := positions - 1;
    var pool := Shuffled<nat>(Upto(last), last, rng);
    PoolIs(last, rng);
    OneMoreDistinct(pool, asked - 1, last);
    var chosen: seq<nat> := pool[..asked - 1] + [last];
    ShuffledIsPermuted(chosen, asked, Skip(rng, positions - 2));
    PermutedDistinct(chosen, DrawOrder(positions, asked, rng));
  }

  // ---- candidates

  /** The first word of the pool that is not taken. */
  function FirstFree(pool: seq<string>, taken: seq<string>): Option<string> {
    if pool == [] then None else if pool[0] !in taken then Some(pool[0]) else FirstFree(pool[1..], taken)
  }

  lemma {:induction false} FirstFreeIsFree(pool: seq<string>, taken: seq<string>)
    ensures var w := FirstFree(pool, taken);
      && (w.Some? ==> w.value in pool && w.value !in taken)
      && (w.None? ==> forall w :: w in pool ==> w in taken)
  {
    if pool != [] && pool[0] in taken {
      FirstFreeIsFree(pool[1..], taken);
      assert pool == [pool[0]] + pool[1..];
    }
  }

  datatype Pick = Pick(word: Option<string>, rest: Entropy)

  /** `draw_distinct`, with so many tries left: a random pick that is not taken, or else the first that is not. */
  function DrawDistinct(pool: seq<string>, taken: seq<string>, rng: Entropy, tries: nat): (r: Pick)
    decreases tries
  {
    if tries == 0 then Pick(FirstFree(pool, taken), rng)
    else if pool == [] then Pick(None, rng)
    else
      BelowIsBelow(|pool|, rng);
      var pick := pool[Below(|pool|, rng)];
      if pick !in taken then Pick(Some(pick), Rest(rng)) else DrawDistinct(pool, taken, Rest(rng), tries - 1)
  }

  /** It finds a word of the pool that is not taken exactly if there is one. */
  lemma {:induction false} DrawsIfAny(pool: seq<string>, taken: seq<string>, rng: Entropy, tries: nat)
    ensures var w := DrawDistinct(pool, taken, rng, tries).word;
      && (w.Some? ==> w.value in pool && w.value !in taken)
      && (w.None? ==> forall w :: w in pool ==> w in taken)
    decreases tries
  {
    if tries == 0 {
      FirstFreeIsFree(pool, taken);
    } else if pool != [] {
      BelowIsBelow(|pool|, rng);
      DrawsIfAny(pool, taken, Rest(rng), tries - 1);
    }
  }

  /** `draw_options`: the true word, another of the share's own, and another of the list, shuffled. */
  function DrawOptions(words: seq<string>, list: seq<string>, truth: string, rng: Entropy): Option<seq<string>> {
    var own := DrawDistinct(words, [truth], rng, DRAW_TRIES);
    if own.word.None? then None
    else
      var other := DrawDistinct(list, [truth, own.word.value], own.rest, DRAW_TRIES);
      if other.word.None? then None
      else Some(Shuffled([truth, own.word.value, other.word.value], 3, other.rest))
  }

  /** Three different listed words, the true one among them. */
  predicate Tellable(options: seq<string>, list: seq<string>, truth: string) {
    |options| == 3 && Distinct(options) && truth in options && forall w :: w in options ==> w in list
  }

  /** There are candidates for a listed word exactly unless every word of the share is that one. */
  lemma OptionsAre(words: seq<string>, list: seq<string>, truth: string, rng: Entropy)
    requires (forall w :: w in words ==> w in list) && truth in list && ThreeAtLeast(list)
    ensures DrawOptions(words, list, truth, rng).None? <==> forall w :: w in words ==> w == truth
    ensures DrawOptions(words, list, truth, rng).Some?
      ==> Tellable(DrawOptions(words, list, truth, rng).value, list, truth)
  {
    var own := DrawDistinct(words, [truth], rng, DRAW_TRIES);
    DrawsIfAny(words, [truth], rng, DRAW_TRIES);
    if own.word.Some? {
      var other := DrawDistinct(list, [truth, own.word.value], own.rest, DRAW_TRIES);
      DrawsIfAny(list, [truth, own.word.value], own.rest, DRAW_TRIES);
      AnotherIsThere(list, truth, own.word.value);
      ThreeAreTellable(list, truth, own.word.value, other.word.value, other.rest);
      assert own.word.value in words && own.word.value != truth;
    }
  }

  lemma ThreeAreTellable(list: seq<string>, truth: string, own: string, other: string, rng: Entropy)
    requires truth in list && own in list && other in list && own !in [truth] && other !in [truth, own]
    ensures Tellable(Shuffled([truth, own, other], 3, rng), list, truth)
  {
    var three := [truth, own, other];
    assert own != truth && other != truth && other != own by {
      assert truth in [truth] && truth in [truth, own] && own in [truth, own];
    }
    ShuffledIsPermuted(three, 3, rng);
    PermutedDistinct(three, Shuffled(three, 3, rng));
    assert three[0] == truth;
  }

  predicate ThreeAtLeast(list: seq<string>) {
    |list| >= 3 && list[0] != list[1] && list[0] != list[2] && list[1] != list[2]
  }

  lemma AnotherIsThere(list: seq<string>, a: string, b: string)
    requires ThreeAtLeast(list)
    ensures exists w :: w in list && w !in [a, b]
  {
    var w := if list[0] !in [a, b] then list[0] else if list[1] !in [a, b] then list[1] else list[2];
    assert w in list && w !in [a, b];
  }

  /** A word list has three words at least. */
  lemma ListHasThree(list: seq<string>)
    requires WordList(list)
    ensures ThreeAtLeast(list)
  {
    var i, j, k := StartsWith(list, 'A'), StartsWith(list, 'B'), StartsWith(list, 'C');
    assert list[i][0] == 'A' && list[j][0] == 'B' && list[k][0] == 'C';
    Irreflexive(list[0]);
    Irreflexive(list[1]);
    assert Before(list[0], list[1]) && Before(list[1], list[2]) && Before(list[0], list[2]);
  }

  /** Where some word that starts with a letter stands. */
  ghost function StartsWith(list: seq<string>, letter: char): (i: nat)
    requires WordList(list) && Upper(letter) && letter != 'X'
    ensures i < |list| && list[i][0] == letter
  {
    assert GoesOn(list, [], letter);
    var w :| w in list && [] + [letter] <= w;
    var i: nat :| i < |list| && list[i] == w;
    assert w[0] == ([] + [letter])[0];
    i
  }
}
