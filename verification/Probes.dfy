/** The allocator's probe for the largest block it can still serve, over the holes its arena has. */
module Probes {
  import opened PageBits
  import opened Routes

  function Sum(holes: seq<nat>): nat {
    if holes == [] then 0 else holes[0] + Sum(holes[1..])
  }

  /** The free holes of an arena, in words: each with room for its own links, all inside the arena. */
  ghost predicate Arena(holes: seq<nat>, words: nat) {
    (forall i :: 0 <= i < |holes| ==> holes[i] >= 2) && Sum(holes) <= words
  }

  /** What a request of so many words takes. */
  function Needs(n: nat): nat {
    Max(n, 2)
  }

  /** A hole serves a request it holds exactly, or one that leaves room behind it for a hole's links. */
  predicate Serves(hole: nat, n: nat) {
    Needs(n) == hole || Needs(n) + 2 <= hole
  }

  predicate Fits(holes: seq<nat>, n: nat) {
    exists i :: 0 <= i < |holes| && Serves(holes[i], n)
  }

  /** `allocate_first_fit` finds a hole for so many bytes. */
  predicate FitsBytes(holes: seq<nat>, bytes: nat) {
    exists i :: 0 <= i < |holes| &&
      (Consumed(bytes) == WORD * holes[i] || Consumed(bytes) + 2 * WORD <= WORD * holes[i])
  }

  lemma BytesAreWords(holes: seq<nat>, n: nat)
    ensures Consumed(WORD * n) == WORD * Needs(n)
    ensures FitsBytes(holes, WORD * n) <==> Fits(holes, n)
  {
    assert Consumed(8 * n) == 8 * Needs(n);
    if FitsBytes(holes, WORD * n) {
      var i :| 0 <= i < |holes| &&
        (Consumed(WORD * n) == WORD * holes[i] || Consumed(WORD * n) + 2 * WORD <= WORD * holes[i]);
      assert Serves(holes[i], n);
    }
    if Fits(holes, n) {
      var i :| 0 <= i < |holes| && Serves(holes[i], n);
      assert Consumed(WORD * n) == WORD * holes[i] || Consumed(WORD * n) + 2 * WORD <= WORD * holes[i];
    }
  }

  function Largest(holes: seq<nat>): (m: nat)
    ensures forall i :: 0 <= i < |holes| ==> holes[i] <= m
    ensures holes != [] ==> m in holes
    ensures holes == [] ==> m == 0
  {
    if holes == [] then 0
    else
      var m := Largest(holes[1..]);
      if holes[0] < m then m else holes[0]
  }

  /** `next_power_of_two`, as an exponent. */
  function NextPower(n: nat, e: nat): (r: nat)
    requires e > 0 ==> Pow2(e - 1) < n
    ensures Pow2(r) >= n && r >= e && (r > 0 ==> Pow2(r - 1) < n)
    decreases n - Pow2(e)
  {
    if Pow2(e) >= n then e else NextPower(n, e + 1)
  }

  predicate IsPowerOfTwo(n: nat) {
    n == Pow2(NextPower(n, 0))
  }

  /** The whole of an arena whose size is a power of two is free. */
  predicate WhollyFree(holes: seq<nat>, words: nat) {
    holes != [] && Largest(holes) == words && IsPowerOfTwo(words)
  }

  /** The largest hole can be reached a bit at a time: it is even, or a hole one word smaller fills the gap below it. */
  predicate Reachable(holes: seq<nat>) {
    Largest(holes) % 2 == 0 || Largest(holes) - 1 in holes
  }

  /** What the probe finds, in words. */
  function Found(holes: seq<nat>, words: nat): nat {
    var most := Largest(holes);
    if WhollyFree(holes, words) then if words <= 2 then 1 else words - 2
    else if Reachable(holes) then most
    else if most <= 3 then 0
    else most - 2
  }

  /** Sizes up to the largest hole fit, but for the one just below it when no hole is of that size. */
  lemma FitsAre(holes: seq<nat>, words: nat, n: nat)
    requires Arena(holes, words)
    ensures var most := Largest(holes);
      Fits(holes, n) <==> holes != [] && Needs(n) <= most && (Needs(n) == most - 1 ==> most - 1 in holes)
  {
    var most := Largest(holes);
    if holes != [] {
      var top :| 0 <= top < |holes| && holes[top] == most;
      if Needs(n) == most || Needs(n) + 2 <= most {
        assert Serves(holes[top], n);
      } else if Needs(n) == most - 1 && most - 1 in holes {
        var i :| 0 <= i < |holes| && holes[i] == most - 1;
        assert Serves(holes[i], n);
      }
    }
  }

  lemma {:induction false} HoleIsWithin(holes: seq<nat>, i: nat)
    requires i < |holes|
    ensures holes[i] <= Sum(holes)
  {
    if i > 0 {
      HoleIsWithin(holes[1..], i - 1);
    }
  }

  lemma {:induction false} TwoHolesAreWithin(holes: seq<nat>, i: nat, j: nat)
    requires i < j < |holes|
    ensures holes[i] + holes[j] <= Sum(holes)
  {
    if i > 0 {
      TwoHolesAreWithin(holes[1..], i - 1, j - 1);
    } else {
      HoleIsWithin(holes[1..], j - 1);
    }
  }

  lemma WholeLeavesNoOther(holes: seq<nat>, words: nat)
    requires Arena(holes, words) && holes != [] && Largest(holes) == words
    ensures forall h :: h in holes ==> h == words
  {
    var top :| 0 <= top < |holes| && holes[top] == words;
    forall h | h in holes
      ensures h == words
    {
      var i :| 0 <= i < |holes| && holes[i] == h;
      if i < top {
        TwoHolesAreWithin(holes, i, top);
      } else if top < i {
        TwoHolesAreWithin(holes, top, i);
      }
    }
  }

  lemma LargestIsWithin(holes: seq<nat>, words: nat)
    requires Arena(holes, words)
    ensures Largest(holes) <= words && (holes != [] ==> Largest(holes) >= 2)
  {
    if holes != [] {
      var top :| 0 <= top < |holes| && holes[top] == Largest(holes);
      HoleIsWithin(holes, top);
    }
  }

  /** One probe: with the answer within the step, a size at its middle fits exactly when the answer is past it. */
  lemma ProbeDecides(holes: seq<nat>, words: nat, b: nat, j: nat)
    requires Arena(holes, words) && j > 0 && StepsOf(b, j)
    requires b <= Found(holes, words) < b + Pow2(j) && b + Pow2(j) <= Pow2(NextPower(words, 0))
    ensures var want := b + Pow2(j - 1);
      want <= words && Fits(holes, want) <==> want <= Found(holes, words)
  {
    var want := b + Pow2(j - 1);
    LargestIsWithin(holes, words);
    FitsAre(holes, words, want);
    if WhollyFree(holes, words) {
      WholeLeavesNoOther(holes, words);
    }
    OddMeansLast(want, b, j);
    DecidedInWords(holes, words, b, want, b + Pow2(j));
  }

  /** The cases of it: the step has come down to one word, or the size is even. */
  lemma DecidedInWords(holes: seq<nat>, words: nat, b: nat, want: nat, end: nat)
    requires b <= Found(holes, words) < end && b < want < end && b % 2 == 0
    requires want % 2 == 1 ==> want == b + 1 && end == b + 2
    requires WhollyFree(holes, words) ==> end <= words && words - 1 !in holes
    requires Largest(holes) <= words && if holes == [] then Largest(holes) == 0 else Largest(holes) >= 2
    ensures var most := Largest(holes); want <= Found(holes, words) <==>
      want <= words && holes != [] && Needs(want) <= most && (Needs(want) == most - 1 ==> most - 1 in holes)
  {
  }

  /** A whole number of steps of the `j`th power. */
  ghost predicate StepsOf(b: nat, j: nat) {
    exists q: nat :: b == Times(q, Pow2(j))
  }

  function Times(q: nat, p: nat): nat {
    q * p
  }

  /** Halving the step, with or without taking one. */
  lemma HalvedSteps(b: nat, j: nat)
    requires j > 0 && StepsOf(b, j)
    ensures StepsOf(b, j - 1) && StepsOf(b + Pow2(j - 1), j - 1) && b % 2 == 0
  {
    var q: nat :| b == Times(q, Pow2(j));
    TwiceAsFine(q, Pow2(j - 1));
    assert b == Times(2 * q, Pow2(j - 1)) && b + Pow2(j - 1) == Times(2 * q + 1, Pow2(j - 1));
  }

  lemma TwiceAsFine(q: nat, p: nat)
    ensures q * (2 * p) == (2 * q) * p == 2 * (q * p) && (2 * q + 1) * p == q * (2 * p) + p
  {
  }

  /** A size with an odd number of words is asked for in the last step only. */
  lemma OddMeansLast(want: nat, b: nat, j: nat)
    requires j > 0 && StepsOf(b, j) && want == b + Pow2(j - 1)
    ensures b % 2 == 0 && (want % 2 == 1 ==> want == b + 1 && Pow2(j) == 2)
  {
    HalvedSteps(b, j);
    if j > 1 {
      assert Pow2(j - 1) == 2 * Pow2(j - 2);
    }
  }

  /** In bytes the powers of two start three higher. */
  lemma {:induction false} PowerInBytes(words: nat, e: nat)
    requires words >= 1 && (e > 0 ==> Pow2(e - 1) < words) && Pow2(e + 2) < WORD * words
    ensures NextPower(WORD * words, e + 3) == NextPower(words, e) + 3
    decreases words - Pow2(e)
  {
    EightTimes(e);
    if Pow2(e) < words {
      PowerInBytes(words, e + 1);
    }
  }

  lemma TooLow(n: nat, e: nat)
    requires Pow2(e) < n
    ensures NextPower(n, e) == NextPower(n, e + 1)
  {
    assert e > 0 ==> Pow2(e) == 2 * Pow2(e - 1);
  }

  lemma StartsThreeHigher(words: nat)
    requires words >= 1
    ensures NextPower(WORD * words, 0) == NextPower(words, 0) + 3
  {
    var bytes := WORD * words;
    assert Pow2(0) == 1 && Pow2(1) == 2 && Pow2(2) == 4;
    TooLow(bytes, 0);
    TooLow(bytes, 1);
    TooLow(bytes, 2);
    PowerInBytes(words, 0);
  }

  /**
   The probe, in bytes: halve a step from the power of two above the capacity, keeping what fits. A block it is
   served is given back at once, so the holes stay as they are.
   */
  method LargestFit(holes: seq<nat>, words: nat) returns (best: nat)
    requires Arena(holes, words)
    ensures best == WORD * Found(holes, words)
  {
    var cap := WORD * words;
    best := 0;
    var step := Pow2(NextPower(cap, 0)) / 2;
    LargestIsWithin(holes, words);
    if words == 0 {
      assert NextPower(0, 0) == 0;
      return;
    }
    StartsThreeHigher(words);
    ghost var j: nat, b: nat := NextPower(words, 0), 0;
    FoundIsBelow(holes, words);
    EightTimes(j);
    assert 0 == Times(0, Pow2(j));
    while step >= WORD
      invariant step == 4 * Pow2(j) && best == 8 * b && StepsOf(b, j)
      invariant b <= Found(holes, words) < b + Pow2(j) <= Pow2(NextPower(words, 0))
      decreases step
    {
      assert j > 0 && step == 8 * Pow2(j - 1);
      var want := best + step;
      ProbeInBytes(holes, words, want, j, b);
      HalvedSteps(b, j);
      if want <= cap && FitsBytes(holes, want) {
        best := want;
        b := b + Pow2(j - 1);
      }
      step := step / 2;
      j := j - 1;
    }
    assert Pow2(j) == 1;
  }

  lemma ProbeInBytes(holes: seq<nat>, words: nat, want: nat, j: nat, b: nat)
    requires Arena(holes, words) && j > 0 && StepsOf(b, j) && want == WORD * (b + Pow2(j - 1))
    requires b <= Found(holes, words) < b + Pow2(j) <= Pow2(NextPower(words, 0))
    ensures want <= WORD * words && FitsBytes(holes, want) <==> b + Pow2(j - 1) <= Found(holes, words)
  {
    ProbeDecides(holes, words, b, j);
    BytesAreWords(holes, b + Pow2(j - 1));
  }

  lemma EightTimes(j: nat)
    ensures Pow2(j + 3) == 8 * Pow2(j)
  {
    assert Pow2(j + 3) == 2 * Pow2(j + 2) == 4 * Pow2(j + 1);
  }

  lemma FoundIsBelow(holes: seq<nat>, words: nat)
    requires Arena(holes, words) && words >= 1
    ensures Found(holes, words) < Pow2(NextPower(words, 0))
  {
    LargestIsWithin(holes, words);
  }

  /**
   What the probe finds is the largest request the arena can serve exactly when that can be reached a bit at a
   time and is not the whole of an arena whose size is a power of two.
   */
  lemma FoundIsLargestIff(holes: seq<nat>, words: nat)
    requires Arena(holes, words)
    ensures (forall n: nat :: Fits(holes, n) ==> n <= Found(holes, words))
       <==> Reachable(holes) && !WhollyFree(holes, words)
  {
    var most := Largest(holes);
    LargestIsWithin(holes, words);
    FitsAre(holes, words, most);
    forall n: nat | Fits(holes, n)
      ensures n <= most
    {
      FitsAre(holes, words, n);
    }
    if holes != [] {
      assert Fits(holes, most);
    }
  }

  /** Whatever it finds fits. */
  lemma FoundFits(holes: seq<nat>, words: nat)
    requires Arena(holes, words) && Found(holes, words) > 0
    ensures Fits(holes, Found(holes, words))
  {
    LargestIsWithin(holes, words);
    FitsAre(holes, words, Found(holes, words));
  }

  /** A wholly free arena of a power of two reads two words short of it. */
  lemma FreeReadsTwoWordsShort(words: nat)
    requires words > 2 && IsPowerOfTwo(words)
    ensures Arena([words], words) && Found([words], words) == words - 2
  {
    assert [words][1..] == [];
    assert Sum([words]) == words;
    assert Largest([words]) in [words];
  }
}
