/** The take-once guard: one word, three atomic steps a call, any calls interleaved in any way. */
module Singleton {
  type Word = n: nat | n < 0x1_0000_0000

  const AVAILABLE: Word := 0x5A17_0001
  const TAKEN: Word := 0x5A17_0002

  predicate IsTaken(raw: Word) {
    raw == TAKEN
  }

  // ---- one guard, one caller at a time

  class TakeOnce {
    var word: Word

    constructor (raw: Word)
      ensures word == raw
    {
      word := raw;
    }

    /** The exchange, and whether it took. */
    method CompareExchange(current: Word, next: Word) returns (ok: bool)
      modifies this
      ensures ok <==> old(word) == current
      ensures word == if ok then next else old(word)
    {
      ok := word == current;
      if ok {
        word := next;
      }
    }

    /** Whatever the word was left holding, one caller gets the singleton and every later one does not. */
    method Take() returns (taken: bool)
      modifies this
      ensures taken <==> old(word) != TAKEN
      ensures word == TAKEN
    {
      var first := CompareExchange(AVAILABLE, TAKEN);
      if first {
        return true;
      }
      var observed := word;
      if IsTaken(observed) || observed == AVAILABLE {
        return false;
      }
      taken := CompareExchange(observed, TAKEN);
    }
  }

  // ---- many calls, one atomic step at a time

  datatype Call = Entered | Refused | Observed(raw: Word) | Returned(won: bool)

  datatype World = World(word: Word, calls: seq<Call>)

  function Exchange(w: World, i: nat, current: Word, onFailure: Call): World
    requires i < |w.calls|
  {
    if w.word == current then World(TAKEN, w.calls[i := Returned(true)])
    else w.(calls := w.calls[i := onFailure])
  }

  /** The next atomic step of call `i`; a call that has returned takes none. */
  function Step(w: World, i: nat): World
    requires i < |w.calls|
  {
    match w.calls[i]
    case Entered => Exchange(w, i, AVAILABLE, Refused)
    case Refused =>
      w.(calls := w.calls[i := if IsTaken(w.word) || w.word == AVAILABLE then Returned(false) else Observed(w.word)])
    case Observed(raw) => Exchange(w, i, raw, Returned(false))
    case Returned(_) => w
  }

  predicate Schedule(order: seq<nat>, calls: nat) {
    forall k :: 0 <= k < |order| ==> order[k] < calls
  }

  function Start(raw: Word, calls: nat): World {
    World(raw, seq(calls, _ => Entered))
  }

  /** The calls after some steps, in the order they were scheduled. */
  function Run(raw: Word, calls: nat, order: seq<nat>): (w: World)
    requires Schedule(order, calls)
    ensures |w.calls| == calls
    decreases |order|
  {
    if order == [] then Start(raw, calls)
    else Step(Run(raw, calls, order[..|order| - 1]), order[|order| - 1])
  }

  ghost predicate Won(w: World, i: nat) {
    i < |w.calls| && w.calls[i] == Returned(true)
  }

  /** While the word is as it was found nobody has returned; once it is taken exactly one caller has won. */
  ghost predicate Guarded(raw: Word, w: World) {
    && (w.word == raw || w.word == TAKEN)
    && (w.word == raw ==> forall i :: 0 <= i < |w.calls| ==> !w.calls[i].Returned?)
    && (w.word == TAKEN ==> exists i :: Won(w, i))
    && (forall i, j :: Won(w, i) && Won(w, j) ==> i == j)
    && (forall i :: 0 <= i < |w.calls| && w.calls[i].Refused? ==> raw != AVAILABLE || w.word == TAKEN)
    && (forall i :: 0 <= i < |w.calls| && w.calls[i].Observed? ==> w.calls[i].raw == raw)
  }

  lemma StepIsGuarded(raw: Word, w: World, i: nat)
    requires raw != TAKEN && Guarded(raw, w) && i < |w.calls|
    ensures Guarded(raw, Step(w, i))
  {
    var t := Step(w, i);
    if t.word == TAKEN {
      if w.word == TAKEN {
        var k: nat :| Won(w, k);
        assert Won(t, k);
      } else {
        assert Won(t, i);
      }
    }
    forall j, k | Won(t, j) && Won(t, k)
      ensures j == k
    {
      assert j != i ==> Won(w, j);
      assert k != i ==> Won(w, k);
    }
  }

  lemma {:induction false} RunIsGuarded(raw: Word, calls: nat, order: seq<nat>)
    requires raw != TAKEN && Schedule(order, calls)
    ensures Guarded(raw, Run(raw, calls, order))
    decreases |order|
  {
    if order != [] {
      RunIsGuarded(raw, calls, order[..|order| - 1]);
      StepIsGuarded(raw, Run(raw, calls, order[..|order| - 1]), order[|order| - 1]);
    }
  }

  /**
   However many calls and however interleaved, from any word but `TAKEN`: at most one is told true, and
   once any has returned at all, exactly one has been.
   */
  lemma OneWinner(raw: Word, calls: nat, order: seq<nat>)
    requires raw != TAKEN && Schedule(order, calls)
    ensures var w := Run(raw, calls, order);
      && (forall i, j :: Won(w, i) && Won(w, j) ==> i == j)
      && ((exists i :: 0 <= i < calls && w.calls[i].Returned?) <==> exists i :: Won(w, i))
      && (w.word == TAKEN <==> exists i :: Won(w, i))
  {
    RunIsGuarded(raw, calls, order);
    var w := Run(raw, calls, order);
    if i: nat :| Won(w, i) {
      assert w.calls[i].Returned?;
    }
  }

  /** A word already `TAKEN` is never given out. */
  lemma {:induction false} TakenStaysTaken(calls: nat, order: seq<nat>)
    requires Schedule(order, calls)
    ensures var w := Run(TAKEN, calls, order);
      w.word == TAKEN && forall i :: 0 <= i < calls ==> w.calls[i] != Returned(true) && !w.calls[i].Observed?
    decreases |order|
  {
    if order != [] {
      TakenStaysTaken(calls, order[..|order| - 1]);
    }
  }

  // ---- how long a call takes

  function StepsOf(order: seq<nat>, i: nat): nat {
    if order == [] then 0 else StepsOf(order[..|order| - 1], i) + if order[|order| - 1] == i then 1 else 0
  }

  function StepsLeft(c: Call): nat {
    match c case Entered => 3 case Refused => 2 case Observed(_) => 1 case Returned(_) => 0
  }

  /** Three of its own steps, whatever the others do in between, and a call has returned. */
  lemma {:induction false} AtMostThreeSteps(raw: Word, calls: nat, order: seq<nat>, i: nat)
    requires Schedule(order, calls) && i < calls
    ensures var left := StepsLeft(Run(raw, calls, order).calls[i]); left + StepsOf(order, i) <= 3 || left == 0
    ensures StepsOf(order, i) >= 3 ==> Run(raw, calls, order).calls[i].Returned?
    decreases |order|
  {
    if order != [] {
      AtMostThreeSteps(raw, calls, order[..|order| - 1], i);
    }
  }

  /** So when every call has had its steps, one has won exactly if the word was not taken to begin with. */
  lemma AllDoneOneWonIffNotTaken(raw: Word, calls: nat, order: seq<nat>)
    requires Schedule(order, calls) && calls > 0
    requires forall i: nat :: i < calls ==> StepsOf(order, i) >= 3
    ensures (exists i :: Won(Run(raw, calls, order), i)) <==> raw != TAKEN
  {
    assert StepsOf(order, 0) >= 3;
    AtMostThreeSteps(raw, calls, order, 0);
    if raw == TAKEN {
      TakenStaysTaken(calls, order);
    } else {
      OneWinner(raw, calls, order);
    }
  }
}
