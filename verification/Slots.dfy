/** One thing kept between steps: a slot that each step writes, empties or leaves. */
module Slots {
  import opened Wrappers

  datatype Touch<T> = Leaves | Puts(value: T) | Clears

  function Touched<T>(held: Option<T>, touch: Touch<T>): Option<T> {
    match touch case Leaves => held case Puts(value) => Some(value) case Clears => None
  }

  /** Step `a` wrote the slot, and no step after it and before `i` has touched it. */
  predicate LastPut<T>(touches: seq<Touch<T>>, a: nat, i: nat)
    requires i <= |touches|
  {
    a < i && touches[a].Puts? && forall m :: a < m < i ==> touches[m].Leaves?
  }

  ghost predicate WasPut<T>(touches: seq<Touch<T>>, i: nat)
    requires i <= |touches|
  {
    exists a: nat :: LastPut(touches, a, i)
  }

  /** The slot starts empty, and each step touches it as it says. */
  ghost predicate Follows<T>(held: seq<Option<T>>, touches: seq<Touch<T>>) {
    && |held| == |touches| + 1 && held[0].None?
    && forall i: nat :: i < |touches| ==> StepFollows(held, touches, i)
  }

  ghost predicate StepFollows<T>(held: seq<Option<T>>, touches: seq<Touch<T>>, i: nat)
    requires |held| == |touches| + 1 && i < |touches|
  {
    held[i + 1] == Touched(held[i], touches[i])
  }

  /** The slot says what was last put in it: it is full exactly if something was, and holds just that. */
  ghost predicate SaysLast<T>(held: Option<T>, touches: seq<Touch<T>>, i: nat)
    requires i <= |touches|
  {
    && (held.Some? <==> WasPut(touches, i))
    && forall a: nat :: LastPut(touches, a, i) ==> held == Some(touches[a].value)
  }

  lemma {:induction false} SlotSaysLast<T>(held: seq<Option<T>>, touches: seq<Touch<T>>, i: nat)
    requires Follows(held, touches) && i <= |touches|
    ensures SaysLast(held[i], touches, i)
  {
    if i > 0 {
      var k := i - 1;
      SlotSaysLast(held, touches, k);
      assert StepFollows(held, touches, k);
      LastPutNext(touches, k, i);
      if touches[k].Puts? {
        assert LastPut(touches, k, i);
      } else if touches[k].Leaves? && held[k].Some? {
        var a: nat :| LastPut(touches, a, k);
        assert LastPut(touches, a, i);
      }
    }
  }

  lemma LastPutNext<T>(touches: seq<Touch<T>>, k: nat, i: nat)
    requires i <= |touches| && i == k + 1
    ensures forall a: nat :: LastPut(touches, a, i) <==>
      (a == k && touches[k].Puts?) || (touches[k].Leaves? && LastPut(touches, a, k))
  {
  }

  /** Step `a` wrote the slot, and no step after it and before `i` has emptied it. */
  predicate PutSince<T>(touches: seq<Touch<T>>, a: nat, i: nat)
    requires i <= |touches|
  {
    a < i && touches[a].Puts? && forall m :: a < m < i ==> !touches[m].Clears?
  }

  lemma {:induction false} StaysFull<T>(held: seq<Option<T>>, touches: seq<Touch<T>>, a: nat, i: nat)
    requires Follows(held, touches) && i <= |touches| && PutSince(touches, a, i)
    ensures held[i].Some?
    decreases i
  {
    var k := i - 1;
    assert StepFollows(held, touches, k);
    if a < k {
      StaysFull(held, touches, a, k);
    }
  }

  /** A slot is full exactly if something was put there that nothing has taken away. */
  lemma FullIffPutSince<T>(held: seq<Option<T>>, touches: seq<Touch<T>>, i: nat)
    requires Follows(held, touches) && i <= |touches|
    ensures held[i].Some? <==> exists a: nat :: PutSince(touches, a, i)
  {
    SlotSaysLast(held, touches, i);
    if held[i].Some? {
      var a: nat :| LastPut(touches, a, i);
      assert PutSince(touches, a, i);
    }
    if a: nat :| PutSince(touches, a, i) {
      StaysFull(held, touches, a, i);
    }
  }
}
