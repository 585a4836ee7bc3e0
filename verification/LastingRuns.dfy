/** What stays over the calls that follow: a stored share, a refused ceremony, and a wedged session. */
module LastingRuns {
  import opened Wrappers
  import opened Wire
  import opened AbSlots
  import opened Storage
  import opened Signers
  import opened ShareStores
  import opened SessionSpec
  import opened Steps
  import opened Screens
  import opened Replies
  import opened Writes
  import opened Runs
  import opened Durability
  import opened DurableRuns
  import Traces

  // ---- what has happened since

  /** Step `j` began something, and no step after it and before `i` has ended it. */
  predicate OpenSince(begins: seq<bool>, ends: seq<bool>, j: nat, i: nat)
    requires |begins| == |ends| && i <= |begins|
  {
    j < i && begins[j] && forall m :: j < m < i ==> !ends[m]
  }

  ghost predicate StillOpen(begins: seq<bool>, ends: seq<bool>, i: nat)
    requires |begins| == |ends| && i <= |begins|
  {
    exists j: nat :: OpenSince(begins, ends, j, i)
  }

  lemma OpenNext(begins: seq<bool>, ends: seq<bool>, k: nat, i: nat)
    requires |begins| == |ends| && i <= |begins| && i == k + 1
    ensures StillOpen(begins, ends, i) <==> begins[k] || (!ends[k] && StillOpen(begins, ends, k))
  {
    if StillOpen(begins, ends, i) {
      var j: nat :| OpenSince(begins, ends, j, i);
      if j < k {
        assert OpenSince(begins, ends, j, k);
      }
    }
    if begins[k] {
      assert OpenSince(begins, ends, k, i);
    }
    if !ends[k] && StillOpen(begins, ends, k) {
      var j: nat :| OpenSince(begins, ends, j, k);
      assert OpenSince(begins, ends, j, i);
    }
  }

  ghost function PowerCuts(run: seq<Traces.Step>): (marks: seq<bool>)
    ensures |marks| == |run|
  {
    seq(|run|, i requires 0 <= i < |run| => run[i].CutOff?)
  }

  // ---- wedged sessions

  /** The calls of a run that finish a ceremony behind one still staged. */
  ghost function FinishedBehind(run: seq<Traces.Step>, states: seq<State>): (marks: seq<bool>)
    requires |states| == |run| + 1
    ensures |marks| == |run|
  {
    seq(|run|, i requires 0 <= i < |run| => run[i].Called? && FinishesBehind(states[i], run[i].op))
  }

  /** A session is wedged exactly when some call since the last boot finished a ceremony behind one still staged. */
  lemma {:induction false} WedgedIff(w: World, run: seq<Traces.Step>, states: seq<State>, i: nat)
    requires Ran(w, run, states) && i <= |run|
    ensures |Staged(states[i])| > 3 <==> StillOpen(FinishedBehind(run, states), PowerCuts(run), i)
  {
    if i == 0 {
      BootStagesNothing(states[0]);
    } else {
      var k := i - 1;
      WedgedIff(w, run, states, k);
      assert StepOf(w, run, states, k);
      WedgeStep(w, states[k], run[k], states[i]);
      OpenNext(FinishedBehind(run, states), PowerCuts(run), k, i);
    }
  }

  lemma BootStagesNothing(s: State)
    requires Booted(s)
    ensures Staged(s) == []
  {
    var shares, names :| s == Open(shares, names);
    BootStored(shares, names);
  }

  lemma WedgeStep(w: World, s: State, step: Traces.Step, t: State)
    requires t == Next(w, s, step)
    ensures |Staged(t)| > 3 <==> step.Called? && (|Staged(s)| > 3 || FinishesBehind(s, step.op))
  {
    if step.CutOff? {
      BootStagesNothing(t);
    } else if |Staged(s)| > 3 {
      WedgedStays(w, s, step.op, step.io);
    } else {
      WedgesIff(w, s, step.op, step.io);
    }
  }

  // ---- refused ceremonies

  /** A call that finishes a ceremony whose write is refused. */
  predicate Refuses(s: State, step: Traces.Step) {
    NewShare(s, step.op).Some? && QueueOf(s, step.op).Some? && !PersistsWell(QueueOf(s, step.op).value.state, step.io)
  }

  /** A call whose write of what is staged is accepted, or has nothing to write. */
  predicate Empties(s: State, step: Traces.Step) {
    QueueOf(s, step.op).Some? && PersistsWell(QueueOf(s, step.op).value.state, step.io)
  }

  ghost function Refusals(run: seq<Traces.Step>, states: seq<State>): (marks: seq<bool>)
    requires |states| == |run| + 1
    ensures |marks| == |run|
  {
    seq(|run|, i requires 0 <= i < |run| => run[i].Called? && Refuses(states[i], run[i]))
  }

  ghost function CutsAndWrites(run: seq<Traces.Step>, states: seq<State>): (marks: seq<bool>)
    requires |states| == |run| + 1
    ensures |marks| == |run|
  {
    seq(|run|, i requires 0 <= i < |run| => run[i].CutOff? || Empties(states[i], run[i]))
  }

  /** Something is staged between calls exactly when a ceremony was refused and neither written nor lost since. */
  lemma {:induction false} StagedIffRefused(w: World, run: seq<Traces.Step>, states: seq<State>, i: nat)
    requires Ran(w, run, states) && i <= |run|
    ensures Staged(states[i]) != [] <==> StillOpen(Refusals(run, states), CutsAndWrites(run, states), i)
  {
    if i == 0 {
      BootStagesNothing(states[0]);
    } else {
      var k := i - 1;
      StagedIffRefused(w, run, states, k);
      assert StepOf(w, run, states, k);
      StagedStep(w, states[k], run[k], states[i]);
      OpenNext(Refusals(run, states), CutsAndWrites(run, states), k, i);
    }
  }

  lemma StagedStep(w: World, s: State, step: Traces.Step, t: State)
    requires t == Next(w, s, step)
    ensures Staged(t) != [] <==>
      step.Called? && (Refuses(s, step) || (Staged(s) != [] && !Empties(s, step)))
  {
    if step.CutOff? {
      BootStagesNothing(t);
    } else {
      StagedAfterCall(w, s, step.op, step.io);
      if NewShare(s, step.op).Some? {
        NewShareHasAQueue(s, step.op);
      }
      if QueueOf(s, step.op).Some? {
        QueueStages(s, step.op);
      }
    }
  }

  // ---- a stored share, and the writes that follow

  /** The states a step's share write would go through. */
  function Writing(s: State, step: Traces.Step): seq<Cells<ShareRecord>> {
    match QueueOf(s, step.op)
    case None => []
    case Some(q) => Persist(s.shares, q.state.signer.staged, step.io.share).steps
  }

  /** How many of them it got to. */
  function Reached(s: State, step: Traces.Step): nat {
    if step.CutOff? && step.k < |Writing(s, step)| then step.k else |Writing(s, step)|
  }

  /** The step programmed a new index: the second state of its write. */
  predicate Programs(s: State, step: Traces.Step) {
    Reached(s, step) >= 2
  }

  /** And left the share it was writing whole: neither its first copy unfinished, nor its tie torn. */
  predicate LeavesWhole(s: State, step: Traces.Step) {
    Programs(s, step) && Reached(s, step) != 2 && !(Reached(s, step) == 5 && OlderIsB(s.shares))
  }

  /** A step leaves the cells where its write got to. */
  lemma StepWrites(w: World, s: State, step: Traces.Step, t: State)
    requires t == Next(w, s, step)
    ensures t.shares == After(s.shares, Writing(s, step), Reached(s, step))
  {
    FlashIsWhatWasWritten(w, s, step.op, step.io);
    var fx, steps := Exec(w, s, step.op, step.io).fx, Writing(s, step);
    CallWritesFirst(w, s, step.op, step.io);
    var written := ShareEach(steps);
    ShareEachAre(steps);
    var n := if step.CutOff? && step.k <= |fx| then step.k else |fx|;
    PrefixWrites(s.shares, steps, fx, n);
    assert step.Called? || n == |fx| ==> fx[..n] == fx;
  }

  /** A call's share writes come first, and are all its queue's. */
  lemma CallWritesFirst(w: World, s: State, op: Op, io: Io)
    ensures var fx, written := Exec(w, s, op, io).fx, ShareEach(Writing(s, Traces.Called(op, io)));
      written <= fx && forall e :: e in fx[|written|..] ==> !e.ShareCells?
  {
    CallRuns(w, s, op, io);
    if QueueOf(s, op).Some? {
      var q := QueueOf(s, op).value;
      QueueKeepsFlash(s, op);
      if PersistsWell(q.state, io) {
        DrainWritesNoShares(w, Persisting(q.state, io), q.sends, [], io);
      }
    } else {
      forall e | e in Exec(w, s, op, io).fx
        ensures !e.ShareCells?
      {
        if e.ShareCells? {
          NoQueueNoWrites(w, s, op, io, e);
        }
      }
    }
  }

  lemma NoQueueNoWrites(w: World, s: State, op: Op, io: Io, e: Effect)
    requires QueueOf(s, op).None? && e in Exec(w, s, op, io).fx
    ensures !e.ShareCells?
  {
    match op {
      case OpRecv(body) => if body.Core? { MessageRuns(w, s, body.core, io); }
      case OpConfirm(prompt, page, choice) => if Authorises(prompt, page) { ConsentRuns(w, s, prompt, choice, io); }
      case _ => EveryEffectIsSourced(w, s, op, io, e);
    }
  }

  /** Cut off during the share writes, or after them. */
  lemma PrefixWrites(cells: Cells<ShareRecord>, steps: seq<Cells<ShareRecord>>, fx: seq<Effect>, n: nat)
    requires n <= |fx| && ShareEach(steps) <= fx && |ShareEach(steps)| == |steps|
    requires forall e :: e in fx[|steps|..] ==> !e.ShareCells?
    ensures SharesAfter(cells, fx[..n]) == After(cells, steps, if n < |steps| then n else |steps|)
  {
    var written := ShareEach(steps);
    if n < |steps| {
      assert fx[..n] == written[..n];
      PrefixOfEach(steps, n);
      AfterShares(cells, Cells(Blank, Blank), steps[..n]);
      assert n > 0 ==> steps[..n][n - 1] == steps[n - 1];
    } else {
      var rest := fx[|steps|..n];
      assert fx[..n] == written + rest;
      assert forall e :: e in rest ==> e in fx[|steps|..];
      AfterBoth(cells, Cells(Blank, Blank), written, rest);
      AfterShares(cells, Cells(Blank, Blank), steps);
      NoShareWrites(Final(cells, steps), rest);
    }
  }

  lemma {:induction false} PrefixOfEach(steps: seq<Cells<ShareRecord>>, n: nat)
    requires n <= |steps| && |ShareEach(steps)| == |steps|
    ensures ShareEach(steps)[..n] == ShareEach(steps[..n])
  {
    if n > 0 {
      ShareEachAre(steps[1..]);
      PrefixOfEach(steps[1..], n - 1);
      assert steps[..n][1..] == steps[1..][..n - 1];
    }
  }

  /** The step's queue has exactly this share's triple to write. */
  predicate WritesShare(s: State, step: Traces.Step, c: CompleteShare) {
    QueueOf(s, step.op).Some? && Staged(QueueOf(s, step.op).value.state) == Triple(c)
  }

  /** What a step leaves readable: the old record until it programs an index, and then its own, or damage. */
  lemma StepReads(w: World, s: State, step: Traces.Step, t: State)
    requires t == Next(w, s, step)
    ensures !Programs(s, step) ==> Read(t.shares) == Read(s.shares)
    ensures Programs(s, step) ==>
      (exists c :: WritesShare(s, step, c)) && (!LeavesWhole(s, step) ==> Read(t.shares) == Damaged)
    ensures forall c :: LeavesWhole(s, step) && WritesShare(s, step, c) ==> Read(t.shares) == Holds(RecordOfShare(c))
  {
    StepWrites(w, s, step, t);
    if QueueOf(s, step.op).Some? {
      var staged := QueueOf(s, step.op).value.state.signer.staged;
      var kept := WithoutRestorations(staged);
      RecordFromExactlyATriple(kept);
      if kept != [] && RecordFrom(kept).Success? {
        var c :| kept == Triple(c);
        assert WritesShare(s, step, c);
        CutReadsOldDamagedOrNew(s.shares, RecordFrom(kept).value, step.io.share, Reached(s, step));
      }
    }
  }

  /** Which steps of a run program an index. */
  ghost function Programmed(run: seq<Traces.Step>, states: seq<State>): (marks: seq<bool>)
    requires |states| == |run| + 1
    ensures |marks| == |run|
  {
    seq(|run|, i requires 0 <= i < |run| => Programs(states[i], run[i]))
  }

  /** No mark from `a` on and before `b`. */
  predicate Unmarked(marks: seq<bool>, a: nat, b: nat)
    requires b <= |marks|
  {
    forall m :: a <= m < b ==> !marks[m]
  }

  /** Mark `m` is the last from `a` on and before `b`. */
  predicate LastMark(marks: seq<bool>, a: nat, b: nat, m: nat)
    requires b <= |marks|
  {
    a <= m < b && marks[m] && Unmarked(marks, m + 1, b)
  }

  lemma {:induction false} NoneOrALast(marks: seq<bool>, a: nat, b: nat)
    requires a <= b <= |marks|
    ensures Unmarked(marks, a, b) || exists m: nat :: LastMark(marks, a, b, m)
    decreases b
  {
    if a < b {
      var last := b - 1;
      if marks[last] {
        assert LastMark(marks, a, b, last);
      } else {
        NoneOrALast(marks, a, last);
        if m: nat :| LastMark(marks, a, last, m) {
          assert LastMark(marks, a, b, m);
        }
      }
    }
  }

  /** What is readable before each step of a run, and after the last. */
  ghost function Readings(states: seq<State>): (readings: seq<Reading<ShareRecord>>)
    ensures |readings| == |states|
  {
    seq(|states|, i requires 0 <= i < |states| => Read(states[i].shares))
  }

  /** Steps that are not marked leave what is readable. */
  predicate MarksChanges(readings: seq<Reading<ShareRecord>>, marks: seq<bool>) {
    |readings| == |marks| + 1 && forall m :: 0 <= m < |marks| && !marks[m] ==> Unchanged(readings, m)
  }

  predicate Unchanged(readings: seq<Reading<ShareRecord>>, m: nat)
    requires m + 1 < |readings|
  {
    readings[m + 1] == readings[m]
  }

  lemma {:induction false} UnmarkedKeeps(readings: seq<Reading<ShareRecord>>, marks: seq<bool>, a: nat, b: nat)
    requires MarksChanges(readings, marks) && a <= b <= |marks| && Unmarked(marks, a, b)
    ensures readings[b] == readings[a]
    decreases b
  {
    if a < b {
      var last := b - 1;
      UnmarkedKeeps(readings, marks, a, last);
      assert !marks[last] && Unchanged(readings, last);
    }
  }

  /** While no index is programmed, what is readable stays. */
  lemma OnlyProgramsChange(w: World, run: seq<Traces.Step>, states: seq<State>)
    requires Ran(w, run, states)
    ensures MarksChanges(Readings(states), Programmed(run, states))
  {
    forall m | 0 <= m < |run| && !Programmed(run, states)[m]
      ensures Unchanged(Readings(states), m)
    {
      UnprogrammedStep(w, run, states, m);
    }
  }

  lemma UnprogrammedStep(w: World, run: seq<Traces.Step>, states: seq<State>, m: nat)
    requires Ran(w, run, states) && m < |run| && !Programmed(run, states)[m]
    ensures Unchanged(Readings(states), m)
  {
    var s, step, t := states[m], run[m], states[m + 1];
    assert StepOf(w, run, states, m);
    assert !Programs(s, step);
    StepReads(w, s, step, t);
    assert Readings(states)[m] == Read(s.shares) && Readings(states)[m + 1] == Read(t.shares);
  }

  lemma UnprogrammedKeeps(w: World, run: seq<Traces.Step>, states: seq<State>, a: nat, b: nat)
    requires Ran(w, run, states) && a <= b <= |run| && Unmarked(Programmed(run, states), a, b)
    ensures Read(states[b].shares) == Read(states[a].shares)
  {
    var readings, marks := Readings(states), Programmed(run, states);
    OnlyProgramsChange(w, run, states);
    UnmarkedKeeps(readings, marks, a, b);
    assert readings[a] == Read(states[a].shares) && readings[b] == Read(states[b].shares);
  }

  /** A boot of the cells holds a share and no other exactly when the readable record is of that share. */
  lemma HoldsOnlyTheRecord(cells: Cells<ShareRecord>, c: CompleteShare)
    ensures HoldsOnly(Reloaded(cells), c) <==>
      Read(cells).Holds? && Read(cells).value.ref == c.ref && Read(cells).value.share == c.share
  {
    if Read(cells).Holds? {
      var r := Read(cells).value;
      var d := CompleteShare(r.keyName, r.purpose, r.ref, r.threshold, r.share);
      assert Mutations(r) == Triple(d);
      TripleHolds(BLANK_SIGNER, d);
      BootHoldsOnlyTheRecord(cells, c.ref, c.share.image.index);
      HeldByOne(BLANK_SIGNER, d);
    }
  }

  lemma HeldByOne(s: Signer, d: CompleteShare)
    requires s == BLANK_SIGNER
    ensures HeldBy(Replay(s, Triple(d))) == {HeldShare(Some(d.ref), d.share.image)}
    ensures ShareAt(Replay(s, Triple(d)), d.ref, d.share.image.index) == Some(d.share)
  {
    TripleHolds(s, d);
    var t := Replay(s, Triple(d));
    ReplayOfThree(s, Triple(d)[0], Triple(d)[1], Triple(d)[2]);
    assert Triple(d) == [Triple(d)[0], Triple(d)[1], Triple(d)[2]];
    assert t.saved == {};
  }

  /** The last step to program an index wrote this share, and left it whole. */
  ghost predicate LastLeaves(run: seq<Traces.Step>, states: seq<State>, a: nat, b: nat, c: CompleteShare)
    requires |states| == |run| + 1 && b <= |run|
  {
    exists m: nat, d :: LastMark(Programmed(run, states), a, b, m) && SameShare(d, c)
      && LeavesWhole(states[m], run[m]) && WritesShare(states[m], run[m], d)
  }

  predicate SameShare(d: CompleteShare, c: CompleteShare) {
    d.ref == c.ref && d.share == c.share
  }

  /** The next boot holds this share and no other. */
  predicate BootHolds(s: State, c: CompleteShare) {
    HoldsOnly(Reloaded(s.shares), c)
  }

  /** No index has been programmed, or the last one with this share's own whole write. */
  ghost predicate StillThere(run: seq<Traces.Step>, states: seq<State>, a: nat, b: nat, c: CompleteShare)
    requires |states| == |run| + 1 && b <= |run|
  {
    Unmarked(Programmed(run, states), a, b) || LastLeaves(run, states, a, b, c)
  }

  /** At `b` the next boot holds this share and no other exactly if it is still there since `a`. */
  ghost predicate LastsUntil(run: seq<Traces.Step>, states: seq<State>, a: nat, b: nat, c: CompleteShare)
    requires |states| == |run| + 1 && b <= |run|
  {
    BootHolds(states[b], c) <==> StillThere(run, states, a, b, c)
  }

  /**
   A share readable on flash is what every later boot holds, and all it holds, exactly until a step programs
   another index, or where the last step to do so wrote that same share and left it whole.
   */
  lemma StoredShareLastsIff(w: World, run: seq<Traces.Step>, states: seq<State>, a: nat, b: nat, c: CompleteShare)
    requires Ran(w, run, states) && a <= b <= |run| && Read(states[a].shares) == Holds(RecordOfShare(c))
    ensures LastsUntil(run, states, a, b, c)
  {
    var marks := Programmed(run, states);
    HoldsOnlyTheRecord(states[b].shares, c);
    NoneOrALast(marks, a, b);
    if Unmarked(marks, a, b) {
      UnprogrammedKeeps(w, run, states, a, b);
    } else {
      var m: nat :| LastMark(marks, a, b, m);
      LastDecides(w, run, states, a, b, m, c);
    }
  }

  lemma LastDecides(w: World, run: seq<Traces.Step>, states: seq<State>, a: nat, b: nat, m: nat, c: CompleteShare)
    requires Ran(w, run, states) && b <= |run| && LastMark(Programmed(run, states), a, b, m)
    ensures Read(states[b].shares).Holds? && Read(states[b].shares).value.ref == c.ref
            && Read(states[b].shares).value.share == c.share
       <==> LastLeaves(run, states, a, b, c)
  {
    assert StepOf(w, run, states, m);
    StepReads(w, states[m], run[m], states[m + 1]);
    UnprogrammedKeeps(w, run, states, m + 1, b);
    var d :| WritesShare(states[m], run[m], d);
    if LeavesWhole(states[m], run[m]) && SameShare(d, c) {
      assert LastLeaves(run, states, a, b, c);
    }
    if LastLeaves(run, states, a, b, c) {
      var l: nat, e :| LastMark(Programmed(run, states), a, b, l) && SameShare(e, c)
        && LeavesWhole(states[l], run[l]) && WritesShare(states[l], run[l], e);
      assert l == m;
    }
  }

  /** Step `i` sent a frame while it stored this share, and its write was not the torn tie. */
  ghost predicate Answers(w: World, s: State, step: Traces.Step, frame: Body, c: CompleteShare)
  {
    && step.Called? && WritesShare(s, step, c)
    && !TieGoesToTornCopy(s.shares, step.io.share)
    && Sent(frame) in Fx(w, s, step)
  }

  /** What an answered ceremony stored is what is readable after its call. */
  lemma AnsweredIsStored(w: World, s: State, step: Traces.Step, t: State, frame: Body, c: CompleteShare)
    requires t == Next(w, s, step) && Answers(w, s, step, frame, c)
    ensures Read(t.shares) == Holds(RecordOfShare(c))
  {
    var q := QueueOf(s, step.op).value;
    var fx := Fx(w, s, step);
    var k :| 0 <= k < |fx| && fx[k] == Sent(frame);
    CallRuns(w, s, step.op, step.io);
    QueueKeepsFlash(s, step.op);
    SentAfterPersist(w, q.state, q.sends, step.io, k, k + 1);
    PersistReads(q.state, step.io);
    RunLeaves(w, q.state, q.sends, step.io);
  }

  /** A step that only answers what is stored after it. */
  lemma AnsweredStep(w: World, run: seq<Traces.Step>, states: seq<State>, a: nat, s: State, step: Traces.Step,
                     frame: Body, c: CompleteShare)
    requires |states| == |run| + 1 && 0 < a <= |run| && Ran(w, run, states) && s == states[a - 1] && step == run[a - 1]
    requires Answers(w, s, step, frame, c)
    ensures Read(states[a].shares) == Holds(RecordOfShare(c))
  {
    assert StepOf(w, run, states, a - 1);
    AnsweredIsStored(w, s, step, states[a], frame, c);
  }

  /**
   So it is with an answered ceremony, whose step ends at `a`: its share is what every later boot holds, and all it
   holds, exactly until another index is programmed, but by a whole write of the same share.
   */
  lemma AnsweredShareLastsIff(w: World, run: seq<Traces.Step>, states: seq<State>, a: nat, b: nat, s: State,
                              step: Traces.Step, frame: Body, c: CompleteShare)
    requires |states| == |run| + 1 && 0 < a <= b <= |run| && s == states[a - 1] && step == run[a - 1]
    requires Ran(w, run, states) && Answers(w, s, step, frame, c)
    ensures LastsUntil(run, states, a, b, c)
  {
    AnsweredStep(w, run, states, a, s, step, frame, c);
    StoredShareLastsIff(w, run, states, a, b, c);
  }
}
