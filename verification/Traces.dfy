/**
 What happens to the consents over a whole run: a sequence of calls in any order, with the power cut
 during any of them, and the consents before each.
 */
module Traces {
  import opened Wrappers
  import opened Wire
  import opened Quizzes
  import opened BackupPages
  import opened PageBits
  import opened SessionSpec
  import opened Consents

  datatype Step =
    | Called(op: Op, io: Io)
    | CutOff(op: Op, io: Io, k: nat)  // the power went after the first `k` effects

  /** `commits[i]` says whether call `i` committed a name. */
  datatype Trace = Trace(steps: seq<Step>, consents: seq<Consent>, commits: seq<bool>)

  function After(d: Device, g: Consent, step: Step, commits: bool): Consent {
    if step.CutOff? then NO_CONSENT else Moved(d, g, step.op, commits)
  }

  /** A run starts with no consent, and each step moves the consents as the machine does. */
  ghost predicate Lawful(d: Device, t: Trace) {
    && |t.consents| == |t.steps| + 1 && |t.commits| == |t.steps|
    && t.consents[0] == NO_CONSENT
    && forall i :: 0 <= i < |t.steps| ==> StepIsLawful(d, t, i)
  }

  ghost predicate StepIsLawful(d: Device, t: Trace, i: nat)
    requires |t.consents| == |t.steps| + 1 && |t.commits| == |t.steps| && i < |t.steps|
  {
    && t.consents[i + 1] == After(d, t.consents[i], t.steps[i], t.commits[i])
    && (t.commits[i] ==> t.steps[i].op.OpRecv? && t.steps[i].op.body.Core?)
  }

  // ---- grants

  datatype Kind = ToReveal | ToEnter | ToCheck | ToName

  datatype Grant =
    | OfReveal(phase: BackupPhase)
    | OfEntry(id: EnterId)
    | OfCheck(ref: AccessRef, index: ShareIndex)
    | OfName(name: DeviceName)

  /** The grant of a kind that is held. */
  function Live(kind: Kind, g: Consent): Option<Grant> {
    match kind
    case ToReveal => (match g.revealing case None => None case Some(phase) => Some(OfReveal(phase)))
    case ToEnter => (match g.entry case None => None case Some(entry) => Some(OfEntry(entry.id)))
    case ToCheck => (match g.check case None => None case Some(check) => Some(OfCheck(check.ref, check.index)))
    case ToName => (match g.pendingName case None => None case Some(name) => Some(OfName(name)))
  }

  /** The grant of a kind a call issues: its own prompt confirmed on a page that may be, or a preview. */
  function Gives(d: Device, kind: Kind, op: Op): Option<Grant> {
    match kind
    case ToReveal =>
      if Confirms(op) && op.prompt.AskReveal? && RevealPages(d, op.prompt.backup).Success?
      then Some(OfReveal(op.prompt.backup)) else None
    case ToEnter =>
      if Confirms(op) && op.prompt.AskEntry? then Some(OfEntry(op.prompt.enterId)) else None
    case ToCheck =>
      if Confirms(op) && op.prompt.AskCheck? && Questions(d, op.prompt.backup, op.choice.draw).Some?
      then Some(OfCheck(op.prompt.backup.ref, op.prompt.backup.index)) else None
    case ToName => if op.OpRecv? && op.body.Preview? then Some(OfName(op.body.name)) else None
  }

  /** What takes a grant of a kind away: a cancel, or its own flow's end. */
  predicate Ends(kind: Kind, g: Consent, op: Op, commits: bool) {
    (op.OpRecv? && op.body.Cancel?)
    || match kind
       case ToReveal => op.OpShow? && !Draws(op.page)
       case ToEnter => op.OpEntry? && (op.step.EntryAbort? || op.step.Entered?)
       case ToCheck =>
         op.OpQuiz? && g.check.Some?
         && (var step := Press(g.check.value.quiz, op.key, op.redraw).1; step.Abort? || step.Passed?)
       case ToName => commits
  }

  /** Facts every reachable state has. */
  predicate Sound(d: Device, g: Consent) {
    && (g.revealing.Some? ==> !g.recordPending && RevealPages(d, g.revealing.value).Success?)
    && g.seenPages < Pow2(WORD_BITS)
  }

  lemma SoundStays(d: Device, g: Consent, op: Op, commits: bool)
    requires Sound(d, g)
    ensures Sound(d, Moved(d, g, op, commits))
  {
    if op.OpShow? {
      MarkAdds(g.seenPages, op.page);
    }
  }

  /** One call: a grant of a kind begins with its own consent, ends with its own end, and is otherwise untouched. */
  lemma GrantStep(d: Device, kind: Kind, g: Consent, op: Op, commits: bool)
    requires Sound(d, g) && (commits ==> op.OpRecv? && op.body.Core?)
    ensures Live(kind, Moved(d, g, op, commits))
         == if Gives(d, kind, op).Some? then Gives(d, kind, op)
            else if Ends(kind, g, op, commits) then None
            else Live(kind, g)
  {
    match kind {
      case ToReveal =>
      case ToEnter =>
      case ToCheck => CheckGrantStep(d, g, op, commits);
      case ToName =>
    }
  }

  lemma CheckGrantStep(d: Device, g: Consent, op: Op, commits: bool)
    ensures Live(ToCheck, Moved(d, g, op, commits))
         == if Gives(d, ToCheck, op).Some? then Gives(d, ToCheck, op)
            else if Ends(ToCheck, g, op, commits) then None
            else Live(ToCheck, g)
  {
  }

  // ---- over a run

  predicate Begins(d: Device, kind: Kind, step: Step) {
    step.Called? && Gives(d, kind, step.op).Some?
  }

  /** Step `j` leaves no grant of a kind: the power went, or the grant was taken away. */
  ghost predicate Over(d: Device, t: Trace, kind: Kind, j: nat)
    requires Lawful(d, t) && j < |t.steps|
  {
    t.steps[j].CutOff? || Ends(kind, t.consents[j], t.steps[j].op, t.commits[j])
  }

  /** Step `c` issued a grant of a kind, and up to step `i` it was neither replaced nor over. */
  ghost predicate LiveSince(d: Device, t: Trace, kind: Kind, c: nat, i: nat)
    requires Lawful(d, t) && i <= |t.steps|
  {
    c < i && Begins(d, kind, t.steps[c])
    && forall j: nat :: c < j < i ==> !Begins(d, kind, t.steps[j]) && !Over(d, t, kind, j)
  }

  lemma {:induction false} SoundAt(d: Device, t: Trace, i: nat)
    requires Lawful(d, t) && i <= |t.steps|
    ensures Sound(d, t.consents[i])
  {
    if i > 0 {
      SoundAt(d, t, i - 1);
      assert StepIsLawful(d, t, i - 1);
      SoundStays(d, t.consents[i - 1], t.steps[i - 1].op, t.commits[i - 1]);
    }
  }

  /** What one step of a run does to the grant of a kind. */
  lemma GrantAtNext(d: Device, t: Trace, kind: Kind, i: nat)
    requires Lawful(d, t) && i < |t.steps|
    ensures Live(kind, t.consents[i + 1])
         == if Begins(d, kind, t.steps[i]) then Gives(d, kind, t.steps[i].op)
            else if Over(d, t, kind, i) then None
            else Live(kind, t.consents[i])
  {
    SoundAt(d, t, i);
    assert StepIsLawful(d, t, i);
    GrantStep(d, kind, t.consents[i], t.steps[i].op, t.commits[i]);
  }

  lemma LiveSinceNext(d: Device, t: Trace, kind: Kind, c: nat, i: nat)
    requires Lawful(d, t) && i < |t.steps|
    ensures LiveSince(d, t, kind, c, i + 1) <==>
      if c < i then LiveSince(d, t, kind, c, i) && !Begins(d, kind, t.steps[i]) && !Over(d, t, kind, i)
      else c == i && Begins(d, kind, t.steps[i])
  {
  }

  /** The step that issued a live grant of a kind, and what it issued. */
  ghost predicate Issued(d: Device, t: Trace, kind: Kind, c: nat, i: nat, grant: Grant)
    requires Lawful(d, t) && i <= |t.steps|
  {
    LiveSince(d, t, kind, c, i) && Gives(d, kind, t.steps[c].op) == Some(grant)
  }

  /**
   In every reachable state a reveal, a transcription, a check or a pending name is live exactly when
   its own consent was given and nothing has ended it since, and it carries what that consent carried.
   */
  lemma {:induction false} GrantsAreConsents(d: Device, t: Trace, kind: Kind, i: nat, grant: Grant)
    requires Lawful(d, t) && i <= |t.steps|
    ensures Live(kind, t.consents[i]) == Some(grant) <==> exists c: nat :: Issued(d, t, kind, c, i, grant)
  {
    if i > 0 {
      GrantAtNext(d, t, kind, i - 1);
      GrantsAreConsents(d, t, kind, i - 1, grant);
      LiveSinceNext(d, t, kind, i - 1, i - 1);
      if Live(kind, t.consents[i]) == Some(grant) {
        if Begins(d, kind, t.steps[i - 1]) {
          assert Issued(d, t, kind, i - 1, i, grant);
        } else {
          var c: nat :| Issued(d, t, kind, c, i - 1, grant);
          LiveSinceNext(d, t, kind, c, i - 1);
          assert Issued(d, t, kind, c, i, grant);
        }
      } else if c: nat :| Issued(d, t, kind, c, i, grant) {
        LiveSinceNext(d, t, kind, c, i - 1);
        assert c < i - 1 ==> Issued(d, t, kind, c, i - 1, grant);
      }
    }
  }

  /** A live grant has one consent behind it. */
  lemma OneConsent(d: Device, t: Trace, kind: Kind, c: nat, c': nat, i: nat)
    requires Lawful(d, t) && i <= |t.steps|
    requires LiveSince(d, t, kind, c, i) && LiveSince(d, t, kind, c', i)
    ensures c == c'
  {
  }
}
