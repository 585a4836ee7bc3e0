/** What the "did you write it down?" question stands for, over whole runs. */
module RevealTraces {
  import opened Wrappers
  import opened BackupPages
  import opened PageBits
  import opened SessionSpec
  import opened Consents
  import opened Traces

  /** Call `j` drew page `p` of the live backup. */
  ghost predicate DrawnAt(d: Device, t: Trace, j: nat, p: nat)
    requires Lawful(d, t) && j < |t.steps|
  {
    && t.steps[j].Called? && t.steps[j].op == OpShow(p)
    && t.consents[j].revealing.Some? && Draws(p)
  }

  ghost predicate DrawnBetween(d: Device, t: Trace, c: nat, i: nat, p: nat)
    requires Lawful(d, t) && i <= |t.steps|
  {
    exists j: nat :: c < j < i && DrawnAt(d, t, j, p)
  }

  /** The set ended at call `e`: a page past the last was asked for. */
  predicate EndsSet(step: Step) {
    step.Called? && step.op.OpShow? && !Draws(step.op.page)
  }

  /** Nothing that withdraws or answers the question. */
  predicate LeavesQuestion(d: Device, step: Step) {
    step.Called? && !(step.op.OpRecv? && step.op.body.Cancel?) && !step.op.OpRecorded? && !Begins(d, ToReveal, step)
  }

  /**
   The consent `c` to reveal was followed by every page of the backup, then by the end of the set at
   `e`, all before it was replaced or withdrawn; and since then no power cut, cancel, newer consent or
   earlier answer.
   */
  ghost predicate Asked(d: Device, t: Trace, c: nat, e: nat, i: nat)
    requires Lawful(d, t) && i <= |t.steps|
  {
    && e < i && LiveSince(d, t, ToReveal, c, e) && EndsSet(t.steps[e])
    && (forall p: nat :: p < PAGE_COUNT ==> DrawnBetween(d, t, c, e, p))
    && forall j: nat :: e < j < i ==> LeavesQuestion(d, t.steps[j])
  }

  lemma DrawnNext(d: Device, t: Trace, c: nat, i: nat, p: nat)
    requires Lawful(d, t) && c <= i < |t.steps|
    ensures DrawnBetween(d, t, c, i + 1, p) <==> DrawnBetween(d, t, c, i, p) || (c < i && DrawnAt(d, t, i, p))
  {
  }

  lemma LiveReveal(d: Device, t: Trace, c: nat, i: nat)
    requires Lawful(d, t) && i <= |t.steps| && LiveSince(d, t, ToReveal, c, i)
    ensures t.consents[i].revealing.Some? && Sound(d, t.consents[i])
  {
    var grant := Gives(d, ToReveal, t.steps[c].op).value;
    assert Issued(d, t, ToReveal, c, i, grant);
    GrantsAreConsents(d, t, ToReveal, i, grant);
    SoundAt(d, t, i);
  }

  /** The word of seen pages is the set of pages drawn since the consent, within the word's width. */
  lemma {:induction false} SeenAreDrawn(d: Device, t: Trace, c: nat, i: nat, p: nat)
    requires Lawful(d, t) && i <= |t.steps| && LiveSince(d, t, ToReveal, c, i)
    ensures p in Pages(t.consents[i].seenPages) <==> p < WORD_BITS && DrawnBetween(d, t, c, i, p)
    decreases i
  {
    var g, step := t.consents[i - 1], t.steps[i - 1];
    assert StepIsLawful(d, t, i - 1);
    if c == i - 1 {
      NothingMarked();
    } else {
      LiveSinceNext(d, t, ToReveal, c, i - 1);
      LiveReveal(d, t, c, i - 1);
      SeenAreDrawn(d, t, c, i - 1, p);
      DrawnNext(d, t, c, i - 1, p);
      SeenStep(d, g, step, t.commits[i - 1], p);
    }
  }

  lemma SeenStep(d: Device, g: Consent, step: Step, commits: bool, p: nat)
    requires Sound(d, g) && g.revealing.Some? && !Begins(d, ToReveal, step) && step.Called?
    requires !Ends(ToReveal, g, step.op, commits)
    ensures p in Pages(After(d, g, step, commits).seenPages)
       <==> p in Pages(g.seenPages) || (p < WORD_BITS && step.op == OpShow(p))
  {
    if step.op.OpShow? {
      MarkAdds(g.seenPages, step.op.page);
    }
  }

  /** No page from the eighth to the word's last is ever drawn. */
  lemma NoOtherPage(p: nat)
    requires PAGE_COUNT <= p < WORD_BITS
    ensures !Draws(p)
  {
  }

  lemma SeenAllIffDrewAll(d: Device, t: Trace, c: nat, e: nat)
    requires Lawful(d, t) && e <= |t.steps| && LiveSince(d, t, ToReveal, c, e)
    ensures AllPages(PAGE_COUNT) == Some(t.consents[e].seenPages)
       <==> forall p: nat :: p < PAGE_COUNT ==> DrawnBetween(d, t, c, e, p)
  {
    var w := t.consents[e].seenPages;
    LiveReveal(d, t, c, e);
    CompleteIffEveryPage(w, PAGE_COUNT);
    forall p: nat
      ensures p in Pages(w) <==> p < WORD_BITS && DrawnBetween(d, t, c, e, p)
    {
      SeenAreDrawn(d, t, c, e, p);
    }
    forall p: nat | p in Pages(w)
      ensures p in Whole(PAGE_COUNT)
    {
      if p >= PAGE_COUNT {
        NoOtherPage(p);
      }
    }
    if forall p: nat :: p < PAGE_COUNT ==> DrawnBetween(d, t, c, e, p) {
      assert Pages(w) == Whole(PAGE_COUNT);
    } else {
      var p: nat :| p < PAGE_COUNT && !DrawnBetween(d, t, c, e, p);
      assert p in Whole(PAGE_COUNT);
    }
  }

  /** What one step does to the question. */
  lemma QuestionStep(d: Device, g: Consent, step: Step, commits: bool)
    requires Sound(d, g)
    ensures After(d, g, step, commits).recordPending <==>
      if EndsSet(step) && g.revealing.Some? then AllPages(PAGE_COUNT) == Some(g.seenPages)
      else g.recordPending && LeavesQuestion(d, step)
  {
    if step.Called? {
      match step.op {
        case OpRecv(_) =>
        case OpConfirm(_, _, _) =>
        case _ =>
      }
    }
  }

  /** The end of a live set raises the question exactly when the whole set was seen. */
  lemma QuestionAtEnd(d: Device, t: Trace, i: nat, next: nat)
    requires Lawful(d, t) && i < |t.steps| && next == i + 1
    requires EndsSet(t.steps[i]) && t.consents[i].revealing.Some?
    requires forall c: nat, e: nat :: !Asked(d, t, c, e, i)
    ensures AllPages(PAGE_COUNT) == Some(t.consents[i].seenPages) <==> exists c: nat, e: nat :: Asked(d, t, c, e, next)
  {
    var grant := OfReveal(t.consents[i].revealing.value);
    GrantsAreConsents(d, t, ToReveal, i, grant);
    var c: nat :| Issued(d, t, ToReveal, c, i, grant);
    SeenAllIffDrewAll(d, t, c, i);
    if AllPages(PAGE_COUNT) == Some(t.consents[i].seenPages) {
      assert Asked(d, t, c, i, next);
    } else {
      forall c': nat, e': nat
        ensures !Asked(d, t, c', e', next)
      {
        AskedStep(d, t, c', e', i);
        if e' == i && LiveSince(d, t, ToReveal, c', i) {
          OneConsent(d, t, ToReveal, c, c', i);
        }
      }
    }
  }

  ghost predicate AskedBy(d: Device, t: Trace, i: nat)
    requires Lawful(d, t) && i <= |t.steps|
  {
    exists c: nat, e: nat :: Asked(d, t, c, e, i)
  }

  /** Any other step leaves the question standing or takes it away. */
  lemma QuestionElsewhere(d: Device, t: Trace, i: nat, next: nat)
    requires Lawful(d, t) && i < |t.steps| && next == i + 1
    requires !(EndsSet(t.steps[i]) && t.consents[i].revealing.Some?)
    ensures AskedBy(d, t, next) <==> AskedBy(d, t, i) && LeavesQuestion(d, t.steps[i])
  {
    if AskedBy(d, t, next) {
      var c: nat, e: nat :| Asked(d, t, c, e, next);
      AskedStep(d, t, c, e, i);
      if e == i {
        LiveReveal(d, t, c, e);
      }
    }
    if AskedBy(d, t, i) {
      var c: nat, e: nat :| Asked(d, t, c, e, i);
      AskedStep(d, t, c, e, i);
    }
  }

  /**
   The question stands exactly when a consented reveal was seen whole and ended, and nothing has happened to it
   since.
   */
  lemma {:induction false} QuestionIsEarned(d: Device, t: Trace, i: nat)
    requires Lawful(d, t) && i <= |t.steps|
    ensures t.consents[i].recordPending <==> AskedBy(d, t, i)
  {
    if i > 0 {
      assert StepIsLawful(d, t, i - 1);
      SoundAt(d, t, i - 1);
      QuestionStep(d, t.consents[i - 1], t.steps[i - 1], t.commits[i - 1]);
      QuestionIsEarned(d, t, i - 1);
      if EndsSet(t.steps[i - 1]) && t.consents[i - 1].revealing.Some? {
        QuestionAtEnd(d, t, i - 1, i);
      } else {
        QuestionElsewhere(d, t, i - 1, i);
      }
    }
  }

  lemma AskedStep(d: Device, t: Trace, c: nat, e: nat, i: nat)
    requires Lawful(d, t) && i < |t.steps|
    ensures e < i ==> (Asked(d, t, c, e, i + 1) <==> Asked(d, t, c, e, i) && LeavesQuestion(d, t.steps[i]))
    ensures e >= i && Asked(d, t, c, e, i + 1) ==> e == i
  {
  }

  /** One consent, one answer: a later answered question goes back to a consent given after the earlier answer. */
  lemma EachAnswerItsOwnConsent(d: Device, t: Trace, c: nat, e: nat, i: nat, c': nat, e': nat, i': nat)
    requires Lawful(d, t) && i < i' < |t.steps|
    requires Asked(d, t, c, e, i) && Asked(d, t, c', e', i')
    requires t.steps[i].op.OpRecorded?
    ensures c < e < i < c' < e' < i'
  {
    assert !LeavesQuestion(d, t.steps[i]) && !LeavesQuestion(d, t.steps[c']);
    assert Over(d, t, ToReveal, e);
  }
}
