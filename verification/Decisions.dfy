/**
 What the loop does next, told from the markers: after every load that answered,
 the one event that follows.
 */
module Decisions {
  import opened Text
  import opened Passes
  import opened Cycle
  import opened CycleRuns

  /* ---- a finished review, off the markers ---- */

  /** The pass has no review marker, or one with no verdict or a blocked one. */
  ghost predicate ReviewBlocked(s: State, pass: int) {
    forall m :: Newest(s.markers, pass, Review, m) ==> m.verdict == "" || m.verdict == VERDICT_BLOCKED
  }

  /** The reviewer finished and left work: findings to act on, or a verdict of
      converged over a coverage promise its own marker breaks. */
  ghost predicate ReviewOwes(p: Policy, s: State, pass: int) {
    exists m :: Newest(s.markers, pass, Review, m) && m.verdict != "" && m.verdict != VERDICT_BLOCKED &&
      if m.verdict == VERDICT_CONVERGED then !m.state.Complete? || m.coverageStopped || (m.version >= 2 && !m.coveragePresent)
      else p.actionable(m.findings, s.minFix) != 0
  }

  ghost predicate SaysConverged(s: State, pass: int) {
    exists m :: Newest(s.markers, pass, Review, m) && m.verdict == VERDICT_CONVERGED
  }

  ghost predicate Escalates(p: Policy, s: State) {
    exists m :: m in s.markers && m.leg == LEG_RESOLVE && p.escalations(m.resolutions) != 0
  }

  ghost predicate Done(s: State, pass: int, leg: Leg) {
    exists m :: m in s.markers && m.pass == pass && m.leg == TextOf(leg) && m.state.Complete?
  }

  /** How a finished review ends the run, when it does. */
  ghost predicate ReviewEnds(p: Policy, s: State, pass: int, e: Ending) {
    if ReviewBlocked(s, pass) then e == ReviewerBlocked(pass)
    else if !SaysConverged(s, pass) && Escalates(p, s) then e == EscalationStands(pass)
    else e == ReportedConverged(pass)
  }

  /** What the review reading comes to, in terms of the markers. */
  lemma {:induction false} ReviewReads(p: Policy, s: State, pass: int)
    ensures ReadReview(p, s, pass).Continues? <==> ReviewOwes(p, s, pass)
    ensures !ReadReview(p, s, pass).Continues? ==> ReviewEnds(p, s, pass, ReadReview(p, s, pass).e)
    ensures ReadReview(p, s, pass).Halts? <==> ReviewBlocked(s, pass)
  {
    var found := MarkerFor(s.markers, pass, Review);
    NoneEscalated(p, s.markers);
    forall m ensures Newest(s.markers, pass, Review, m) <==> found == Some(m) {
      NewestIs(s.markers, pass, Review, m);
    }
    NewestIs(s.markers, pass, Review, NO_MARKER);
    hide MarkerFor, MarkerOf, Newest, Escalated;
    assert found.Some? ==> Newest(s.markers, pass, Review, found.value);
  }

  /* ---- a finished resolve ---- */

  ghost predicate ResolveBlocked(s: State, pass: int) { exists m :: Newest(s.markers, pass, Resolve, m) && m.blocked }

  /** The label the pass's completed resolve asks for. */
  ghost predicate Labelled(p: Policy, s: State, pass: int, l: PassLabel) {
    exists m :: Newest(s.markers, pass, Resolve, m) && m.state.Complete? && p.passLabel(m, Escalated(p, s.markers)) == l
  }

  /** The review the resolve answered completed, kept its coverage promise and was
      not blocked. */
  ghost predicate ReviewStands(s: State, pass: int) {
    exists m :: Newest(s.markers, pass, Review, m) && m.verdict != VERDICT_BLOCKED &&
      m.state.Complete? && !m.coverageStopped && (m.version < 2 || m.coveragePresent)
  }

  /** The resolve ends the run: blocked, under the stop label, settled over a review
      that stands, or left for a person. */
  ghost predicate ResolveEnds(p: Policy, s: State, pass: int, e: Ending) {
    if ResolveBlocked(s, pass) then e == ResolverBlocked(pass)
    else if LABEL_STOP in s.labels then e == StopApplied(pass)
    else if Labelled(p, s, pass, PassLabel.Converged) then ReviewStands(s, pass) && e == ReportedConverged(pass)
    else Labelled(p, s, pass, PassLabel.Halted) && e == LeftUnsettled(pass)
  }

  ghost predicate ResolveStops(p: Policy, s: State, pass: int) {
    || ResolveBlocked(s, pass) || LABEL_STOP in s.labels
    || (if Labelled(p, s, pass, PassLabel.Converged) then ReviewStands(s, pass) else Labelled(p, s, pass, PassLabel.Halted))
  }

  lemma {:induction false} ResolveReads(p: Policy, s: State, pass: int)
    ensures !ReadResolve(p, s, pass).Continues? <==> ResolveStops(p, s, pass)
    ensures !ReadResolve(p, s, pass).Continues? ==>
              ResolveEnds(p, s, pass, ReadResolve(p, s, pass).e)
  {
    var found, review := MarkerFor(s.markers, pass, Resolve), MarkerFor(s.markers, pass, Review);
    forall m
      ensures Newest(s.markers, pass, Resolve, m) <==> found == Some(m)
      ensures Newest(s.markers, pass, Review, m) <==> review == Some(m)
    {
      NewestIs(s.markers, pass, Resolve, m);
      NewestIs(s.markers, pass, Review, m);
    }
    NewestIs(s.markers, pass, Resolve, NO_MARKER);
    hide MarkerFor, MarkerOf, Newest, Escalated;
    assert found.Some? ==> Newest(s.markers, pass, Resolve, found.value);
    assert review.Some? ==> Newest(s.markers, pass, Review, review.value);
  }

  /* ---- what the protocol allows after a load ---- */

  lemma {:induction false} NextAfterReview(w: World, r: Request, t: seq<Event>, e: Event)
    requires Allowed(w, r, t, e) && Loaded(t) && LoadedAfter(t, Review) && !AtBound(t)
    ensures var s := Last(t).state.value;
            var reading := ReadReview(w.policy, s, PassOf(s));
            if reading.Continues? then IsLeg(e, Resolve) else e == End(reading.e)
  {
    LastLegIs(t, Review);
    hide ReadReview, ReadResolve, Runs, LastLeg, CurrentReviewPass, MarkerOf, CurrentPassComplete, Latest, PassRead;
  }

  lemma {:induction false} NextAfterResolve(w: World, r: Request, t: seq<Event>, e: Event)
    requires Allowed(w, r, t, e) && Loaded(t) && LoadedAfter(t, Resolve) && Runs(t, Resolve) > 0
    requires !AtBound(t) ==> Runs(t, Review) <= MaxOf(t)
    ensures var reading := ReadResolve(w.policy, Last(t).state.value, PassRead(t));
            if !reading.Continues? then e == End(reading.e)
            else if AtBound(t) then e == End(PassResolved(PassRead(t)))
            else if Runs(t, Review) == MaxOf(t) then e == End(CapReached)
            else e.Load?
  {
    LastLegIs(t, Resolve);
    hide ReadReview, ReadResolve, Runs, LastLeg, CurrentReviewPass, MarkerOf, CurrentPassComplete, Latest, PassRead;
  }

  lemma {:induction false} NextAfterReload(w: World, r: Request, t: seq<Event>, e: Event)
    requires Allowed(w, r, t, e) && Loaded(t) && !AtBound(t) && !LoadedAfter(t, Review) && !LoadedAfter(t, Resolve)
    requires LastLeg(t) == None || (LastLeg(t) == Some(Resolve) && Runs(t, Review) < MaxOf(t))
    ensures var pass := PassOf(Last(t).state.value);
            && (pass < MaxOf(t) ==> IsLeg(e, Review))
            && (pass >= MaxOf(t) && LastLeg(t).Some? ==> e == End(CapWithoutStarting))
  {
    hide ReadReview, ReadResolve, Runs, LastLeg, CurrentReviewPass, MarkerOf, CurrentPassComplete, Latest, PassRead, AtBound;
  }

  lemma {:induction false} NextAtCap(w: World, r: Request, t: seq<Event>, e: Event)
    requires Allowed(w, r, t, e) && Loaded(t) && AtBound(t) && !LoadedAfter(t, Resolve) && Runs(t, Resolve) == 0
    requires LoadedAfter(t, Review) <==> Runs(t, Review) > 0
    ensures var s := Last(t).state.value;
            var reading := ReadReview(w.policy, s, PassOf(s));
            if !MarkerOf(s.markers, PassOf(s), Review).state.Complete? then
              if LoadedAfter(t, Review) then e == End(ReviewUnfinished(PassOf(s))) else IsLeg(e, Review)
            else if !reading.Continues? then e == End(reading.e)
            else if CurrentPassComplete(s.markers, PassOf(s), Resolve) then e == End(CapWithoutStarting)
            else IsLeg(e, Resolve)
  {
    hide ReadReview, ReadResolve, Runs, LastLeg, CurrentReviewPass, MarkerOf, CurrentPassComplete, Latest, PassRead;
  }

  /* ---- the event after a load ---- */

  /** A load that answered at place `j` of a run that has stopped, the run being
      admitted, with its state. */
  ghost predicate Answered(w: World, r: Request, t: seq<Event>, code: nat, j: nat, s: State) {
    && Legal(w, r, t) && Stopped(w, r, t, code) && j < |t| && t[j].Load? && t[j].state == Some(s)
    && (j == 0 ==> !s.draft && w.pairs(r.harness))
  }

  predicate NextIs(t: seq<Event>, j: int, e: Event) { 0 <= j < |t| - 1 && t[j + 1] == e }

  predicate NextRuns(t: seq<Event>, j: int, leg: Leg) { 0 <= j < |t| - 1 && IsLeg(t[j + 1], leg) }

  predicate NextLoads(t: seq<Event>, j: int) { 0 <= j < |t| - 1 && t[j + 1].Load? }

  /** The prefix up to a load, as the protocol reads it. */
  lemma {:induction false} PrefixReads(t: seq<Event>, j: nat)
    requires j < |t| && t[j].Load? && t[j].state.Some?
    ensures Loaded(t[..j + 1]) && Last(t[..j + 1]) == t[j] && Front(t[..j + 1]) == t[..j]
    ensures Opening(t[..j + 1]) == Opening(t)
    ensures LoadedAfter(t[..j + 1], Review) <==> j > 0 && IsLeg(t[j - 1], Review)
    ensures LoadedAfter(t[..j + 1], Resolve) <==> j > 0 && IsLeg(t[j - 1], Resolve)
    ensures Runs(t[..j + 1], Review) == Runs(t[..j], Review) && Runs(t[..j + 1], Resolve) == Runs(t[..j], Resolve)
    ensures LastLeg(t[..j + 1]) == LastLeg(t[..j])
  {
    var before := t[..j + 1];
    assert Last(before) == t[j] && Front(before) == t[..j];
    if j > 0 {
      assert Last(t[..j]) == t[j - 1];
    }
  }

  lemma {:induction false} GoesOn(w: World, r: Request, t: seq<Event>, code: nat, j: nat, s: State)
    requires Answered(w, r, t, code, j, s)
    ensures j + 1 < |t|
  {
    assert Last(t) == t[|t| - 1];
    hide Legal;
  }

  lemma {:induction false} UpTo(w: World, r: Request, t: seq<Event>, code: nat, j: nat, s: State)
    requires Answered(w, r, t, code, j, s)
    ensures j + 1 < |t| && Legal(w, r, t) && Legal(w, r, t[..j + 1]) && Allowed(w, r, t[..j + 1], t[j + 1])
    ensures t[j].Load? && t[j].state == Some(s)
    ensures AtBound(t[..j + 1]) == AtBound(t) && MaxOf(t[..j + 1]) == MaxOf(t)
  {
    GoesOn(w, r, t, code, j, s);
    EachStepAllowed(w, r, t, j + 1);
    PrefixReads(t, j);
    hide Legal, Allowed, Stopped, Opening;
  }

  /** Below the cap a review is followed by a resolve leg exactly when it left work,
      and otherwise by the ending its markers call for. */
  lemma {:induction false} AfterReview(w: World, r: Request, t: seq<Event>, code: nat, j: nat, s: State)
    requires Answered(w, r, t, code, j, s) && j > 0 && IsLeg(t[j - 1], Review) && !AtBound(t)
    ensures NextRuns(t, j, Resolve) <==> ReviewOwes(w.policy, s, PassOf(s))
    ensures !ReviewOwes(w.policy, s, PassOf(s)) ==>
              exists e :: ReviewEnds(w.policy, s, PassOf(s), e) && NextIs(t, j, End(e))
  {
    hide *;
    UpTo(w, r, t, code, j, s);
    PrefixReads(t, j);
    ReviewReads(w.policy, s, PassOf(s));
    NextAfterReview(w, r, t[..j + 1], t[j + 1]);
    NextFacts(t, j);
  }

  lemma {:induction false} OneLeg(e: Event)
    ensures !(IsLeg(e, Review) && IsLeg(e, Resolve))
  {
  }

  lemma {:induction false} NextFacts(t: seq<Event>, j: nat)
    requires j + 1 < |t|
    ensures NextRuns(t, j, Review) <==> IsLeg(t[j + 1], Review)
    ensures NextRuns(t, j, Resolve) <==> IsLeg(t[j + 1], Resolve)
    ensures NextLoads(t, j) <==> t[j + 1].Load?
    ensures forall e :: NextIs(t, j, e) <==> t[j + 1] == e
    ensures t[j + 1].End? || t[j + 1].Load? ==> !IsLeg(t[j + 1], Resolve) && !IsLeg(t[j + 1], Review)
    ensures !(IsLeg(t[j + 1], Resolve) && IsLeg(t[j + 1], Review))
  {
  }

  /** The pass a resolve leg answered is the one read right before it. */
  lemma {:induction false} PassAnswered(w: World, r: Request, t: seq<Event>, j: nat)
    requires Legal(w, r, t) && 1 < j < |t| && t[j].Load? && t[j].state.Some? && IsLeg(t[j - 1], Resolve)
    ensures t[j - 2].Load? && t[j - 2].state.Some? && PassRead(t[..j + 1]) == PassOf(t[j - 2].state.value)
    ensures Runs(t[..j + 1], Resolve) > 0
  {
    ReloadedBefore(w, r, t, j - 1);
    PassReadAt(t, j);
    PassReadKept(t, j);
    hide Legal, PassRead, CurrentReviewPass, Runs;
    ResolveCounted(t, j);
  }

  lemma {:induction false} ResolveCounted(t: seq<Event>, j: nat)
    requires 0 < j < |t| && t[j].Load? && IsLeg(t[j - 1], Resolve)
    ensures Runs(t[..j + 1], Resolve) > 0
  {
    assert Front(t[..j + 1]) == t[..j] && Front(t[..j]) == t[..j - 1] && Last(t[..j]) == t[j - 1];
  }

  lemma {:induction false} ResolveNeeds(w: World, r: Request, t: seq<Event>, e: Event)
    requires Allowed(w, r, t, e) && IsLeg(e, Resolve)
    ensures Loaded(t) && if AtBound(t) then Runs(t, Resolve) == 0 else LoadedAfter(t, Review)
  {
    hide ReadReview, Runs, CurrentReviewPass, MarkerOf, CurrentPassComplete;
  }

  lemma {:induction false} LoadAtCapNeeds(w: World, r: Request, t: seq<Event>, e: Event)
    requires Allowed(w, r, t, e) && e.Load? && t != [] && AtBound(t)
    ensures Last(t).Ran?
  {
    hide ReadResolve, Latest, PassRead, AtBound;
  }

  lemma {:induction false} LegBefore(t: seq<Event>, i: nat)
    requires 1 < i <= |t| && Runs(t[..i], Resolve) == 0 && Last(t[..i - 1]).Ran?
    ensures IsLeg(t[i - 2], Review)
  {
    assert Last(t[..i - 1]) == t[i - 2] && Front(t[..i]) == t[..i - 1];
    RunsOfFront(t[..i]);
    RunsOfFront(t[..i - 1]);
    hide Runs;
  }

  /** Right before a resolve leg the state was loaded, first or after a review. */
  lemma {:induction false} ReloadedBefore(w: World, r: Request, t: seq<Event>, i: nat)
    requires Legal(w, r, t) && i < |t| && IsLeg(t[i], Resolve)
    ensures 0 < i && t[i - 1].Load? && t[i - 1].state.Some?
    ensures i == 1 || IsLeg(t[i - 2], Review)
  {
    hide Legal, Allowed, Runs, Loaded, LoadedAfter, AtBound, Opening;
    EachStepAllowed(w, r, t, i);
    ResolveNeeds(w, r, t[..i], t[i]);
    LoadedBefore(t, i);
    PrefixReads(t, i - 1);
    if i > 1 && AtBound(t[..i]) {
      BoundOfPrefix(t, i);
      BoundOfPrefix(t, i - 1);
      EachStepAllowed(w, r, t, i - 1);
      LoadAtCapNeeds(w, r, t[..i - 1], t[i - 1]);
      LegBefore(t, i);
    }
  }

  lemma {:induction false} PassReadAt(t: seq<Event>, j: nat)
    requires 1 < j < |t| && t[j - 2].Load? && t[j - 2].state.Some? && (j == 2 || IsLeg(t[j - 3], Review))
    ensures PassRead(t[..j - 1]) == PassOf(t[j - 2].state.value)
  {
    var before := t[..j - 1];
    assert Last(before) == t[j - 2] && Front(before) == t[..j - 2];
    if j > 2 {
      assert Last(t[..j - 2]) == t[j - 3];
    }
  }

  lemma {:induction false} PassReadKept(t: seq<Event>, j: nat)
    requires 1 < j < |t| && IsLeg(t[j - 1], Resolve) && t[j].Load?
    ensures PassRead(t[..j + 1]) == PassRead(t[..j - 1])
  {
    assert Front(t[..j + 1]) == t[..j] && Last(t[..j + 1]) == t[j];
    assert Front(t[..j]) == t[..j - 1] && Last(t[..j]) == t[j - 1];
    hide CurrentReviewPass;
  }

  /** A resolve is followed by the ending its markers call for, and otherwise, below
      the cap, by another load while a review is left to run, or by the cap's own
      line; at the cap by the line that its pass is resolved. */
  lemma {:induction false} AfterResolve(w: World, r: Request, t: seq<Event>, code: nat, j: nat, s: State)
    requires Answered(w, r, t, code, j, s) && 1 < j && IsLeg(t[j - 1], Resolve)
    ensures t[j - 2].Load? && t[j - 2].state.Some?
    ensures var pass := PassOf(t[j - 2].state.value);
            if ResolveStops(w.policy, s, pass) then exists e :: ResolveEnds(w.policy, s, pass, e) && NextIs(t, j, End(e))
            else if AtBound(t) then NextIs(t, j, End(PassResolved(pass)))
            else if Runs(t[..j], Review) == MaxOf(t) then NextIs(t, j, End(CapReached))
            else NextLoads(t, j)
  {
    hide *;
    UpTo(w, r, t, code, j, s);
    PrefixReads(t, j);
    PassAnswered(w, r, t, j);
    ResolveReads(w.policy, s, PassOf(t[j - 2].state.value));
    ReviewsLeft(w, r, t[..j + 1]);
    NextAfterResolve(w, r, t[..j + 1], t[j + 1]);
    NextFacts(t, j);
  }

  lemma {:induction false} ReviewsLeft(w: World, r: Request, t: seq<Event>)
    requires Legal(w, r, t) && LoadedAfter(t, Resolve)
    ensures !AtBound(t) ==> Runs(t, Review) <= MaxOf(t)
  {
    LegsWithinTheCap(w, r, t);
    hide Legal, AtBound, MaxOf;
    LegsTaken(t);
  }

  lemma {:induction false} LegsTaken(t: seq<Event>)
    requires LoadedAfter(t, Resolve)
    ensures Runs(t, Resolve) > 0
  {
    assert Front(t) != [];
  }

  /** Every other load below the cap is followed by a review leg exactly when the
      pass it shows is below the cap, and otherwise, after the first, by the line
      that no further pass starts. */
  lemma {:induction false} AfterOtherLoad(w: World, r: Request, t: seq<Event>, code: nat, j: nat, s: State)
    requires Answered(w, r, t, code, j, s) && !AtBound(t) && (j == 0 || t[j - 1].Load?)
    ensures if PassOf(s) < MaxOf(t) then NextRuns(t, j, Review) else NextIs(t, j, End(CapWithoutStarting))
  {
    UpTo(w, r, t, code, j, s);
    PrefixReads(t, j);
    if j == 0 {
      OpeningLoad(t, s);
    } else {
      SecondLoad(w, r, t, j);
    }
    hide *;
    NextAfterReload(w, r, t[..j + 1], t[j + 1]);
    NextFacts(t, j);
  }

  lemma {:induction false} OpeningLoad(t: seq<Event>, s: State)
    requires t != [] && t[0].Load? && t[0].state == Some(s) && !AtBound(t)
    ensures LastLeg(t[..1]) == None && PassOf(s) < MaxOf(t)
  {
    assert Front(t[..1]) == [];
  }

  lemma {:induction false} SecondLoad(w: World, r: Request, t: seq<Event>, j: nat)
    requires Legal(w, r, t) && 0 < j < |t| && t[j].Load? && t[j - 1].Load? && !AtBound(t)
    ensures LastLeg(t[..j]) == Some(Resolve) && Runs(t[..j], Review) < MaxOf(t)
  {
    EachStepAllowed(w, r, t, j);
    BoundOfPrefix(t, j);
    assert Last(t[..j]) == t[j - 1];
    hide Legal, ReadReview, ReadResolve, Runs, LastLeg, CurrentReviewPass, MarkerOf, CurrentPassComplete, Latest, PassRead, AtBound;
    LastLegIs(t[..j], Resolve);
  }

  /** The review of the pass is complete. */
  ghost predicate ReviewDone(s: State, pass: int) { exists m :: Newest(s.markers, pass, Review, m) && m.state.Complete? }

  lemma {:induction false} ReviewDoneIs(s: State, pass: int)
    ensures MarkerOf(s.markers, pass, Review).state.Complete? <==> ReviewDone(s, pass)
    ensures CurrentPassComplete(s.markers, pass, Resolve) <==> Done(s, pass, Resolve)
  {
    var found := MarkerFor(s.markers, pass, Review);
    forall m ensures Newest(s.markers, pass, Review, m) <==> found == Some(m) {
      NewestIs(s.markers, pass, Review, m);
    }
    NewestIs(s.markers, pass, Review, NO_MARKER);
    hide MarkerFor, Newest;
    assert found.Some? ==> Newest(s.markers, pass, Review, found.value);
  }

  /** A run that opens at its cap resumes an unfinished review and ends if that
      leaves it unfinished. Over a finished one it resolves exactly when the review
      left work no completed resolve has answered; it ends as the review calls for
      when there is no work, and at the cap when the work is answered. */
  lemma {:induction false} AtTheCap(w: World, r: Request, t: seq<Event>, code: nat, j: nat, s: State)
    requires Answered(w, r, t, code, j, s) && AtBound(t) && (j == 0 || IsLeg(t[j - 1], Review))
    ensures var pass := PassOf(s);
            if !ReviewDone(s, pass) then if j == 0 then NextRuns(t, j, Review) else NextIs(t, j, End(ReviewUnfinished(pass)))
            else if !ReviewOwes(w.policy, s, pass) then exists e :: ReviewEnds(w.policy, s, pass, e) && NextIs(t, j, End(e))
            else if Done(s, pass, Resolve) then NextIs(t, j, End(CapWithoutStarting))
            else NextRuns(t, j, Resolve)
  {
    hide *;
    UpTo(w, r, t, code, j, s);
    PrefixReads(t, j);
    ReviewReads(w.policy, s, PassOf(s));
    ReviewDoneIs(s, PassOf(s));
    NoResolveYet(w, r, t, j);
    if j > 0 {
      OneLeg(t[j - 1]);
    }
    NextAtCap(w, r, t[..j + 1], t[j + 1]);
    NextFacts(t, j);
  }

  lemma {:induction false} NoResolveYet(w: World, r: Request, t: seq<Event>, j: nat)
    requires Legal(w, r, t) && j < |t| && AtBound(t) && (j == 0 || IsLeg(t[j - 1], Review))
    ensures Runs(t[..j], Resolve) == 0 && (Runs(t[..j], Review) > 0 <==> j > 0)
  {
    if j > 0 {
      EachStepAllowed(w, r, t, j - 1);
      LegNeedsLoad(w, r, t[..j - 1], t[j - 1]);
      LoadedBefore(t, j - 1);
      BoundOfPrefix(t, j - 1);
      assert Last(t[..j]) == t[j - 1] && Front(t[..j]) == t[..j - 1];
      RunsOfFront(t[..j]);
      hide Legal, ReadReview, ReadResolve, Runs, LastLeg, CurrentReviewPass, MarkerOf, CurrentPassComplete, Latest, PassRead, AtBound;
    }
  }

  /* ---- how a run ends ---- */

  /** The endings a run below its cap tips after, when asked to. */
  predicate Tips(r: Request, t: seq<Event>, e: Ending) {
    !r.noTips && !AtBound(t) && (e.CapReached? || e.ReportedConverged? || e.EscalationStands?)
  }

  lemma {:induction false} NudgeNeeds(w: World, r: Request, t: seq<Event>, e: Event)
    requires Allowed(w, r, t, e) && t != [] && Last(t).End? && e.Nudge?
    ensures Tips(r, t, Last(t).ending)
  {
    hide AtBound;
  }

  lemma {:induction false} StopsUntipped(w: World, r: Request, t: seq<Event>, code: nat)
    requires Stopped(w, r, t, code) && t != [] && Last(t).End?
    ensures !Tips(r, t, Last(t).ending)
  {
    hide AtBound;
  }

  /** After the closing line comes a tip exactly when tips were asked for, the run
      did not open at its cap, and it ends at the cap, converged or on an escalation. */
  lemma {:induction false} TipFollowsExactlyWhen(w: World, r: Request, t: seq<Event>, code: nat, j: nat)
    requires Legal(w, r, t) && Stopped(w, r, t, code) && j < |t| && t[j].End?
    ensures NextIs(t, j, Nudge) <==>
            && !r.noTips && !AtBound(t)
            && (t[j].ending.CapReached? || t[j].ending.ReportedConverged? || t[j].ending.EscalationStands?)
  {
    hide Legal, Stopped, Allowed, AtBound;
    BoundOfPrefix(t, j + 1);
    if j + 1 < |t| {
      EachStepAllowed(w, r, t, j + 1);
      NextAfterEnd(w, r, t, j);
      assert Last(t[..j + 1]) == t[j];
      NudgeNeeds(w, r, t[..j + 1], t[j + 1]);
    } else {
      assert Last(t) == t[j];
      StopsUntipped(w, r, t, code);
    }
  }

  /** A run answers 0 exactly when it reported an ending or declined a draft, and
      otherwise 1. */
  lemma {:induction false} ExitCodeIs(w: World, r: Request, t: seq<Event>, code: nat)
    requires Stopped(w, r, t, code)
    ensures code == 0 || code == 1
    ensures code == 0 <==>
            && t != []
            && (|| t[|t| - 1].End? || t[|t| - 1].Nudge?
                || (|t| == 1 && t[0].Load? && t[0].state.Some? && t[0].state.value.draft))
  {
    hide NudgeAllowed;
  }

  /** What every leg is asked: the run's own pull request, trigger and overrides,
      without tips, and a resolve never as a continuation. */
  lemma {:induction false} LegsAskTheRun(w: World, r: Request, t: seq<Event>, j: nat)
    requires Legal(w, r, t) && j < |t| && t[j].Ran?
    ensures var q := t[j].request;
            && q.pr == r.pr && q.repo == r.repo && q.trigger == r.trigger && q.harness == r.harness && q.model == r.model
            && q.effort == r.effort && q.inputPolicy == r.inputPolicy && q.keepTranscripts == r.keepTranscripts && q.noTips
            && (t[j].leg.Resolve? ==> !q.continuation)
  {
    EachStepAllowed(w, r, t, j);
    hide Legal, ReadReview, ReadResolve, Runs, LastLeg, CurrentReviewPass, MarkerOf, CurrentPassComplete, Latest, PassRead, AtBound;
  }

  /** What every load after the first is asked: below the cap what the request
      named, at the cap what the load before it answered. */
  lemma {:induction false} LoadsAsk(w: World, r: Request, t: seq<Event>, j: nat)
    requires Legal(w, r, t) && 0 < j < |t| && t[j].Load?
    ensures !AtBound(t) ==> t[j].asked.pr == r.pr && t[j].asked.repo == r.repo
    ensures AtBound(t) ==>
              && 1 < j && t[j - 2].Load? && t[j - 2].state.Some?
              && t[j].asked.pr == t[j - 2].state.value.pr && t[j].asked.repo == t[j - 2].state.value.repo
  {
    EachStepAllowed(w, r, t, j);
    BoundOfPrefix(t, j);
    assert t[..j] != [] && Last(t[..j]) == t[j - 1];
    if AtBound(t) {
      hide Legal;
      assert t[j - 1].Ran? by { LoadAtCapNeeds(w, r, t[..j], t[j]); }
      EachStepAllowed(w, r, t, j - 1);
      LegNeedsLoad(w, r, t[..j - 1], t[j - 1]);
      LoadedBefore(t, j - 1);
      LatestIs(t, j);
    }
    hide Legal, ReadReview, ReadResolve, Runs, LastLeg, CurrentReviewPass, MarkerOf, CurrentPassComplete, Latest, PassRead, AtBound;
  }

  lemma {:induction false} LatestIs(t: seq<Event>, j: nat)
    requires 1 < j <= |t| && t[j - 1].Ran? && t[j - 2].Load? && t[j - 2].state.Some?
    ensures Latest(t[..j]) == t[j - 2].state
  {
    assert Last(t[..j]) == t[j - 1] && Front(t[..j]) == t[..j - 1] && Last(t[..j - 1]) == t[j - 2];
  }
}
